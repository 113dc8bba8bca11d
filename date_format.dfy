/** Writing dates and times back as text: `pad2`, `formatBrDate`,
    `todayBrDate`, `formatHHmm` and `nowHHmm`, with the clock's reading
    passed in. Reading what they write gives back what was written, except
    that a year below 1000 is written with fewer than four digits. */
module DateFormat {
  import opened Wrappers
  import opened Text
  import opened JsNumber
  import opened Calendar
  import opened Format

  /** `padStart(width, '0')`: zeros in front until the string is `width` long. */
  function PadZeros(s: string, width: nat): (r: string)
    ensures |r| == if |s| >= width then |s| else width
    ensures |s| >= width ==> r == s
    decreases width - |s|
  {
    if |s| >= width then s else PadZeros("0" + s, width)
  }

  /** `pad2`: the number, written with at least two characters. */
  function Pad2(v: int): string {
    PadZeros(IntToString(v), 2)
  }

  /** `formatBrDate` (and `todayBrDate` on today's date): two-digit day and
      month, and the year as `String` writes it, without padding. */
  function FormatBrDate(d: Date): string {
    Pad2(d.day) + "/" + Pad2(d.month) + "/" + IntToString(d.year)
  }

  /** `formatBrDate` with the year padded to four digits, as the DD/MM/YYYY
      shape that parseBrDate and isValidBrDate accept demands. */
  function FormatBrDatePadded(d: Date): string {
    Pad2(d.day) + "/" + Pad2(d.month) + "/" + PadZeros(IntToString(d.year), 4)
  }

  /** `formatHHmm` (and `nowHHmm` on the current time). */
  function FormatHHmm(hour: int, minute: int): string {
    Pad2(hour) + ":" + Pad2(minute)
  }

  function Pow10(k: nat): (p: nat)
    ensures p >= 1
  {
    if k == 0 then 1 else 10 * Pow10(k - 1)
  }

  // ---------------------------------------------------------------------
  // Numerals

  /** The numeral of `n` has at most `k` digits exactly when n < 10^k. */
  lemma {:induction false} NatToStringLength(n: nat, k: nat)
    requires k >= 1
    ensures |NatToString(n)| <= k <==> n < Pow10(k)
    decreases k
  {
    if n >= 10 {
      assert NatToString(n)[..|NatToString(n)| - 1] == NatToString(n / 10);
      if k > 1 {
        NatToStringLength(n / 10, k - 1);
      }
    }
  }

  /** `k` digits write a number below 10^k. */
  lemma {:induction false} DigitsValueBound(t: string)
    requires AllDigits(t)
    ensures DigitsValue(t) < Pow10(|t|)
    decreases |t|
  {
    if t != [] {
      DigitsValueBound(t[..|t| - 1]);
    }
  }

  /** A leading zero does not change the number written. */
  lemma {:induction false} LeadingZero(t: string)
    requires AllDigits(t)
    ensures AllDigits("0" + t) && DigitsValue("0" + t) == DigitsValue(t)
    decreases |t|
  {
    if t != [] {
      var init := t[..|t| - 1];
      LeadingZero(init);
      assert ("0" + t)[..|t|] == "0" + init;
    }
  }

  /** Padding to `w` when shorter than `w` is one zero before padding to w - 1. */
  lemma {:induction false} PadZerosStep(x: string, w: nat)
    requires |x| < w
    ensures PadZeros(x, w) == "0" + PadZeros(x, w - 1)
    decreases w - |x|
  {
    if |x| < w - 1 {
      PadZerosStep("0" + x, w);
    }
  }

  /** Padding keeps a numeral's value. */
  lemma {:induction false} PadZerosValue(x: string, w: nat)
    requires AllDigits(x)
    ensures AllDigits(PadZeros(x, w)) && DigitsValue(PadZeros(x, w)) == DigitsValue(x)
    decreases w - |x|
  {
    if |x| < w {
      LeadingZero(x);
      PadZerosValue("0" + x, w);
    }
  }

  /** A run of `w` digits is the padded numeral of its value. */
  lemma {:induction false} PadZerosOfDigits(t: string, w: nat)
    requires AllDigits(t) && |t| == w && w >= 1
    ensures PadZeros(NatToString(DigitsValue(t)), w) == t
    decreases w
  {
    if t[0] != '0' || w == 1 {
      NatToStringOfDigits(t);
    } else {
      var rest := t[1..];
      assert t == "0" + rest;
      LeadingZero(rest);
      PadZerosOfDigits(rest, w - 1);
      PadZerosStep(NatToString(DigitsValue(rest)), w);
    }
  }

  /** The padded numeral of `v` below 10^w: `w` digits writing `v`. */
  lemma PaddedNumeral(v: nat, w: nat)
    requires w >= 1 && v < Pow10(w)
    ensures |PadZeros(NatToString(v), w)| == w
    ensures AllDigits(PadZeros(NatToString(v), w))
    ensures DigitsValue(PadZeros(NatToString(v), w)) == v
  {
    NatToStringLength(v, w);
    PadZerosValue(NatToString(v), w);
  }

  // ---------------------------------------------------------------------
  // pad2

  /** pad2 of 0..99 is two digits that write it. */
  lemma Pad2Value(v: int)
    requires 0 <= v <= 99
    ensures |Pad2(v)| == 2 && AllDigits(Pad2(v)) && DigitsValue(Pad2(v)) == v
  {
    PaddedNumeral(v, 2);
  }

  /** Two digits are pad2 of the number they write. */
  lemma Pad2OfDigits(t: string)
    requires |t| == 2 && AllDigits(t)
    ensures Pad2(DigitsValue(t)) == t
  {
    PadZerosOfDigits(t, 2);
  }

  // ---------------------------------------------------------------------
  // Dates

  /** The pieces of `a/b/c` with pieces of 2, 2 and 4 characters. */
  lemma BrDateSlices(a: string, b: string, c: string)
    requires |a| == 2 && |b| == 2 && |c| == 4
    ensures var s := a + "/" + b + "/" + c;
            |s| == 10 && s[2] == '/' && s[5] == '/' && s[..2] == a && s[3..5] == b && s[6..] == c
  {
  }

  /** A DD/MM/YYYY string is its three groups joined by '/'. */
  lemma BrDateJoin(s: string)
    requires BrDateShape(s)
    ensures s == s[..2] + "/" + s[3..5] + "/" + s[6..]
  {
  }

  /** The padded format of a date with a year 0..9999 has the DD/MM/YYYY
      shape, and its groups write the date's fields. */
  lemma FormatPaddedFields(d: Date)
    requires IsRealDate(d) && 0 <= d.year <= 9999
    ensures BrDateShape(FormatBrDatePadded(d)) && BrDateFields(FormatBrDatePadded(d)) == d
  {
    Pad2Value(d.day);
    Pad2Value(d.month);
    PaddedNumeral(d.year, 4);
    BrDateSlices(Pad2(d.day), Pad2(d.month), PadZeros(IntToString(d.year), 4));
  }

  /** Parsing the padded format of a real date in a year 100..9999 gives
      the date back. */
  lemma ParseFormatPadded(d: Date)
    requires IsRealDate(d) && 100 <= d.year <= 9999
    ensures ParseBrDate(FormatBrDatePadded(d)) == Some(d)
  {
    FormatPaddedFields(d);
    ParseBrDateValid(FormatBrDatePadded(d));
  }

  /** Formatting (padded) what parseBrDate reads gives the string back, for
      every string isValidBrDate accepts. */
  lemma FormatParsePadded(s: string)
    requires IsValidBrDate(s)
    ensures ParseBrDate(s).Some? && FormatBrDatePadded(ParseBrDate(s).value) == s
  {
    ValidBrDateFields(s);
    ParseBrDateValid(s);
    Pad2OfDigits(s[..2]);
    Pad2OfDigits(s[3..5]);
    PadZerosOfDigits(s[6..], 4);
    BrDateJoin(s);
  }

  /** As written, formatBrDate gives a valid string back when the year has
      no leading zero, i.e. lies in 1000..9999. */
  lemma FormatParseFourDigitYear(s: string)
    requires IsValidBrDate(s) && s[6] != '0'
    ensures ParseBrDate(s).Some? && FormatBrDate(ParseBrDate(s).value) == s
  {
    ValidBrDateFields(s);
    ParseBrDateValid(s);
    Pad2OfDigits(s[..2]);
    Pad2OfDigits(s[3..5]);
    NatToStringOfDigits(s[6..]);
    BrDateJoin(s);
  }

  /** As written, a valid date whose year is written with a leading zero
      (years 100..999) is formatted in fewer than ten characters, so the
      result is no longer a DD/MM/YYYY string. */
  lemma FormatParseShortYear(s: string)
    requires IsValidBrDate(s) && s[6] == '0'
    ensures ParseBrDate(s).Some? && |FormatBrDate(ParseBrDate(s).value)| < 10
    ensures !IsValidBrDate(FormatBrDate(ParseBrDate(s).value))
  {
    ValidBrDateFields(s);
    ParseBrDateValid(s);
    ZeroLedYear(s);
    ShortYearFormat(BrDateFields(s));
  }

  /** A year group that starts with a zero writes a number below 1000. */
  lemma ZeroLedYear(s: string)
    requires BrDateShape(s) && s[6] == '0'
    ensures DigitsValue(s[6..]) < 1000
  {
    var t := s[7..];
    assert s[6..] == "0" + t;
    assert AllDigits(t) by {
      assert forall k :: 0 <= k < |t| ==> t[k] == s[6..][k + 1];
    }
    LeadingZero(t);
    DigitsValueBound(t);
  }

  /** formatBrDate of a date whose year is below 1000 is shorter than
      DD/MM/YYYY. */
  lemma ShortYearFormat(d: Date)
    requires 0 <= d.day <= 99 && 0 <= d.month <= 99 && 0 <= d.year < 1000
    ensures |FormatBrDate(d)| < 10
  {
    NatToStringLength(d.year, 3);
    Pad2Value(d.day);
    Pad2Value(d.month);
  }

  /** "01/01/0100" is such a string: it names 1 January 100. */
  lemma ShortYearExample()
    ensures IsValidBrDate("01/01/0100") && "01/01/0100"[6] == '0'
  {
    var s := "01/01/0100";
    assert s[..2] == "01" && s[3..5] == "01" && s[6..] == "0100";
    assert "01"[..1] == "0" && "0"[..0] == "";
    assert DigitsValue("01") == 1;
    assert "0100"[..3] == "010" && "010"[..2] == "01";
    assert DigitsValue("0100") == 100;
    assert BrDateFields(s) == Date(1, 1, 100);
    ParseBrDateValid(s);
  }

  // ---------------------------------------------------------------------
  // Times

  /** formatHHmm of a time of day is an HH:MM string that reads back as it. */
  lemma FormatHHmmValid(hour: int, minute: int)
    requires 0 <= hour <= 23 && 0 <= minute <= 59
    ensures IsValidTimeHHmm(FormatHHmm(hour, minute))
    ensures DigitsValue(FormatHHmm(hour, minute)[..2]) == hour
    ensures DigitsValue(FormatHHmm(hour, minute)[3..]) == minute
  {
    Pad2Value(hour);
    Pad2Value(minute);
    var s := FormatHHmm(hour, minute);
    assert s[..2] == Pad2(hour) && s[3..] == Pad2(minute);
  }

  /** Every valid HH:MM string is formatHHmm of the time it names. */
  lemma FormatHHmmOfValid(s: string)
    requires IsValidTimeHHmm(s)
    ensures FormatHHmm(DigitsValue(s[..2]), DigitsValue(s[3..])) == s
  {
    Pad2OfDigits(s[..2]);
    Pad2OfDigits(s[3..]);
    assert s == s[..2] + ":" + s[3..];
  }
}
