/** The conversions between strings and numbers that the application relies
    on: `Number.parseFloat`, `Number.parseInt(_, 10)` and `String(n)`.
    A JavaScript number is modelled as an exact `real`; IEEE-754 rounding is
    not modelled, and `parseFloat` reads the decimal subset of its grammar
    (sign, digits, one optional fraction). */
module JsNumber {
  import opened Wrappers
  import opened Text

  /** The natural number written by a string of decimal digits. */
  function DigitsValue(ds: string): nat
    requires AllDigits(ds)
  {
    if ds == [] then 0 else DigitsValue(ds[..|ds| - 1]) * 10 + DigitValue(ds[|ds| - 1])
  }

  /** The value of the digits after a decimal point: `0.d1d2d3...`. */
  function FracValue(ds: string): (v: real)
    requires AllDigits(ds)
    ensures 0.0 <= v < 1.0
  {
    if ds == [] then 0.0 else (DigitValue(ds[0]) as real + FracValue(ds[1..])) / 10.0
  }

  /** The length of the longest prefix of digits. */
  function LeadingDigits(s: string): (n: nat)
    ensures n <= |s| && AllDigits(s[..n])
    ensures n == |s| || !IsDigit(s[n])
  {
    if s == [] || !IsDigit(s[0]) then 0
    else
      var n := 1 + LeadingDigits(s[1..]);
      assert s[..n] == [s[0]] + s[1..][..n - 1];
      n
  }

  lemma LeadingDigitsOfDigits(ds: string, rest: string)
    requires AllDigits(ds)
    requires rest == [] || !IsDigit(rest[0])
    ensures LeadingDigits(ds + rest) == |ds|
  {
    if ds != [] {
      assert (ds + rest)[1..] == ds[1..] + rest;
      LeadingDigitsOfDigits(ds[1..], rest);
    }
  }

  function Signed(negative: bool, v: real): real {
    if negative then -v else v
  }

  /** The sign of a literal, if it has one, and what follows it. */
  function SplitSign(t: string): (bool, string) {
    if |t| > 0 && (t[0] == '+' || t[0] == '-') then (t[0] == '-', t[1..]) else (false, t)
  }

  /** The unsigned part of a decimal literal: the longest run of digits,
      then a '.' and the longest run of digits after it; None when neither
      run has a digit. */
  function ParseUnsignedDecimal(rest: string): (r: Option<real>)
    ensures r.Some? ==> r.value >= 0.0
  {
    var n := LeadingDigits(rest);
    var after := rest[n..];
    var frac := if |after| > 0 && after[0] == '.' then after[1..][..LeadingDigits(after[1..])] else [];
    if n == 0 && frac == [] then None
    else Some(DigitsValue(rest[..n]) as real + FracValue(frac))
  }

  /** `Number.parseFloat`: leading white space skipped, then the longest
      prefix that reads as a signed decimal; None stands for NaN. */
  function ParseFloat(s: string): (r: Option<real>)
  {
    var (negative, rest) := SplitSign(TrimStart(s));
    match ParseUnsignedDecimal(rest)
    case None => None
    case Some(v) => Some(Signed(negative, v))
  }

  /** `Number.parseInt(s, 10)`: leading white space skipped, then the longest
      prefix of digits after an optional sign; None stands for NaN. */
  function ParseInt(s: string): (r: Option<int>)
    ensures r.Some? <==> LeadingDigits(SplitSign(TrimStart(s)).1) > 0
  {
    var (negative, rest) := SplitSign(TrimStart(s));
    var n := LeadingDigits(rest);
    if n == 0 then None
    else Some(if negative then -(DigitsValue(rest[..n]) as int) else DigitsValue(rest[..n]))
  }

  /** On a string of digits, parseInt reads exactly the number they write. */
  lemma ParseIntDigits(ds: string)
    requires ds != [] && AllDigits(ds)
    ensures ParseInt(ds) == Some(DigitsValue(ds))
  {
    assert TrimStart(ds) == ds;
    LeadingDigitsOfDigits(ds, []);
    assert ds + [] == ds;
  }

  /** The shortest decimal numeral of a natural number (no leading zero). */
  function NatToString(n: nat): (s: string)
    ensures s != [] && AllDigits(s)
    ensures |s| == 1 || s[0] != '0'
    ensures DigitsValue(s) == n
  {
    if n < 10 then [DigitChar(n)]
    else
      var s := NatToString(n / 10) + [DigitChar(n % 10)];
      assert s[..|s| - 1] == NatToString(n / 10);
      s
  }

  /** Decimal numerals with no superfluous leading zero name distinct numbers. */
  lemma {:induction false} NatToStringOfDigits(ds: string)
    requires ds != [] && AllDigits(ds) && (|ds| == 1 || ds[0] != '0')
    ensures NatToString(DigitsValue(ds)) == ds
    decreases |ds|
  {
    if |ds| == 1 {
      assert DigitsValue(ds) == DigitValue(ds[0]) by {
        assert ds[..0] == [];
      }
    } else {
      var init := ds[..|ds| - 1];
      var last := ds[|ds| - 1];
      assert init[0] == ds[0];
      NatToStringOfDigits(init);
      NonZeroLeadingDigit(init);
      var w, d := DigitsValue(init), DigitValue(last);
      assert DigitsValue(ds) == w * 10 + d;
      assert DigitChar(d) == last by {
        assert DigitValue(DigitChar(d)) == DigitValue(last);
      }
      NatToStringStep(w, d);
      assert ds == init + [last];
    }
  }

  /** A number of two or more digits is written as the rest, then its last digit. */
  lemma NatToStringStep(w: nat, d: nat)
    requires 1 <= w && d <= 9
    ensures NatToString(w * 10 + d) == NatToString(w) + [DigitChar(d)]
  {
    assert (w * 10 + d) / 10 == w && (w * 10 + d) % 10 == d;
  }

  /** A numeral of two or more digits that does not start with '0' is at least 10. */
  lemma {:induction false} NonZeroLeadingDigit(ds: string)
    requires ds != [] && AllDigits(ds) && ds[0] != '0'
    ensures DigitsValue(ds) >= 1
    ensures |ds| >= 2 ==> DigitsValue(ds) >= 10
    decreases |ds|
  {
    if |ds| > 1 {
      var init := ds[..|ds| - 1];
      assert init[0] == ds[0];
      NonZeroLeadingDigit(init);
    } else {
      assert ds[..0] == [];
    }
  }

  /** `String(i)` for an integer. */
  function IntToString(i: int): string {
    if i < 0 then "-" + NatToString(-i) else NatToString(i)
  }

  /** The digits of a fraction `0 <= f < 1`, at most `n` of them, stopping as
      soon as the rest is zero (so no trailing zero is written). */
  function FracDigits(f: real, n: nat): (ds: string)
    requires 0.0 <= f < 1.0
    ensures AllDigits(ds) && |ds| <= n
    ensures f != 0.0 && n > 0 ==> ds != []
    decreases n
  {
    if f == 0.0 || n == 0 then []
    else
      var d := (f * 10.0).Floor;
      [DigitChar(d)] + FracDigits(f * 10.0 - d as real, n - 1)
  }

  /** The decimal expansion of `f` ends within `n` digits. */
  predicate Terminates(f: real, n: nat)
    requires 0.0 <= f < 1.0
    decreases n
  {
    f == 0.0 || (n > 0 && Terminates(f * 10.0 - (f * 10.0).Floor as real, n - 1))
  }

  /** Reading back the digits of a terminating fraction gives the fraction. */
  lemma {:induction false} FracDigitsRoundTrip(f: real, n: nat)
    requires 0.0 <= f < 1.0 && Terminates(f, n)
    ensures FracValue(FracDigits(f, n)) == f
    decreases n
  {
    if f != 0.0 {
      var d := (f * 10.0).Floor;
      var g := f * 10.0 - d as real;
      FracDigitsRoundTrip(g, n - 1);
      var ds := FracDigits(f, n);
      assert ds[0] == DigitChar(d) && ds[1..] == FracDigits(g, n - 1);
    }
  }

  /** The number of fractional digits `String(x)` is modelled to write. */
  const MaxFractionDigits: nat := 17

  /** A decimal numeral: an optional '-', the integer digits and, when there
      are fraction digits, a '.' and those digits. */
  function Numeral(negative: bool, ds: string, fd: string): string {
    (if negative then "-" else "") + (ds + (if fd == [] then "" else "." + fd))
  }

  /** A number written with at most `n` fraction digits: sign, integer part,
      and the fraction's digits when it is not zero. */
  function NumberToDigits(x: real, n: nat): string {
    Numeral(x < 0.0, IntegerDigits(x), FractionDigits(x, n))
  }

  /** The magnitude of a number. */
  function Magnitude(x: real): (a: real)
    ensures a >= 0.0 && (a == x || a == -x)
  {
    if x < 0.0 then -x else x
  }

  /** The digits of the integer part of the magnitude. */
  function IntegerDigits(x: real): string {
    NatToString(Magnitude(x).Floor)
  }

  /** The digits of the fraction of the magnitude, at most `n`; none when
      the number is whole. */
  function FractionDigits(x: real, n: nat): string {
    var f := Magnitude(x) - Magnitude(x).Floor as real;
    if f == 0.0 then "" else FracDigits(f, n)
  }

  /** parseFloat of unsigned digits, a '.' and fraction digits. */
  lemma ParseFloatOfUnsigned(ds: string, fd: string)
    requires ds != [] && AllDigits(ds) && AllDigits(fd) && fd != []
    ensures ParseFloat(ds + "." + fd) == Some(DigitsValue(ds) as real + FracValue(fd))
  {
    assert (ds + "." + fd)[0] == ds[0];
    UnsignedOfFraction(ds, fd);
    ParseFloatUnsigned(ds + "." + fd, DigitsValue(ds) as real + FracValue(fd));
  }

  /** parseFloat of a body that starts with a digit is its unsigned reading. */
  lemma ParseFloatUnsigned(body: string, v: real)
    requires body != [] && IsDigit(body[0])
    requires ParseUnsignedDecimal(body) == Some(v)
    ensures ParseFloat(body) == Some(v)
  {
    assert !IsSpace(body[0]);
    assert TrimStart(body) == body;
  }

  /** `String(x)` for a number. A fraction that does not end within
      MaxFractionDigits digits is cut there rather than rounded. */
  function NumberToString(x: real): string {
    NumberToDigits(x, MaxFractionDigits)
  }

  /** The fraction of `x` ends within `n` digits. */
  predicate TerminatesWithin(x: real, n: nat) {
    Terminates(Magnitude(x) - Magnitude(x).Floor as real, n)
  }

  /** A number is written exactly by String when its fraction terminates. */
  predicate HasExactString(x: real) {
    TerminatesWithin(x, MaxFractionDigits)
  }

  /** A run of digits alone reads as the number it writes. */
  lemma {:induction false} UnsignedOfWhole(ds: string)
    requires ds != [] && AllDigits(ds)
    ensures ParseUnsignedDecimal(ds) == Some(DigitsValue(ds) as real)
  {
    LeadingDigitsOfDigits(ds, []);
    assert ds + [] == ds;
    assert ds[..|ds|] == ds;
    assert ds[|ds|..] == [];
  }

  /** A run of digits, '.', and a run of digits reads as both runs. */
  lemma {:induction false} UnsignedOfFraction(ds: string, fd: string)
    requires ds != [] && AllDigits(ds) && fd != [] && AllDigits(fd)
    ensures ParseUnsignedDecimal(ds + "." + fd) == Some(DigitsValue(ds) as real + FracValue(fd))
  {
    var body := ds + "." + fd;
    assert body == ds + ("." + fd);
    LeadingDigitsOfDigits(ds, "." + fd);
    assert body[..|ds|] == ds;
    var after := body[|ds|..];
    assert after == "." + fd;
    assert after[1..] == fd;
    LeadingDigitsOfDigits(fd, []);
    assert fd + [] == fd;
    assert fd[..|fd|] == fd;
  }

  lemma UnsignedOfNumeral(ds: string, fd: string)
    requires ds != [] && AllDigits(ds) && AllDigits(fd)
    ensures ParseUnsignedDecimal(ds + (if fd == [] then "" else "." + fd))
         == Some(DigitsValue(ds) as real + FracValue(fd))
  {
    if fd == [] {
      assert ds + "" == ds;
      UnsignedOfWhole(ds);
    } else {
      assert ds + ("." + fd) == ds + "." + fd;
      UnsignedOfFraction(ds, fd);
    }
  }

  /** parseFloat of an optional '-' before a body that starts with a digit
      is the signed reading of the body. */
  lemma {:induction false} ParseFloatSigned(negative: bool, body: string, v: real)
    requires body != [] && IsDigit(body[0])
    requires ParseUnsignedDecimal(body) == Some(v)
    ensures ParseFloat((if negative then "-" else "") + body) == Some(Signed(negative, v))
  {
    var s := (if negative then "-" else "") + body;
    SignedText(negative, body);
    TrimStartOfNonSpace(s);
    ParseFloatOfSplit(s, negative, body, v);
  }

  /** An optional '-' before a digit: no leading white space, and the sign
      splits off again. */
  lemma SignedText(negative: bool, body: string)
    requires body != [] && IsDigit(body[0])
    ensures var s := (if negative then "-" else "") + body;
      s != [] && !IsSpace(s[0]) && SplitSign(s) == (negative, body)
  {
    var s := (if negative then "-" else "") + body;
    if negative {
      assert s[0] == '-' && s[1..] == body;
    } else {
      assert s == body;
      assert '0' <= s[0] <= '9';
      assert s[0] != '+' && s[0] != '-';
      assert SplitSign(s) == (false, body);
    }
  }

  /** A string that does not start with white space is its own TrimStart. */
  lemma TrimStartOfNonSpace(s: string)
    requires s != [] && !IsSpace(s[0])
    ensures TrimStart(s) == s
  {
  }

  /** parseFloat once the white space and the sign are known. */
  lemma ParseFloatOfSplit(s: string, negative: bool, body: string, v: real)
    requires SplitSign(TrimStart(s)) == (negative, body)
    requires ParseUnsignedDecimal(body) == Some(v)
    ensures ParseFloat(s) == Some(Signed(negative, v))
  {
  }

  /** What parseFloat reads from a numeral: the value `v` of its digits. */
  lemma ParseFloatOfNumeral(negative: bool, ds: string, fd: string, v: real)
    requires ds != [] && AllDigits(ds) && AllDigits(fd)
    requires v == DigitsValue(ds) as real + FracValue(fd)
    ensures ParseFloat(Numeral(negative, ds, fd)) == Some(Signed(negative, v))
  {
    var body := ds + (if fd == [] then "" else "." + fd);
    assert body[0] == ds[0];
    UnsignedOfNumeral(ds, fd);
    ParseFloatSigned(negative, body, v);
  }

  /** A number is its sign applied to its integer part plus its fraction. */
  lemma SplitAbs(x: real)
    ensures var a := Magnitude(x);
            Signed(x < 0.0, a.Floor as real + (a - a.Floor as real)) == x
  {
  }

  /** The fraction digits String writes read back as the fraction. */
  lemma FracPartRoundTrip(f: real, n: nat)
    requires 0.0 <= f < 1.0 && Terminates(f, n)
    ensures FracValue(if f == 0.0 then "" else FracDigits(f, n)) == f
  {
    if f != 0.0 {
      FracDigitsRoundTrip(f, n);
    }
  }

  /** parseFloat reads back a number written with enough fraction digits. */
  lemma NumberToDigitsRoundTrip(x: real, n: nat)
    requires TerminatesWithin(x, n)
    ensures ParseFloat(NumberToDigits(x, n)) == Some(x)
  {
    var neg := x < 0.0;
    var a := Magnitude(x);
    var ip := a.Floor;
    var f := a - ip as real;
    var ds := IntegerDigits(x);
    var fd := FractionDigits(x, n);
    var v := ip as real + f;
    assert fd == if f == 0.0 then "" else FracDigits(f, n);
    FracPartRoundTrip(f, n);
    SplitAbs(x);
    assert Signed(neg, v) == x;
    ParseFloatOfNumeral(neg, ds, fd, v);
    assert ParseFloat(Numeral(neg, ds, fd)) == Some(Signed(neg, v));
  }

  /** parseFloat(String(x)) == x for every number String writes exactly. */
  lemma ParseFloatNumberToString(x: real)
    requires HasExactString(x)
    ensures ParseFloat(NumberToString(x)) == Some(x)
  {
    NumberToDigitsRoundTrip(x, MaxFractionDigits);
  }

  /** The characters String writes for a number. */
  predicate NumeralChar(c: char) {
    IsDigit(c) || c == '-' || c == '.'
  }

  /** String writes only digits, a '-' and a '.', and never nothing. */
  lemma NumberToStringChars(x: real)
    ensures NumberToString(x) != []
    ensures forall k :: 0 <= k < |NumberToString(x)| ==> NumeralChar(NumberToString(x)[k])
  {
    NumberToDigitsChars(x, MaxFractionDigits);
  }

  /** The same for any bound on the fraction digits. */
  lemma NumberToDigitsChars(x: real, n: nat)
    ensures NumberToDigits(x, n) != []
    ensures forall k :: 0 <= k < |NumberToDigits(x, n)| ==> NumeralChar(NumberToDigits(x, n)[k])
  {
    NumeralChars(x < 0.0, IntegerDigits(x), FractionDigits(x, n));
  }

  /** A numeral has only digits, a '-' and a '.', and is never empty. */
  lemma NumeralChars(negative: bool, ds: string, fd: string)
    requires ds != [] && AllDigits(ds) && AllDigits(fd)
    ensures Numeral(negative, ds, fd) != []
    ensures forall k :: 0 <= k < |Numeral(negative, ds, fd)| ==> NumeralChar(Numeral(negative, ds, fd)[k])
  {
    var tail := ds + (if fd == [] then "" else "." + fd);
    forall k | 0 <= k < |tail|
      ensures NumeralChar(tail[k])
    {
      if k < |ds| {
        assert tail[k] == ds[k];
      } else if k > |ds| {
        assert tail[k] == fd[k - |ds| - 1];
      }
    }
    var s := Numeral(negative, ds, fd);
    var sign := if negative then "-" else "";
    assert s == sign + tail;
    forall k | 0 <= k < |s|
      ensures NumeralChar(s[k])
    {
      if k >= |sign| {
        assert s[k] == tail[k - |sign|];
      }
    }
  }
}
