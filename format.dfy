/** Parsing and formatting of user input: decimal amounts in Brazilian or
    dotted notation, DD/MM/YYYY dates, HH:MM times, and the comparison of
    a start date-time with an end date-time. The clock is never read here:
    "today" and "now" are arguments. */
module Format {
  import opened Wrappers
  import opened Text
  import opened JsNumber
  import opened Calendar

  // ---------------------------------------------------------------------
  // Decimal input

  /** The string handed to parseFloat: white space removed, then the
      separators rewritten. */
  function NormalizeDecimal(raw: string): string {
    DecimalSeparators(RemoveSpaces(Trim(raw)))
  }

  /** When there is a ',' it is the decimal separator, and if there is also
      a '.' every '.' is a thousands separator and is dropped first. */
  function DecimalSeparators(n: string): string {
    if ',' in n then
      if '.' in n then ReplaceFirst(RemoveChar(n, '.'), ',', '.')
      else ReplaceFirst(n, ',', '.')
    else n
  }

  /** `parseDecimalInput`: 0 for blank or unreadable input, otherwise what
      parseFloat reads from the normalised string. */
  function ParseDecimalInput(raw: string): real {
    ReadNormalized(NormalizeDecimal(raw))
  }

  /** The value of a normalised string: 0 when it is empty or parseFloat
      finds no number in it. */
  function ReadNormalized(n: string): (v: real)
    ensures v == 0.0 || ParseFloat(n) == Some(v)
    ensures n == [] ==> v == 0.0
  {
    if n == [] then 0.0
    else match ParseFloat(n)
      case None => 0.0
      case Some(x) => x
  }

  /** Blank input reads as 0. */
  lemma ParseDecimalBlank(raw: string)
    requires AllSpace(raw)
    ensures ParseDecimalInput(raw) == 0.0
  {
    TrimEmptyIffAllSpace(raw);
  }

  /** White space anywhere in the input is ignored. */
  lemma ParseDecimalIgnoresSpaces(raw: string)
    ensures ParseDecimalInput(raw) == ParseDecimalInput(RemoveSpaces(raw))
  {
    RemoveSpacesOfTrim(raw);
    RemoveSpacesOfTrim(RemoveSpaces(raw));
    RemoveSpacesIdempotent(raw);
  }

  predicate DigitOrDot(c: char) {
    IsDigit(c) || c == '.'
  }

  predicate DigitsAndDots(s: string) {
    forall k :: 0 <= k < |s| ==> DigitOrDot(s[k])
  }

  /** Input without white space reaches the separator rewriting unchanged. */
  lemma NormalizeWithoutSpaces(s: string)
    requires forall k :: 0 <= k < |s| ==> !IsSpace(s[k])
    ensures NormalizeDecimal(s) == DecimalSeparators(s)
  {
    TrimNoSpace(s);
    RemoveSpacesNoop(s);
    NormalizeClean(s);
  }

  lemma NormalizeClean(s: string)
    requires Trim(s) == s && RemoveSpaces(s) == s
    ensures NormalizeDecimal(s) == DecimalSeparators(s)
  {
  }

  /** Digits, dots and a comma are not white space. */
  lemma BrazilianHasNoSpace(intPart: string, fd: string)
    requires DigitsAndDots(intPart) && AllDigits(fd)
    ensures var s := intPart + "," + fd; forall k :: 0 <= k < |s| ==> !IsSpace(s[k])
  {
  }

  /** Digits and a dot are not white space. */
  lemma DottedHasNoSpace(ds: string, fd: string)
    requires AllDigits(ds) && AllDigits(fd)
    ensures var s := ds + "." + fd; forall k :: 0 <= k < |s| ==> !IsSpace(s[k])
  {
  }

  lemma {:induction false} RemoveCharKeepsDigits(s: string)
    requires DigitsAndDots(s)
    ensures AllDigits(RemoveChar(s, '.'))
  {
    if s != [] {
      RemoveCharKeepsDigits(s[1..]);
    }
  }

  /** Dropping the dots of `intPart + "," + fd` touches only `intPart`. */
  lemma DropDotsBeforeComma(intPart: string, fd: string)
    requires AllDigits(fd)
    ensures RemoveChar(intPart + "," + fd, '.') == RemoveChar(intPart, '.') + "," + fd
  {
    var tail := "," + fd;
    assert '.' !in tail by {
      forall k | 0 <= k < |tail|
        ensures tail[k] != '.'
      {
        if k > 0 {
          assert tail[k] == fd[k - 1];
        }
      }
    }
    assert RemoveChar(tail, '.') == tail;
    RemoveCharAppend(intPart, tail, '.');
    assert intPart + "," + fd == intPart + tail;
    assert RemoveChar(intPart, '.') + "," + fd == RemoveChar(intPart, '.') + tail;
  }

  /** The first ',' after a comma-free prefix becomes '.'. */
  lemma CommaToDot(ds: string, fd: string)
    requires ',' !in ds && ',' !in fd
    ensures ReplaceFirst(ds + "," + fd, ',', '.') == ds + "." + fd
  {
    assert ds + "," + fd == ds + ("," + fd);
    ReplaceFirstAfter(ds, "," + fd, ',', '.');
    assert ds + "." + fd == ds + ("." + fd);
  }

  /** The separators of Brazilian notation become a single '.'. */
  lemma SeparatorsBrazilian(intPart: string, fd: string)
    requires DigitsAndDots(intPart) && AllDigits(fd)
    ensures DecimalSeparators(intPart + "," + fd) == RemoveChar(intPart, '.') + "." + fd
  {
    var s := intPart + "," + fd;
    var ds := RemoveChar(intPart, '.');
    RemoveCharKeepsDigits(intPart);
    assert s[|intPart|] == ',';
    if '.' in s {
      DropDotsBeforeComma(intPart, fd);
      CommaToDot(ds, fd);
    } else {
      assert ds == intPart;
      CommaToDot(intPart, fd);
    }
  }

  /** Brazilian notation: an integer part whose digits may be grouped by
      '.', a ',' and fraction digits reads as the number those digits
      write (so "1.234,56" reads as 1234.56). */
  lemma ParseDecimalBrazilian(intPart: string, fd: string)
    requires DigitsAndDots(intPart) && RemoveChar(intPart, '.') != []
    requires AllDigits(fd) && fd != []
    ensures AllDigits(RemoveChar(intPart, '.'))
    ensures ParseDecimalInput(intPart + "," + fd)
         == DigitsValue(RemoveChar(intPart, '.')) as real + FracValue(fd)
  {
    var ds := RemoveChar(intPart, '.');
    RemoveCharKeepsDigits(intPart);
    BrazilianHasNoSpace(intPart, fd);
    NormalizeWithoutSpaces(intPart + "," + fd);
    SeparatorsBrazilian(intPart, fd);
    ReadUnsigned(ds, fd);
  }

  /** Dotted notation: digits, '.', fraction digits read as written. */
  lemma ParseDecimalDotted(ds: string, fd: string)
    requires ds != [] && AllDigits(ds) && AllDigits(fd) && fd != []
    ensures ParseDecimalInput(ds + "." + fd) == DigitsValue(ds) as real + FracValue(fd)
  {
    var s := ds + "." + fd;
    DottedNormalized(ds, fd);
    assert NormalizeDecimal(s) == s;
    ReadUnsigned(ds, fd);
  }

  /** A dotted numeral is already in normal form. */
  lemma DottedNormalized(ds: string, fd: string)
    requires AllDigits(ds) && AllDigits(fd)
    ensures NormalizeDecimal(ds + "." + fd) == ds + "." + fd
  {
    DottedHasNoSpace(ds, fd);
    NormalizeWithoutSpaces(ds + "." + fd);
    DottedHasNoComma(ds, fd);
  }

  lemma DottedHasNoComma(ds: string, fd: string)
    requires AllDigits(ds) && AllDigits(fd)
    ensures ',' !in ds + "." + fd
  {
    var s := ds + "." + fd;
    forall k | 0 <= k < |s|
      ensures s[k] != ','
    {
      if k < |ds| {
        assert s[k] == ds[k];
      } else if k > |ds| {
        assert s[k] == fd[k - |ds| - 1];
      }
    }
  }

  /** A normalised unsigned numeral reads as the number it writes. */
  lemma ReadUnsigned(ds: string, fd: string)
    requires ds != [] && AllDigits(ds) && AllDigits(fd) && fd != []
    ensures ReadNormalized(ds + "." + fd) == DigitsValue(ds) as real + FracValue(fd)
  {
    ParseFloatOfUnsigned(ds, fd);
  }

  /** "1.234,56" reads as 1234.56. */
  lemma ParseDecimalExample()
    ensures ParseDecimalInput("1.234,56") == 1234.56
  {
    ExampleParts();
    ParseDecimalBrazilian("1.234", "56");
    ExampleValues();
  }

  lemma ExampleParts()
    ensures "1.234,56" == "1.234" + "," + "56"
    ensures DigitsAndDots("1.234") && AllDigits("56")
    ensures RemoveChar("1.234", '.') == "1234"
  {
  }

  lemma ExampleValues()
    ensures DigitsValue("1234") as real + FracValue("56") == 1234.56
  {
    assert "1234"[..3] == "123" && "123"[..2] == "12" && "12"[..1] == "1" && "1"[..0] == "";
    assert DigitsValue("1") == 1;
    assert DigitsValue("12") == 12;
    assert DigitsValue("123") == 123;
    assert DigitsValue("1234") == 1234;
    assert "56"[1..] == "6" && "6"[1..] == "";
    assert FracValue("6") == 0.6;
    assert FracValue("56") == 0.56;
  }

  // ---------------------------------------------------------------------
  // Dates

  /** The shape `^(\d{2})\/(\d{2})\/(\d{4})$`. */
  predicate BrDateShape(s: string) {
    |s| == 10 && s[2] == '/' && s[5] == '/'
    && AllDigits(s[..2]) && AllDigits(s[3..5]) && AllDigits(s[6..])
  }

  /** The (day, month, year) the three groups of a DD/MM/YYYY string write. */
  function BrDateFields(s: string): Date
    requires BrDateShape(s)
  {
    Date(DigitsValue(s[..2]), DigitsValue(s[3..5]), DigitsValue(s[6..]))
  }

  /** `parseBrDate`: the date, when the string has the shape and
      `new Date(year, month - 1, day)` reads back the same day, month and
      year; None otherwise. */
  function ParseBrDate(s: string): Option<Date> {
    if !BrDateShape(s) then None
    else
      var d := BrDateFields(s);
      if Denotes(d, d.year, d.month, d.day) then Some(d) else None
  }

  /** `isValidBrDate`: the same test as parseBrDate. */
  predicate IsValidBrDate(s: string) {
    BrDateShape(s) && var d := BrDateFields(s); Denotes(d, d.year, d.month, d.day)
  }

  /** parseBrDate succeeds exactly on the strings isValidBrDate accepts,
      and those are the DD/MM/YYYY strings naming a real date in a year
      from 100 on. */
  lemma ParseBrDateValid(s: string)
    ensures ParseBrDate(s).Some? <==> IsValidBrDate(s)
    ensures IsValidBrDate(s) <==>
      BrDateShape(s) && IsRealDate(BrDateFields(s)) && BrDateFields(s).year >= 100
    ensures ParseBrDate(s).Some? ==> ParseBrDate(s).value == BrDateFields(s)
  {
    if BrDateShape(s) {
      DenotesItself(BrDateFields(s));
    }
  }

  /** `isValidTimeHHmm`: `^(\d{2}):(\d{2})$` with hour 0..23, minute 0..59. */
  predicate IsValidTimeHHmm(s: string) {
    |s| == 5 && s[2] == ':' && AllDigits(s[..2]) && AllDigits(s[3..])
    && DigitsValue(s[..2]) <= 23 && DigitsValue(s[3..]) <= 59
  }

  /** Element `i` of a split, or None (undefined) past the end. */
  function PartAt(parts: seq<string>, i: nat): Option<string> {
    if i < |parts| then Some(parts[i]) else None
  }

  /** parseInt of a part that may be missing; None is NaN. */
  function ParsePart(p: Option<string>): Option<int> {
    match p
    case None => None
    case Some(t) => ParseInt(t)
  }

  /** `brDateToParts`: split on '/' and parseInt the first three pieces. */
  function BrDateToParts(s: string): (Option<int>, Option<int>, Option<int>) {
    var parts := Split(s, '/');
    (ParsePart(PartAt(parts, 0)), ParsePart(PartAt(parts, 1)), ParsePart(PartAt(parts, 2)))
  }

  /** The hour and minute of `time.split(':').map(parseInt)`. */
  function TimeToParts(s: string): (Option<int>, Option<int>) {
    var parts := Split(s, ':');
    (ParsePart(PartAt(parts, 0)), ParsePart(PartAt(parts, 1)))
  }

  /** The local time, in minutes, of `new Date(year, month - 1, day, hour,
      minute)`; None when any argument is NaN (an invalid Date). */
  function LocalMinutes(date: string, time: string): Option<int> {
    var dateParts := BrDateToParts(date);
    var timeParts := TimeToParts(time);
    InstantOf(dateParts.0, dateParts.1, dateParts.2, timeParts.0, timeParts.1)
  }

  /** `new Date(year, month - 1, day, hour, minute)` in local minutes. */
  function InstantOf(day: Option<int>, month: Option<int>, year: Option<int>,
                     hour: Option<int>, minute: Option<int>): Option<int> {
    if day.None? || month.None? || year.None? || hour.None? || minute.None? then None
    else Some(MakeDay(JsFullYear(year.value), month.value - 1, day.value) * 1440
              + hour.value * 60 + minute.value)
  }

  /** `compareBrDateTime`: 0 for equal instants, -1 when start is earlier,
      and 1 otherwise, including whenever either instant is invalid. */
  function CompareBrDateTime(startDate: string, startTime: string,
                             endDate: string, endTime: string): (r: int)
    ensures r == -1 || r == 0 || r == 1
    ensures r != 1 ==> LocalMinutes(startDate, startTime).Some? && LocalMinutes(endDate, endTime).Some?
  {
    CompareInstants(LocalMinutes(startDate, startTime), LocalMinutes(endDate, endTime))
  }

  /** The comparison of two `getTime()` values, None being NaN: every
      comparison with NaN is false, so the result is then 1. */
  function CompareInstants(start: Option<int>, end: Option<int>): (r: int)
    ensures r == -1 || r == 0 || r == 1
    ensures r != 1 ==> start.Some? && end.Some?
  {
    if start.Some? && end.Some? && start.value == end.value then 0
    else if start.Some? && end.Some? && start.value < end.value then -1
    else 1
  }

  /** Identical arguments compare equal when they denote an instant, and
      as 1 when they do not. */
  lemma CompareSelf(date: string, time: string)
    ensures CompareBrDateTime(date, time, date, time)
         == if LocalMinutes(date, time).Some? then 0 else 1
  {
  }

  /** Swapping start and end negates the result when both are instants. */
  lemma CompareSwap(sd: string, st: string, ed: string, et: string)
    ensures LocalMinutes(sd, st).Some? && LocalMinutes(ed, et).Some? ==>
      CompareBrDateTime(ed, et, sd, st) == -CompareBrDateTime(sd, st, ed, et)
    ensures LocalMinutes(sd, st).None? || LocalMinutes(ed, et).None? ==>
      CompareBrDateTime(ed, et, sd, st) == 1 && CompareBrDateTime(sd, st, ed, et) == 1
  {
  }

  /** Splitting `a/b/c` where no piece holds '/'. */
  lemma SplitThree(a: string, b: string, c: string, sep: char)
    requires sep !in a && sep !in b && sep !in c
    ensures Split(a + [sep] + (b + [sep] + c), sep) == [a, b, c]
  {
    SplitFirst(a, b + [sep] + c, sep);
    SplitFirst(b, c, sep);
    SplitNone(c, sep);
  }

  /** The pieces of a DD/MM/YYYY string. */
  lemma SplitBrDate(s: string)
    requires BrDateShape(s)
    ensures Split(s, '/') == [s[..2], s[3..5], s[6..]]
  {
    assert s == s[..2] + ['/'] + (s[3..5] + ['/'] + s[6..]);
    SplitThree(s[..2], s[3..5], s[6..], '/');
  }

  /** A valid DD/MM/YYYY string splits into its three groups. */
  lemma BrDatePartsOfValid(s: string)
    requires BrDateShape(s)
    ensures BrDateToParts(s) == (Some(BrDateFields(s).day), Some(BrDateFields(s).month),
                                 Some(BrDateFields(s).year))
  {
    var dd, mm, yy := s[..2], s[3..5], s[6..];
    var parts := Split(s, '/');
    SplitBrDate(s);
    assert PartAt(parts, 0) == Some(dd) && PartAt(parts, 1) == Some(mm) && PartAt(parts, 2) == Some(yy);
    ParseIntDigits(dd);
    ParseIntDigits(mm);
    ParseIntDigits(yy);
    assert ParsePart(Some(dd)) == Some(DigitsValue(dd) as int);
    assert ParsePart(Some(mm)) == Some(DigitsValue(mm) as int);
    assert ParsePart(Some(yy)) == Some(DigitsValue(yy) as int);
  }

  /** The pieces of an HH:MM string. */
  lemma SplitTime(s: string)
    requires |s| == 5 && s[2] == ':' && AllDigits(s[..2]) && AllDigits(s[3..])
    ensures Split(s, ':') == [s[..2], s[3..]]
  {
    assert s == s[..2] + [':'] + s[3..];
    SplitFirst(s[..2], s[3..], ':');
    SplitNone(s[3..], ':');
  }

  /** A valid HH:MM string splits into hour and minute. */
  lemma TimePartsOfValid(s: string)
    requires IsValidTimeHHmm(s)
    ensures TimeToParts(s) == (Some(DigitsValue(s[..2]) as int), Some(DigitsValue(s[3..]) as int))
  {
    var hh, mm := s[..2], s[3..];
    SplitTime(s);
    ParseIntDigits(hh);
    ParseIntDigits(mm);
    PartsOfPair(Split(s, ':'), hh, mm);
  }

  /** The first two parts of a two-piece split. */
  lemma PartsOfPair(parts: seq<string>, a: string, b: string)
    requires parts == [a, b]
    ensures PartAt(parts, 0) == Some(a) && PartAt(parts, 1) == Some(b)
  {
  }

  /** The instant of a valid date and time, in local minutes. */
  lemma LocalMinutesOfValid(date: string, time: string, d: Date, h: int, m: int, n: int)
    requires BrDateShape(date) && d == BrDateFields(date) && d.year >= 100
    requires IsValidTimeHHmm(time) && h == DigitsValue(time[..2]) && m == DigitsValue(time[3..])
    requires n == DayNumber(d) * 1440 + h * 60 + m
    ensures LocalMinutes(date, time) == Some(n)
  {
    BrDatePartsOfValid(date);
    TimePartsOfValid(time);
    LocalMinutesOfParts(date, time, d, h, m);
    InstantOfDate(d, h, m, n);
  }

  lemma LocalMinutesOfParts(date: string, time: string, d: Date, h: int, m: int)
    requires BrDateToParts(date) == (Some(d.day), Some(d.month), Some(d.year))
    requires TimeToParts(time) == (Some(h), Some(m))
    ensures LocalMinutes(date, time) == InstantOf(Some(d.day), Some(d.month), Some(d.year), Some(h), Some(m))
  {
  }

  /** The instant of a date in a year from 100 on and a time of day. */
  lemma InstantOfDate(d: Date, h: int, m: int, n: int)
    requires d.year >= 100 && n == DayNumber(d) * 1440 + h * 60 + m
    ensures InstantOf(Some(d.day), Some(d.month), Some(d.year), Some(h), Some(m)) == Some(n)
  {
  }

  /** Strictly earlier in (year, month, day, hour, minute) order. */
  predicate DateTimeBefore(a: Date, ah: int, am: int, b: Date, bh: int, bm: int) {
    DateBefore(a, b) || (a == b && (ah < bh || (ah == bh && am < bm)))
  }

  /** On valid dates and times, compareBrDateTime is the lexicographic order
      of (year, month, day, hour, minute). */
  lemma CompareValid(sd: string, st: string, ed: string, et: string)
    requires IsValidBrDate(sd) && IsValidTimeHHmm(st)
    requires IsValidBrDate(ed) && IsValidTimeHHmm(et)
    ensures var a, b := BrDateFields(sd), BrDateFields(ed);
            var ah, am := DigitsValue(st[..2]) as int, DigitsValue(st[3..]) as int;
            var bh, bm := DigitsValue(et[..2]) as int, DigitsValue(et[3..]) as int;
            && (CompareBrDateTime(sd, st, ed, et) == -1 <==> DateTimeBefore(a, ah, am, b, bh, bm))
            && (CompareBrDateTime(sd, st, ed, et) == 0 <==> a == b && ah == bh && am == bm)
            && (CompareBrDateTime(sd, st, ed, et) == 1 <==> DateTimeBefore(b, bh, bm, a, ah, am))
  {
    ValidBrDateFields(sd);
    ValidBrDateFields(ed);
    CompareFields(sd, st, ed, et);
  }

  /** The same, for DD/MM/YYYY strings naming real dates in years from 100 on. */
  lemma CompareFields(sd: string, st: string, ed: string, et: string)
    requires BrDateShape(sd) && IsRealDate(BrDateFields(sd)) && BrDateFields(sd).year >= 100
    requires BrDateShape(ed) && IsRealDate(BrDateFields(ed)) && BrDateFields(ed).year >= 100
    requires IsValidTimeHHmm(st) && IsValidTimeHHmm(et)
    ensures var a, b := BrDateFields(sd), BrDateFields(ed);
            var ah, am := DigitsValue(st[..2]) as int, DigitsValue(st[3..]) as int;
            var bh, bm := DigitsValue(et[..2]) as int, DigitsValue(et[3..]) as int;
            && (CompareBrDateTime(sd, st, ed, et) == -1 <==> DateTimeBefore(a, ah, am, b, bh, bm))
            && (CompareBrDateTime(sd, st, ed, et) == 0 <==> a == b && ah == bh && am == bm)
            && (CompareBrDateTime(sd, st, ed, et) == 1 <==> DateTimeBefore(b, bh, bm, a, ah, am))
  {
    var a, b := BrDateFields(sd), BrDateFields(ed);
    var ah, am := DigitsValue(st[..2]) as int, DigitsValue(st[3..]) as int;
    var bh, bm := DigitsValue(et[..2]) as int, DigitsValue(et[3..]) as int;
    var x, y := DayNumber(a) * 1440 + ah * 60 + am, DayNumber(b) * 1440 + bh * 60 + bm;
    assert 0 <= ah <= 23 && 0 <= am <= 59 && 0 <= bh <= 23 && 0 <= bm <= 59;
    InstantOrder(a, ah, am, b, bh, bm, x, y);
    LocalMinutesOfValid(sd, st, a, ah, am, x);
    LocalMinutesOfValid(ed, et, b, bh, bm, y);
    CompareOfMinutes(sd, st, ed, et, x, y);
  }

  /** What isValidBrDate guarantees about the fields of the string. */
  lemma ValidBrDateFields(s: string)
    requires IsValidBrDate(s)
    ensures BrDateShape(s) && IsRealDate(BrDateFields(s)) && BrDateFields(s).year >= 100
  {
    ParseBrDateValid(s);
  }

  /** compareBrDateTime of two valid instants is their three-way comparison. */
  lemma CompareOfMinutes(sd: string, st: string, ed: string, et: string, x: int, y: int)
    requires LocalMinutes(sd, st) == Some(x) && LocalMinutes(ed, et) == Some(y)
    ensures CompareBrDateTime(sd, st, ed, et) == if x == y then 0 else if x < y then -1 else 1
  {
  }

  /** Local minutes of real dates and times of day follow the
      lexicographic order of (date, hour, minute). */
  lemma InstantOrder(a: Date, ah: int, am: int, b: Date, bh: int, bm: int, x: int, y: int)
    requires IsRealDate(a) && 0 <= ah <= 23 && 0 <= am <= 59
    requires IsRealDate(b) && 0 <= bh <= 23 && 0 <= bm <= 59
    requires x == DayNumber(a) * 1440 + ah * 60 + am && y == DayNumber(b) * 1440 + bh * 60 + bm
    ensures x < y <==> DateTimeBefore(a, ah, am, b, bh, bm)
    ensures x == y <==> a == b && ah == bh && am == bm
    ensures y < x <==> DateTimeBefore(b, bh, bm, a, ah, am)
  {
    DayNumberOrder(a, b);
  }

  /** A number written by String reads back as itself, when String writes
      it exactly: the text holds neither white space nor a ','. */
  lemma ParseDecimalNumberToString(x: real)
    requires HasExactString(x)
    ensures ParseDecimalInput(NumberToString(x)) == x
  {
    NumberToStringChars(x);
    NormalizeNumeral(NumberToString(x));
    ParseFloatNumberToString(x);
  }

  /** Text made of digits, '-' and '.' is left as it is by the
      normalisation: no white space to drop and no ',' to rewrite. */
  lemma NormalizeNumeral(s: string)
    requires forall k :: 0 <= k < |s| ==> NumeralChar(s[k])
    ensures NormalizeDecimal(s) == s
  {
    forall k | 0 <= k < |s|
      ensures !IsSpace(s[k]) && s[k] != ','
    {
      assert NumeralChar(s[k]);
    }
    NormalizeWithoutSpaces(s);
  }
}
