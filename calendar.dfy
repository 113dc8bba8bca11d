/** The proleptic Gregorian calendar as JavaScript's `Date` sees it: real
    dates, ECMAScript's day numbering (`DayFromYear`, `MakeDay`, with month
    overflow rolling into the year), and the constructor's mapping of years
    0..99 to 1900..1999. Local time is taken to be free of daylight-saving
    shifts, so a local midnight is a whole day number. */
module Calendar {

  /** A calendar date as the application holds it: day, month 1..12, year. */
  datatype Date = Date(day: int, month: int, year: int)

  predicate IsLeapYear(y: int) {
    y % 4 == 0 && (y % 100 != 0 || y % 400 == 0)
  }

  function DaysInYear(y: int): (n: int)
    ensures n == 365 || n == 366
  {
    if IsLeapYear(y) then 366 else 365
  }

  function DaysInMonth(m: int, y: int): (n: int)
    requires 1 <= m <= 12
    ensures 28 <= n <= 31
    ensures n == 29 <==> m == 2 && IsLeapYear(y)
  {
    if m == 2 then (if IsLeapYear(y) then 29 else 28)
    else if m == 4 || m == 6 || m == 9 || m == 11 then 30
    else 31
  }

  /** A day that exists: a month 1..12 and a day within that month. */
  predicate IsRealDate(d: Date) {
    1 <= d.month <= 12 && 1 <= d.day <= DaysInMonth(d.month, d.year)
  }

  /** Strictly earlier in (year, month, day) order. */
  predicate DateBefore(a: Date, b: Date) {
    a.year < b.year
    || (a.year == b.year && (a.month < b.month || (a.month == b.month && a.day < b.day)))
  }

  /** Days of year `y` before the first of month `m`. */
  function DaysBeforeMonth(m: int, y: int): (n: int)
    requires 1 <= m <= 12
    ensures 0 <= n && n + DaysInMonth(m, y) <= DaysInYear(y)
    ensures m == 12 ==> n + DaysInMonth(m, y) == DaysInYear(y)
  {
    var common :=
      if m == 1 then 0 else if m == 2 then 31 else if m == 3 then 59
      else if m == 4 then 90 else if m == 5 then 120 else if m == 6 then 151
      else if m == 7 then 181 else if m == 8 then 212 else if m == 9 then 243
      else if m == 10 then 273 else if m == 11 then 304 else 334;
    if m > 2 && IsLeapYear(y) then common + 1 else common
  }

  /** ECMAScript's DayFromYear: the day number of 1 January of year `y`,
      counted from 1 January 1970. Dafny's `/` by a positive divisor is
      the floor division the standard uses. */
  function DayFromYear(y: int): int {
    365 * (y - 1970) + (y - 1969) / 4 - (y - 1901) / 100 + (y - 1601) / 400
  }

  /** ECMAScript's MakeDay(year, month, date) with a zero-based month that
      may lie outside 0..11: whole years are carried into the year first. */
  function MakeDay(year: int, month0: int, date: int): int {
    var ym := year + month0 / 12;
    var mn := month0 % 12;
    DayFromYear(ym) + DaysBeforeMonth(mn + 1, ym) + date - 1
  }

  /** The `Date(year, month, ...)` constructor reads a year 0..99 as 19xx. */
  function JsFullYear(y: int): (r: int)
    ensures 0 <= y <= 99 ==> r == 1900 + y
    ensures (y < 0 || y > 99) ==> r == y
  {
    if 0 <= y <= 99 then 1900 + y else y
  }

  /** The day number of a date, as MakeDay computes it. */
  function DayNumber(d: Date): int {
    MakeDay(d.year, d.month - 1, d.day)
  }

  /** One more floor-division step adds one exactly at a multiple. */
  lemma FloorDivStep(k: int, q: int)
    requires q == 4 || q == 100 || q == 400
    ensures (k + 1) / q == k / q + (if (k + 1) % q == 0 then 1 else 0)
  {
    if q == 4 {
      assert (k + 1) / 4 == k / 4 + (if (k + 1) % 4 == 0 then 1 else 0);
    } else if q == 100 {
      assert (k + 1) / 100 == k / 100 + (if (k + 1) % 100 == 0 then 1 else 0);
    } else {
      assert (k + 1) / 400 == k / 400 + (if (k + 1) % 400 == 0 then 1 else 0);
    }
  }

  /** Shifting a year by 1968 keeps its divisibility by 4. */
  lemma Shift4(y: int)
    ensures (y - 1968) % 4 == 0 <==> y % 4 == 0
  {
  }

  /** Shifting a year by 1900 keeps its divisibility by 100. */
  lemma Shift100(y: int)
    ensures (y - 1900) % 100 == 0 <==> y % 100 == 0
  {
  }

  /** Shifting a year by 1600 keeps its divisibility by 400. */
  lemma Shift400(y: int)
    ensures (y - 1600) % 400 == 0 <==> y % 400 == 0
  {
  }

  /** A multiple of 400 is a multiple of 100. */
  lemma Multiple400(y: int)
    requires y % 400 == 0
    ensures y % 100 == 0
  {
    var k := y / 400;
    assert y == 100 * (4 * k);
  }

  /** A multiple of 100 is a multiple of 4. */
  lemma Multiple100(y: int)
    requires y % 100 == 0
    ensures y % 4 == 0
  {
    var k := y / 100;
    assert y == 4 * (25 * k);
  }

  /** Successive years start DaysInYear apart. */
  lemma DayFromYearStep(y: int)
    ensures DayFromYear(y + 1) == DayFromYear(y) + DaysInYear(y)
  {
    FloorDivStep(y - 1969, 4);
    FloorDivStep(y - 1901, 100);
    FloorDivStep(y - 1601, 400);
    Shift4(y);
    Shift100(y);
    Shift400(y);
    if y % 400 == 0 {
      Multiple400(y);
    }
    if y % 100 == 0 {
      Multiple100(y);
    }
    var d4 := if (y - 1968) % 4 == 0 then 1 else 0;
    var d100 := if (y - 1900) % 100 == 0 then 1 else 0;
    var d400 := if (y - 1600) % 400 == 0 then 1 else 0;
    assert DayFromYear(y + 1) == DayFromYear(y) + 365 + d4 - d100 + d400;
    assert DaysInYear(y) == 365 + d4 - d100 + d400;
  }

  /** Every day of an earlier year comes before the first day of a later one. */
  lemma {:induction false} DayFromYearMonotone(y1: int, y2: int)
    requires y1 < y2
    ensures DayFromYear(y1) + DaysInYear(y1) <= DayFromYear(y2)
    decreases y2 - y1
  {
    DayFromYearStep(y1);
    if y1 + 1 < y2 {
      DayFromYearMonotone(y1 + 1, y2);
    }
  }

  /** Each month starts where the previous one ends. */
  lemma DaysBeforeNextMonth(m: int, y: int)
    requires 1 <= m < 12
    ensures DaysBeforeMonth(m + 1, y) == DaysBeforeMonth(m, y) + DaysInMonth(m, y)
  {
  }

  /** Within a year, days come in (month, day) order. */
  lemma {:induction false} DaysBeforeMonthMonotone(m1: int, m2: int, y: int)
    requires 1 <= m1 < m2 <= 12
    ensures DaysBeforeMonth(m1, y) + DaysInMonth(m1, y) <= DaysBeforeMonth(m2, y)
    decreases m2 - m1
  {
    DaysBeforeNextMonth(m1, y);
    if m1 + 1 < m2 {
      DaysBeforeMonthMonotone(m1 + 1, m2, y);
    }
  }

  /** The day number of a real date, and where it falls within its year. */
  lemma DayNumberOfRealDate(d: Date)
    requires IsRealDate(d)
    ensures DayNumber(d) == DayFromYear(d.year) + DaysBeforeMonth(d.month, d.year) + d.day - 1
    ensures DayFromYear(d.year) <= DayNumber(d) < DayFromYear(d.year) + DaysInYear(d.year)
  {
    DayNumberInYear(d);
    var before := DaysBeforeMonth(d.month, d.year);
    assert 0 <= before && before + DaysInMonth(d.month, d.year) <= DaysInYear(d.year);
  }

  /** A date's day number counts the days before its month and day. */
  lemma DayNumberInYear(d: Date)
    requires 1 <= d.month <= 12
    ensures DayNumber(d) == DayFromYear(d.year) + DaysBeforeMonth(d.month, d.year) + d.day - 1
  {
    var m0 := d.month - 1;
    assert DayNumber(d) == MakeDay(d.year, m0, d.day);
    MakeDayOfMonth(d.year, m0, d.day);
  }

  /** On real dates, day numbers follow calendar order, in both directions. */
  lemma DayNumberOrder(a: Date, b: Date)
    requires IsRealDate(a) && IsRealDate(b)
    ensures DayNumber(a) < DayNumber(b) <==> DateBefore(a, b)
    ensures DayNumber(a) == DayNumber(b) <==> a == b
  {
    if DateBefore(a, b) {
      DayNumberBefore(a, b);
    } else if DateBefore(b, a) {
      DayNumberBefore(b, a);
    } else {
      assert a.year == b.year && a.month == b.month && a.day == b.day;
    }
  }

  /** An earlier real date has a smaller day number. */
  lemma DayNumberBefore(a: Date, b: Date)
    requires IsRealDate(a) && IsRealDate(b) && DateBefore(a, b)
    ensures DayNumber(a) < DayNumber(b)
  {
    DayNumberOfRealDate(a);
    DayNumberOfRealDate(b);
    if a.year < b.year {
      DayFromYearMonotone(a.year, b.year);
    } else if a.month < b.month {
      DaysBeforeMonthMonotone(a.month, b.month, a.year);
    }
  }

  /** What `new Date(year, month - 1, day)` stands for: the real date whose
      day number is MakeDay's, once the constructor has adjusted the year.
      Its getters (getFullYear, getMonth + 1, getDate) read back `r`. */
  predicate Denotes(r: Date, year: int, month: int, day: int) {
    IsRealDate(r) && DayNumber(r) == MakeDay(JsFullYear(year), month - 1, day)
  }

  /** MakeDay of a month 1..12 (zero-based `m - 1`) stays in its year. */
  lemma MakeDayOfMonth(y: int, m0: int, day: int)
    requires 0 <= m0 <= 11
    ensures MakeDay(y, m0, day) == DayFromYear(y) + DaysBeforeMonth(m0 + 1, y) + day - 1
  {
    assert m0 / 12 == 0 && m0 % 12 == m0;
  }

  /** A date's getters give back the constructor's arguments exactly when
      those arguments name a real date in a year outside 0..99. */
  lemma DenotesItself(d: Date)
    requires d.year >= 0
    ensures Denotes(d, d.year, d.month, d.day) <==> IsRealDate(d) && d.year >= 100
  {
    if IsRealDate(d) {
      DayNumberOfRealDate(d);
      if d.year <= 99 {
        var shifted := d.year + 1900;
        assert JsFullYear(d.year) == shifted;
        DayFromYearMonotone(d.year, shifted);
        var m0 := d.month - 1;
        MakeDayOfMonth(shifted, m0, d.day);
        assert MakeDay(shifted, m0, d.day) > DayNumber(d);
      } else {
        assert JsFullYear(d.year) == d.year;
      }
    }
  }
}
