/**
  A proleptic Gregorian calendar on day numbers; day 0 is 1 January of year 1.

  The year of a day is searched from a first guess, its month by adding up the
  lengths of the months before it. Instants are Unix seconds.
 */
module Calendar {

  const SECONDS_PER_DAY := 86400

  predicate IsLeap(y: int) {
    y % 4 == 0 && (y % 100 != 0 || y % 400 == 0)
  }

  function DaysBeforeYear(y: int): int {
    365 * (y - 1) + (y - 1) / 4 - (y - 1) / 100 + (y - 1) / 400
  }

  lemma Every4(y: int)
    ensures y / 4 - (y - 1) / 4 == if y % 4 == 0 then 1 else 0
  {
  }

  lemma Every100(y: int)
    ensures y / 100 - (y - 1) / 100 == if y % 100 == 0 then 1 else 0
  {
  }

  lemma Every400(y: int)
    ensures y / 400 - (y - 1) / 400 == if y % 400 == 0 then 1 else 0
  {
  }

  lemma Centuries(y: int)
    ensures y % 100 == 0 ==> y % 4 == 0
    ensures y % 400 == 0 ==> y % 100 == 0
  {
    if y % 100 == 0 {
      assert y == 4 * (25 * (y / 100));
      FourDivides(25 * (y / 100));
    }
    if y % 400 == 0 {
      assert y == 100 * (4 * (y / 400));
      HundredDivides(4 * (y / 400));
    }
  }

  lemma FourDivides(k: int)
    ensures (4 * k) % 4 == 0
  {
  }

  lemma HundredDivides(k: int)
    ensures (100 * k) % 100 == 0
  {
  }

  lemma YearLength(y: int)
    ensures DaysBeforeYear(y + 1) - DaysBeforeYear(y) == if IsLeap(y) then 366 else 365
  {
    Every4(y);
    Every100(y);
    Every400(y);
    Centuries(y);
  }

  /** The year of day d, searched from year y in whichever direction is needed. */
  function YearFrom(y: int, d: int): (r: int)
    ensures DaysBeforeYear(r) <= d < DaysBeforeYear(r + 1)
    decreases if d < DaysBeforeYear(y) then DaysBeforeYear(y) - d
              else if DaysBeforeYear(y + 1) <= d then d - DaysBeforeYear(y) else 0
  {
    YearLength(y);
    YearLength(y - 1);
    if d < DaysBeforeYear(y) then YearFrom(y - 1, d)
    else if DaysBeforeYear(y + 1) <= d then YearFrom(y + 1, d)
    else y
  }

  function YearOf(d: int): (y: int)
    ensures DaysBeforeYear(y) <= d < DaysBeforeYear(y + 1)
  {
    YearFrom(1970, d)
  }

  /** 1 January of the year of d. */
  function YearStart(d: int): (s: int)
    ensures s <= d
  {
    DaysBeforeYear(YearOf(d))
  }

  lemma {:induction false} DaysBeforeYearMonotone(y: int, z: int)
    requires y <= z
    ensures DaysBeforeYear(y) <= DaysBeforeYear(z)
    decreases z - y
  {
    if y == z {
    } else {
      YearLength(y);
      DaysBeforeYearMonotone(y + 1, z);
    }
  }

  /** Two days lie in one year exactly when they have the same 1 January. */
  lemma SameYear(a: int, b: int)
    requires YearStart(b) <= a <= b
    ensures YearOf(a) == YearOf(b)
  {
    hide DaysBeforeYear, YearFrom;
    if YearOf(a) < YearOf(b) {
      DaysBeforeYearMonotone(YearOf(a) + 1, YearOf(b));
    } else if YearOf(b) < YearOf(a) {
      DaysBeforeYearMonotone(YearOf(b) + 1, YearOf(a));
    }
  }

  function DayOf(seconds: int): int {
    seconds / SECONDS_PER_DAY
  }

  function DayStart(d: int): int {
    d * SECONDS_PER_DAY
  }

  /** 0 for January to 11 for December, from the day of the year. */
  function MonthIndex(dayOfYear: int, leap: bool): int {
    var l := if leap then 1 else 0;
    if dayOfYear < 31 then 0 else if dayOfYear < 59 + l then 1 else if dayOfYear < 90 + l then 2
    else if dayOfYear < 120 + l then 3 else if dayOfYear < 151 + l then 4 else if dayOfYear < 181 + l then 5
    else if dayOfYear < 212 + l then 6 else if dayOfYear < 243 + l then 7 else if dayOfYear < 273 + l then 8
    else if dayOfYear < 304 + l then 9 else if dayOfYear < 334 + l then 10 else 11
  }

  /** The calendar month of an instant, numbered so that consecutive months are consecutive integers. */
  function MonthOf(seconds: int): int {
    var d := DayOf(seconds);
    var y := YearOf(d);
    12 * y + MonthIndex(d - DaysBeforeYear(y), IsLeap(y))
  }

  // ---------------------------------------------------------------- anchors

  /** Known dates: 1 January of 1970, 2000 and 2026, two leap years and two years that are none. */
  lemma KnownDates()
    ensures DaysBeforeYear(1970) == 719162 && DaysBeforeYear(2000) == 730119 && DaysBeforeYear(2026) == 739616
    ensures IsLeap(2000) && IsLeap(2024) && !IsLeap(1900) && !IsLeap(2026)
  {
  }

  function MonthLength(m: nat, leap: bool): nat {
    if m == 1 then (if leap then 29 else 28) else if m == 3 || m == 5 || m == 8 || m == 10 then 30 else 31
  }

  function DaysBeforeMonth(m: nat, leap: bool): nat {
    if m == 0 then 0 else DaysBeforeMonth(m - 1, leap) + MonthLength(m - 1, leap)
  }

  /** The months have the lengths they have, and together the year's. */
  lemma MonthIndexExact(dayOfYear: nat, leap: bool, m: nat)
    requires m < 12 && dayOfYear < (if leap then 366 else 365)
    ensures MonthIndex(dayOfYear, leap) == m <==> DaysBeforeMonth(m, leap) <= dayOfYear < DaysBeforeMonth(m + 1, leap)
    ensures DaysBeforeMonth(12, leap) == if leap then 366 else 365
  {
    FirstMonths(leap);
    LastMonths(leap);
  }

  lemma FirstMonths(leap: bool)
    ensures var l := if leap then 1 else 0;
            && DaysBeforeMonth(0, leap) == 0 && DaysBeforeMonth(1, leap) == 31 && DaysBeforeMonth(2, leap) == 59 + l
            && DaysBeforeMonth(3, leap) == 90 + l && DaysBeforeMonth(4, leap) == 120 + l && DaysBeforeMonth(5, leap) == 151 + l
            && DaysBeforeMonth(6, leap) == 181 + l
  {
    assert DaysBeforeMonth(2, leap) == DaysBeforeMonth(1, leap) + MonthLength(1, leap);
    assert DaysBeforeMonth(4, leap) == DaysBeforeMonth(3, leap) + MonthLength(3, leap);
  }

  lemma LastMonths(leap: bool)
    ensures var l := if leap then 1 else 0;
            && DaysBeforeMonth(7, leap) == 212 + l && DaysBeforeMonth(8, leap) == 243 + l && DaysBeforeMonth(9, leap) == 273 + l
            && DaysBeforeMonth(10, leap) == 304 + l && DaysBeforeMonth(11, leap) == 334 + l && DaysBeforeMonth(12, leap) == 365 + l
  {
    FirstMonths(leap);
    assert DaysBeforeMonth(7, leap) == DaysBeforeMonth(6, leap) + MonthLength(6, leap);
    assert DaysBeforeMonth(8, leap) == DaysBeforeMonth(7, leap) + MonthLength(7, leap);
    assert DaysBeforeMonth(10, leap) == DaysBeforeMonth(9, leap) + MonthLength(9, leap);
  }

  /** Instants of one year and month of the calendar, and only those, share a month number; the next month has the next number. */
  lemma MonthOfExact(seconds: int, year: int, m: nat)
    requires m < 12
    ensures MonthOf(seconds) == 12 * year + m <==>
              DaysBeforeYear(year) + DaysBeforeMonth(m, IsLeap(year)) <= DayOf(seconds) < DaysBeforeYear(year) + DaysBeforeMonth(m + 1, IsLeap(year))
  {
    hide DaysBeforeYear, IsLeap, YearOf, MonthIndex, DaysBeforeMonth, DayOf;
    var d := DayOf(seconds);
    var y := YearOf(d);
    YearLength(y);
    YearLength(year);
    MonthIndexRange(d - DaysBeforeYear(y), IsLeap(y));
    MonthWithinYear(m, IsLeap(year));
    if y == year {
      MonthIndexExact(d - DaysBeforeYear(y), IsLeap(y), m);
    } else if y < year {
      DaysBeforeYearMonotone(y + 1, year);
    } else {
      DaysBeforeYearMonotone(year + 1, y);
    }
  }

  lemma MonthIndexRange(dayOfYear: int, leap: bool)
    ensures 0 <= MonthIndex(dayOfYear, leap) < 12
  {
  }

  lemma MonthWithinYear(m: nat, leap: bool)
    requires m < 12
    ensures 0 <= DaysBeforeMonth(m, leap) && DaysBeforeMonth(m + 1, leap) <= if leap then 366 else 365
  {
    FirstMonths(leap);
    LastMonths(leap);
  }
}
