/**
  Day numbers of the proleptic Gregorian calendar, as ECMAScript's Date
  objects compute them (section 21.4.1 of ECMA-262): a day number counts
  days from 1970-01-01, and a civil date is a year, a month (1 to 12, as
  written in ISO 8601 strings) and a day of the month.
 */
module Calendar {

  datatype Civil = Civil(year: int, month: int, day: int)

  predicate IsLeapYear(y: int) {
    y % 4 == 0 && (y % 100 != 0 || y % 400 == 0)
  }

  function DaysInYear(y: int): (n: int)
    ensures n == 365 || n == 366
    ensures n == 366 <==> IsLeapYear(y)
  {
    if IsLeapYear(y) then 366 else 365
  }

  function DaysInMonth(y: int, m: int): (n: int)
    requires 1 <= m <= 12
    ensures 28 <= n <= 31
    ensures m == 2 ==> (n == 29 <==> IsLeapYear(y))
  {
    if m == 2 then (if IsLeapYear(y) then 29 else 28)
    else if m == 4 || m == 6 || m == 9 || m == 11 then 30
    else 31
  }

  /** The day of the year on which month m begins (0 for January). */
  function DaysBeforeMonth(y: int, m: int): (n: int)
    requires 1 <= m <= 12
    ensures m == 1 ==> n == 0
    ensures 0 <= n && n + DaysInMonth(y, m) <= DaysInYear(y)
  {
    var leap := if IsLeapYear(y) then 1 else 0;
    match m
    case 1 => 0
    case 2 => 31
    case 3 => 59 + leap
    case 4 => 90 + leap
    case 5 => 120 + leap
    case 6 => 151 + leap
    case 7 => 181 + leap
    case 8 => 212 + leap
    case 9 => 243 + leap
    case 10 => 273 + leap
    case 11 => 304 + leap
    case 12 => 334 + leap
  }

  predicate ValidCivil(c: Civil) {
    1 <= c.month <= 12 && 1 <= c.day <= DaysInMonth(c.year, c.month)
  }

  /** The day number of January 1 of year y (DayFromYear of ECMA-262). */
  function DayFromYear(y: int): int {
    365 * (y - 1970) + (y - 1969) / 4 - (y - 1901) / 100 + (y - 1601) / 400
  }

  /** Consecutive years are DaysInYear apart. */
  lemma DayFromYearStep(y: int)
    ensures DayFromYear(y + 1) == DayFromYear(y) + DaysInYear(y)
  {
    QuotientStep(y - 1969, 4);
    QuotientStep(y - 1901, 100);
    QuotientStep(y - 1601, 400);
    assert (y - 1968) % 4 == 0 <==> y % 4 == 0;
    assert (y - 1900) % 100 == 0 <==> y % 100 == 0;
    assert (y - 1600) % 400 == 0 <==> y % 400 == 0;
  }

  /** Stepping a by one raises a / k by one exactly at multiples of k. */
  lemma QuotientStep(a: int, k: int)
    requires k == 4 || k == 100 || k == 400
    ensures (a + 1) / k - a / k == if (a + 1) % k == 0 then 1 else 0
  {
    if k == 4 {
      assert (a + 1) / 4 - a / 4 == if (a + 1) % 4 == 0 then 1 else 0;
    } else if k == 100 {
      assert (a + 1) / 100 - a / 100 == if (a + 1) % 100 == 0 then 1 else 0;
    } else {
      assert (a + 1) / 400 - a / 400 == if (a + 1) % 400 == 0 then 1 else 0;
    }
  }

  /** DayFromYear is strictly increasing. */
  lemma {:induction false} DayFromYearMonotone(y1: int, y2: int)
    requires y1 < y2
    ensures DayFromYear(y1) + DaysInYear(y1) <= DayFromYear(y2)
    decreases y2 - y1
  {
    DayFromYearStep(y1);
    if y1 + 1 < y2 {
      DayFromYearMonotone(y1 + 1, y2);
    }
  }

  function YearUp(t: int, y: int): (r: int)
    requires DayFromYear(y) <= t
    ensures DayFromYear(r) <= t < DayFromYear(r + 1)
    decreases t - DayFromYear(y)
  {
    DayFromYearStep(y);
    if t < DayFromYear(y + 1) then y else YearUp(t, y + 1)
  }

  function YearDown(t: int, y: int): (r: int)
    requires t < DayFromYear(y + 1)
    ensures DayFromYear(r) <= t < DayFromYear(r + 1)
    decreases DayFromYear(y + 1) - t
  {
    DayFromYearStep(y);
    if DayFromYear(y) <= t then y else YearDown(t, y - 1)
  }

  /** The year in which day t falls: the largest y with DayFromYear(y) <= t
      (YearFromTime of ECMA-262). The search starts from an estimate. */
  function YearFromDay(t: int): (y: int)
    ensures DayFromYear(y) <= t < DayFromYear(y + 1)
  {
    var guess := 1970 + t / 366;
    if DayFromYear(guess) <= t then YearUp(t, guess) else YearDown(t, guess - 1)
  }

  /** The year of day t is the only year whose days contain t. */
  lemma YearFromDayUnique(t: int, y: int)
    requires DayFromYear(y) <= t < DayFromYear(y + 1)
    ensures YearFromDay(t) == y
  {
    var r := YearFromDay(t);
    if r < y {
      DayFromYearMonotone(r, y);
      DayFromYearStep(r);
    } else if y < r {
      DayFromYearMonotone(y, r);
      DayFromYearStep(y);
    }
  }

  /** The month in which day-of-year dy of year y falls (MonthFromTime). */
  function MonthOf(y: int, dy: int): (m: int)
    requires 0 <= dy < DaysInYear(y)
    ensures 1 <= m <= 12
    ensures DaysBeforeMonth(y, m) <= dy < DaysBeforeMonth(y, m) + DaysInMonth(y, m)
  {
    if dy < DaysBeforeMonth(y, 2) then 1
    else if dy < DaysBeforeMonth(y, 3) then 2
    else if dy < DaysBeforeMonth(y, 4) then 3
    else if dy < DaysBeforeMonth(y, 5) then 4
    else if dy < DaysBeforeMonth(y, 6) then 5
    else if dy < DaysBeforeMonth(y, 7) then 6
    else if dy < DaysBeforeMonth(y, 8) then 7
    else if dy < DaysBeforeMonth(y, 9) then 8
    else if dy < DaysBeforeMonth(y, 10) then 9
    else if dy < DaysBeforeMonth(y, 11) then 10
    else if dy < DaysBeforeMonth(y, 12) then 11
    else 12
  }

  /** The day number of a civil date (MakeDay of ECMA-262 for a valid date). */
  function DayNumber(c: Civil): (t: int)
    requires ValidCivil(c)
    ensures DayFromYear(c.year) <= t < DayFromYear(c.year + 1)
  {
    DayFromYearStep(c.year);
    DayFromYear(c.year) + DaysBeforeMonth(c.year, c.month) + c.day - 1
  }

  /** The civil date of day number t (YearFromTime, MonthFromTime and
      DateFromTime of ECMA-262). */
  function CivilFromDay(t: int): (c: Civil)
    ensures ValidCivil(c) && DayNumber(c) == t
  {
    var y := YearFromDay(t);
    DayFromYearStep(y);
    var dy := t - DayFromYear(y);
    var m := MonthOf(y, dy);
    Civil(y, m, dy - DaysBeforeMonth(y, m) + 1)
  }

  /** Month search finds the month whose days contain dy. */
  lemma MonthOfUnique(y: int, m: int, dy: int)
    requires 1 <= m <= 12
    requires DaysBeforeMonth(y, m) <= dy < DaysBeforeMonth(y, m) + DaysInMonth(y, m)
    ensures 0 <= dy < DaysInYear(y) && MonthOf(y, dy) == m
  {
    var r := MonthOf(y, dy);
    if r < m {
      DaysBeforeMonthMonotone(y, r + 1, m);
    } else if m < r {
      DaysBeforeMonthMonotone(y, m + 1, r);
    }
  }

  lemma DaysBeforeMonthMonotone(y: int, m1: int, m2: int)
    requires 1 <= m1 <= m2 <= 12
    ensures DaysBeforeMonth(y, m1) <= DaysBeforeMonth(y, m2)
  {
  }

  /** Converting a valid civil date to its day number and back gives it back. */
  lemma CivilDayRoundTrip(c: Civil)
    requires ValidCivil(c)
    ensures CivilFromDay(DayNumber(c)) == c
  {
    CivilFromDayIs(DayNumber(c), c.year, c.month);
  }

  /** The civil date of a day, given the year and the month it falls in. */
  lemma CivilFromDayIs(t: int, y: int, m: int)
    requires DayFromYear(y) <= t < DayFromYear(y + 1) && 1 <= m <= 12
    requires DaysBeforeMonth(y, m) <= t - DayFromYear(y) < DaysBeforeMonth(y, m) + DaysInMonth(y, m)
    ensures CivilFromDay(t) == Civil(y, m, t - DayFromYear(y) - DaysBeforeMonth(y, m) + 1)
  {
    YearFromDayUnique(t, y);
    MonthOfUnique(y, m, t - DayFromYear(y));
  }

  /** Civil dates are ordered (year, month, day) lexicographically exactly as
      their day numbers are ordered. */
  lemma DayNumberOrder(a: Civil, b: Civil)
    requires ValidCivil(a) && ValidCivil(b)
    ensures DayNumber(a) < DayNumber(b) <==> CivilBefore(a, b)
    ensures DayNumber(a) == DayNumber(b) <==> a == b
  {
    if CivilBefore(a, b) {
      EarlierCivil(a, b);
    } else if CivilBefore(b, a) {
      EarlierCivil(b, a);
    } else {
      assert a == b;
    }
  }

  /** An earlier civil date has a smaller day number. */
  lemma EarlierCivil(a: Civil, b: Civil)
    requires ValidCivil(a) && ValidCivil(b) && CivilBefore(a, b)
    ensures DayNumber(a) < DayNumber(b)
  {
    if a.year < b.year {
      DayFromYearMonotone(a.year, b.year);
    } else if a.month < b.month {
      DaysBeforeMonthMonotone(a.year, a.month + 1, b.month);
    }
  }

  predicate CivilBefore(a: Civil, b: Civil) {
    a.year < b.year
    || (a.year == b.year && a.month < b.month)
    || (a.year == b.year && a.month == b.month && a.day < b.day)
  }
}
