/** The proleptic Gregorian calendar that JavaScript's Date applies to a
    day number (days since 1970-01-01). Days are numbered without time
    zones or daylight-saving shifts. */
module Calendar {

  const EpochYear := 1970

  predicate IsLeapYear(y: int)
  {
    (y % 4 == 0 && y % 100 != 0) || y % 400 == 0
  }

  function YearLength(y: int): int
  {
    if IsLeapYear(y) then 366 else 365
  }

  function MonthLength(y: int, m: int): (n: int)
    requires 1 <= m <= 12
    ensures 28 <= n <= 31
  {
    if m == 2 then (if IsLeapYear(y) then 29 else 28)
    else if m == 4 || m == 6 || m == 9 || m == 11 then 30
    else 31
  }

  /** Days in the months of year y before month m. */
  function DaysBeforeMonth(y: int, m: int): int
    requires 1 <= m <= 12
  {
    var common := [0, 31, 59, 90, 120, 151, 181, 212, 243, 273, 304, 334][m - 1];
    if IsLeapYear(y) && m > 2 then common + 1 else common
  }

  /** Day number of the first of January of year y. */
  function DaysBeforeYear(y: int): int
    decreases if y >= EpochYear then y - EpochYear else EpochYear - y
  {
    if y == EpochYear then 0
    else if y > EpochYear then DaysBeforeYear(y - 1) + YearLength(y - 1)
    else DaysBeforeYear(y + 1) - YearLength(y)
  }

  lemma DaysBeforeYearStep(y: int)
    ensures DaysBeforeYear(y + 1) == DaysBeforeYear(y) + YearLength(y)
  {
  }

  datatype YearDay = YearDay(year: int, dayOfYear: int)

  /** Walks from year y, z days into it (z may be negative or past the
      year's end), to the year holding that day and the day's offset in it. */
  function YearFrom(z: int, y: int): (r: YearDay)
    ensures DaysBeforeYear(r.year) + r.dayOfYear == DaysBeforeYear(y) + z
    ensures 0 <= r.dayOfYear < YearLength(r.year)
    decreases if z < 0 then 1 else 0, if z < 0 then -z else z
  {
    if z < 0 then
      DaysBeforeYearStep(y - 1);
      YearFrom(z + YearLength(y - 1), y - 1)
    else if z >= YearLength(y) then
      DaysBeforeYearStep(y);
      YearFrom(z - YearLength(y), y + 1)
    else
      YearDay(y, z)
  }

  datatype MonthDay = MonthDay(month: int, day: int)

  /** Walks the months of year y from month m to the month holding offset
      doy (counted from the first of month m). */
  function MonthFrom(doy: int, y: int, m: int): (r: MonthDay)
    requires 1 <= m <= 12
    requires 0 <= doy < YearLength(y) - DaysBeforeMonth(y, m)
    ensures m <= r.month <= 12
    ensures 1 <= r.day <= MonthLength(y, r.month)
    ensures DaysBeforeMonth(y, r.month) + r.day - 1 == DaysBeforeMonth(y, m) + doy
    decreases 12 - m
  {
    if m == 12 || doy < MonthLength(y, m) then MonthDay(m, doy + 1)
    else MonthFrom(doy - MonthLength(y, m), y, m + 1)
  }

  datatype Civil = Civil(year: int, month: int, day: int)

  /** The day number of a calendar date, normalised as the Date
      constructor does: month0 counts from 0 and may fall outside 0..11,
      the day may fall outside the month. */
  function DaysFromCivil(y: int, month0: int, d: int): int
  {
    var yy := y + month0 / 12;
    DaysBeforeYear(yy) + DaysBeforeMonth(yy, month0 % 12 + 1) + d - 1
  }

  /** getFullYear / getMonth() + 1 / getDate of a day number. Reading the
      date back with DaysFromCivil gives the same day. */
  function CivilFromDays(z: int): (c: Civil)
    ensures 1 <= c.month <= 12 && 1 <= c.day <= MonthLength(c.year, c.month)
    ensures DaysFromCivil(c.year, c.month - 1, c.day) == z
  {
    var yd := YearFrom(z, EpochYear);
    var md := MonthFrom(yd.dayOfYear, yd.year, 1);
    Civil(yd.year, md.month, md.day)
  }

  /** Every day of year y comes before the first day of any later year. */
  lemma {:induction false} DaysBeforeLaterYear(y: int, later: int)
    requires y < later
    ensures DaysBeforeYear(y) + YearLength(y) <= DaysBeforeYear(later)
    decreases later - y
  {
    DaysBeforeYearStep(y);
    if y + 1 < later {
      DaysBeforeLaterYear(y + 1, later);
    }
  }

  /** Month m of year y ends where month m + 1 begins, and the year ends
      no earlier than its last month. */
  lemma MonthEnd(y: int, m: int)
    requires 1 <= m <= 12
    ensures DaysBeforeMonth(y, m) + MonthLength(y, m) <= YearLength(y)
    ensures m < 12 ==> DaysBeforeMonth(y, m + 1) == DaysBeforeMonth(y, m) + MonthLength(y, m)
  {
  }

  /** Every day of month m comes before the first day of any later month
      of the same year. */
  lemma {:induction false} DaysBeforeLaterMonth(y: int, m: int, later: int)
    requires 1 <= m < later <= 12
    ensures DaysBeforeMonth(y, m) + MonthLength(y, m) <= DaysBeforeMonth(y, later)
    decreases later - m
  {
    MonthEnd(y, m);
    if m + 1 < later {
      DaysBeforeLaterMonth(y, m + 1, later);
    }
  }

  /** Two real calendar dates with the same day number are the same date. */
  lemma DaysFromCivilInjective(y: int, m: int, d: int, y': int, m': int, d': int)
    requires 1 <= m <= 12 && 1 <= d <= MonthLength(y, m)
    requires 1 <= m' <= 12 && 1 <= d' <= MonthLength(y', m')
    requires DaysFromCivil(y, m - 1, d) == DaysFromCivil(y', m' - 1, d')
    ensures y == y' && m == m' && d == d'
  {
    assert DaysFromCivil(y, m - 1, d) == DaysBeforeYear(y) + DaysBeforeMonth(y, m) + d - 1;
    assert DaysFromCivil(y', m' - 1, d') == DaysBeforeYear(y') + DaysBeforeMonth(y', m') + d' - 1;
    MonthEnd(y, m);
    MonthEnd(y', m');
    if y < y' {
      DaysBeforeLaterYear(y, y');
    } else if y' < y {
      DaysBeforeLaterYear(y', y);
    }
    if m < m' {
      DaysBeforeLaterMonth(y, m, m');
    } else if m' < m {
      DaysBeforeLaterMonth(y, m', m);
    }
  }

  /** getFullYear, getMonth() + 1 and getDate read a real calendar date
      back from its day number. */
  lemma CivilRoundTrip(y: int, m: int, d: int)
    requires 1 <= m <= 12 && 1 <= d <= MonthLength(y, m)
    ensures CivilFromDays(DaysFromCivil(y, m - 1, d)) == Civil(y, m, d)
  {
    var c := CivilFromDays(DaysFromCivil(y, m - 1, d));
    DaysFromCivilInjective(c.year, c.month, c.day, y, m, d);
  }

  /** The day that new Date(y, month0, d) denotes: a Date built from a year
      between 0 and 99 lands in 1900 + y. */
  function DateConstructorDay(y: int, month0: int, d: int): int
  {
    if 0 <= y <= 99 then DaysFromCivil(1900 + y, month0, d) else DaysFromCivil(y, month0, d)
  }
}
