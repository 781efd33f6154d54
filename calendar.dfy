/** Local calendar arithmetic of JavaScript's `Date`, following the day and
    date computations of section 21.4.1 of ECMA-262 ("Time Values and Time
    Range"): a time value is split into its day number (days since
    1970-01-01, proleptic Gregorian) and the milliseconds within that day.
    Months are numbered 0 (January) to 11 and dates from 1, as `getMonth`
    and `getDate` return them; week days 0 (Sunday) to 6. */
module Calendar {

  const MsPerMinute: int := 60000
  const MsPerHour: int := 3600000
  const MsPerDay: int := 86400000
  const DaysPer400Years: int := 146097

  /** A local time value, split as `Day(t)` and `TimeWithinDay(t)`. */
  datatype DateTime = DateTime(day: int, time: int)
  {
    predicate Valid() { 0 <= time < MsPerDay }
  }

  /** A year, month (0..11) and date (from 1) triple. */
  datatype CivilDate = CivilDate(year: int, month: int, date: int)

  predicate IsLeapYear(y: int) {
    (y % 4 == 0 && y % 100 != 0) || y % 400 == 0
  }

  function DaysInYear(y: int): (n: int)
    ensures n == 365 || n == 366
  {
    if IsLeapYear(y) then 366 else 365
  }

  /** `DayFromYear(y)`: the day number of January 1 of year `y`. */
  function DayFromYear(y: int): int {
    365 * (y - 1970) + (y - 1969) / 4 - (y - 1901) / 100 + (y - 1601) / 400
  }

  /** Days of the months before month `m` of year `y` (the bounds of `MonthFromTime`). */
  function DaysBeforeMonth(y: int, m: int): (n: int)
    requires 0 <= m <= 12
    ensures 0 <= n <= 335 + (if IsLeapYear(y) then 31 else 30)
  {
    var leap := if IsLeapYear(y) then 1 else 0;
    if m == 0 then 0
    else if m == 1 then 31
    else if m == 2 then 59 + leap
    else if m == 3 then 90 + leap
    else if m == 4 then 120 + leap
    else if m == 5 then 151 + leap
    else if m == 6 then 181 + leap
    else if m == 7 then 212 + leap
    else if m == 8 then 243 + leap
    else if m == 9 then 273 + leap
    else if m == 10 then 304 + leap
    else if m == 11 then 334 + leap
    else 365 + leap
  }

  /** The number of days of month `m` (0..11) of year `y` in the Gregorian calendar. */
  function DaysInMonth(y: int, m: int): (n: int)
    requires 0 <= m < 12
    ensures 28 <= n <= 31
    ensures n == DaysBeforeMonth(y, m + 1) - DaysBeforeMonth(y, m)
  {
    if m == 1 then (if IsLeapYear(y) then 29 else 28)
    else if m == 3 || m == 5 || m == 8 || m == 10 then 30
    else 31
  }

  predicate ValidCivil(c: CivilDate) {
    0 <= c.month < 12 && 1 <= c.date <= DaysInMonth(c.year, c.month)
  }

  /** The day number of a valid civil date. */
  function DayFromCivil(c: CivilDate): int
    requires 0 <= c.month < 12
  {
    DayFromYear(c.year) + DaysBeforeMonth(c.year, c.month) + c.date - 1
  }

  lemma DayFromYearStep(y: int)
    ensures DayFromYear(y + 1) == DayFromYear(y) + DaysInYear(y)
  {
    LeapStep4(y);
    LeapStep100(y);
    LeapStep400(y);
    LeapDivisors(y);
  }

  /** The leap-day counts of `DayFromYear` step up by one exactly after a year divisible by 4, 100 or 400. */
  lemma LeapStep4(y: int)
    ensures (y - 1968) / 4 - (y - 1969) / 4 == if y % 4 == 0 then 1 else 0
  {
  }

  lemma LeapStep100(y: int)
    ensures (y - 1900) / 100 - (y - 1901) / 100 == if y % 100 == 0 then 1 else 0
  {
  }

  lemma LeapStep400(y: int)
    ensures (y - 1600) / 400 - (y - 1601) / 400 == if y % 400 == 0 then 1 else 0
  {
  }

  lemma DivExact(x: int, n: int, q: int, r: int)
    requires n > 0 && x == q * n + r && 0 <= r < n
    ensures x / n == q && x % n == r
  {
    var q', r' := x / n, x % n;
    assert x == q' * n + r' && 0 <= r' < n;
    assert (q - q') * n == r' - r;
    if q > q' {
      MulAtLeast(q - q', n);
    } else if q < q' {
      MulAtLeast(q' - q, n);
    }
  }

  lemma MulAtLeast(a: int, n: int)
    requires a >= 1 && n > 0
    ensures a * n >= n
  {
  }

  /** 400 | y implies 100 | y, which implies 4 | y. */
  lemma LeapDivisors(y: int)
    ensures y % 400 == 0 ==> y % 100 == 0
    ensures y % 100 == 0 ==> y % 4 == 0
  {
    if y % 400 == 0 { DivExact(y, 100, (y / 400) * 4, 0); }
    if y % 100 == 0 { DivExact(y, 4, (y / 100) * 25, 0); }
  }

  lemma DayFromYearMonotone(a: int, b: int)
    requires a <= b
    ensures DayFromYear(a) <= DayFromYear(b)
    ensures a < b ==> DayFromYear(a) + DaysInYear(a) <= DayFromYear(b)
    decreases b - a
  {
    if a < b {
      DayFromYearStep(a);
      DayFromYearMonotone(a + 1, b);
    }
  }

  /** Every 400 years repeat the same 146097 days. */
  lemma DayFromYearCycle(c: int)
    ensures DayFromYear(1970 + 400 * c) == DaysPer400Years * c
  {
  }

  /** The first year from `y` on, before `limit`, whose successor starts after day `d`. */
  function YearSearch(y: int, d: int, limit: int): (r: int)
    requires y < limit && DayFromYear(y) <= d < DayFromYear(limit)
    ensures y <= r < limit
    ensures DayFromYear(r) <= d < DayFromYear(r + 1)
    decreases limit - y
  {
    if d < DayFromYear(y + 1) then y
    else
      assert y + 1 != limit;
      YearSearch(y + 1, d, limit)
  }

  /** `YearFromTime`: the largest year whose first day is on or before day `d`. */
  function YearFromDay(d: int): (y: int)
    ensures DayFromYear(y) <= d < DayFromYear(y + 1)
  {
    var c := d / DaysPer400Years;
    DayFromYearCycle(c);
    DayFromYearCycle(c + 1);
    assert 1970 + 400 * (c + 1) == (1970 + 400 * c) + 400;
    YearSearch(1970 + 400 * c, d, 1970 + 400 * c + 400)
  }

  /** The year is determined by its bounds: a day in year `y` has `YearFromDay` equal to `y`. */
  lemma YearFromDayUnique(d: int, y: int)
    requires DayFromYear(y) <= d < DayFromYear(y + 1)
    ensures YearFromDay(d) == y
  {
    var z := YearFromDay(d);
    if z < y {
      DayFromYearMonotone(z + 1, y);
    } else if z > y {
      DayFromYearMonotone(y + 1, z);
    }
  }

  /** `MonthFromTime`, given the day within the year: the month whose days before
      it are at most `doy` and whose days up to its end exceed it. */
  function MonthFromDayWithinYear(y: int, doy: int): (m: int)
    requires 0 <= doy < DaysInYear(y)
    ensures 0 <= m < 12
    ensures DaysBeforeMonth(y, m) <= doy < DaysBeforeMonth(y, m + 1)
  {
    MonthSearch(y, doy, 0)
  }

  /** The first month from `m` on whose end lies after `doy`. */
  function MonthSearch(y: int, doy: int, m: int): (r: int)
    requires 0 <= m < 12 && DaysBeforeMonth(y, m) <= doy < DaysInYear(y)
    ensures m <= r < 12
    ensures DaysBeforeMonth(y, r) <= doy < DaysBeforeMonth(y, r + 1)
    decreases 12 - m
  {
    if m == 11 || doy < DaysBeforeMonth(y, m + 1) then m
    else MonthSearch(y, doy, m + 1)
  }

  /** Every month has at least one day. */
  lemma DaysBeforeMonthIncreasing(y: int, a: int, b: int)
    requires 0 <= a < b <= 12
    ensures DaysBeforeMonth(y, a) < DaysBeforeMonth(y, b)
    decreases b - a
  {
    if a + 1 < b {
      DaysBeforeMonthIncreasing(y, a + 1, b);
    }
  }

  /** A day inside month `m`'s span is `MonthFromTime` of month `m`. */
  lemma MonthUnique(y: int, doy: int, m: int)
    requires 0 <= m < 12
    requires DaysBeforeMonth(y, m) <= doy < DaysBeforeMonth(y, m + 1)
    ensures 0 <= doy < DaysInYear(y)
    ensures MonthFromDayWithinYear(y, doy) == m
  {
    MonthSpanInYear(y, doy, m);
    MonthSpansDisjoint(y, doy, MonthFromDayWithinYear(y, doy), m);
  }

  /** Every month's span lies inside the year. */
  lemma MonthSpanInYear(y: int, doy: int, m: int)
    requires 0 <= m < 12
    requires DaysBeforeMonth(y, m) <= doy < DaysBeforeMonth(y, m + 1)
    ensures 0 <= doy < DaysInYear(y)
  {
    if m + 1 < 12 {
      DaysBeforeMonthIncreasing(y, m + 1, 12);
    }
  }

  /** No day lies in the spans of two different months. */
  lemma MonthSpansDisjoint(y: int, doy: int, a: int, b: int)
    requires 0 <= a < 12 && 0 <= b < 12
    requires DaysBeforeMonth(y, a) <= doy < DaysBeforeMonth(y, a + 1)
    requires DaysBeforeMonth(y, b) <= doy < DaysBeforeMonth(y, b + 1)
    ensures a == b
  {
    if a + 1 < b {
      DaysBeforeMonthIncreasing(y, a + 1, b);
    } else if b + 1 < a {
      DaysBeforeMonthIncreasing(y, b + 1, a);
    }
  }

  /** The civil date of day `d`: `YearFromTime`, `MonthFromTime` and `DateFromTime`. */
  function CivilFromDay(d: int): (c: CivilDate)
    ensures ValidCivil(c)
    ensures DayFromCivil(c) == d
  {
    var y := YearFromDay(d);
    DayFromYearStep(y);
    var doy := d - DayFromYear(y);
    var m := MonthFromDayWithinYear(y, doy);
    CivilDate(y, m, doy - DaysBeforeMonth(y, m) + 1)
  }

  /** Every valid civil date is recovered from its day number. */
  lemma CivilRoundTrip(c: CivilDate)
    requires ValidCivil(c)
    ensures CivilFromDay(DayFromCivil(c)) == c
  {
    var d := DayFromCivil(c);
    var doy := DaysBeforeMonth(c.year, c.month) + c.date - 1;
    MonthUnique(c.year, doy, c.month);
    DayFromYearStep(c.year);
    YearFromDayUnique(d, c.year);
  }


  /** `WeekDay(t)`: 0 for Sunday; 1970-01-01 was a Thursday. */
  function WeekDay(d: int): (w: int)
    ensures 0 <= w < 7
    ensures (d - w) % 7 == 3
  {
    (d + 4) % 7
  }

  /** `MakeDay(year, month, date)`: months outside 0..11 carry into the year and
      dates outside the month run on into the neighbouring months. */
  function MakeDay(year: int, month: int, date: int): int {
    var ym := year + month / 12;
    var mn := month % 12;
    DayFromYear(ym) + DaysBeforeMonth(ym, mn) + date - 1
  }

  /** `MakeDay` on a valid civil date is its day number, and that day is read back unchanged. */
  lemma MakeDayOfCivil(c: CivilDate)
    requires ValidCivil(c)
    ensures MakeDay(c.year, c.month, c.date) == DayFromCivil(c)
    ensures CivilFromDay(MakeDay(c.year, c.month, c.date)) == c
  {
    assert c.month / 12 == 0 && c.month % 12 == c.month;
    var d := MakeDay(c.year, c.month, c.date);
    assert d == DayFromCivil(c);
    CivilRoundTrip(c);
  }

  /** Adding `k` to the date moves the day number by exactly `k`. */
  lemma MakeDayShift(d: int, k: int)
    ensures MakeDay(CivilFromDay(d).year, CivilFromDay(d).month, CivilFromDay(d).date + k) == d + k
  {
    MakeDayOffset(CivilFromDay(d), k);
  }

  /** `MakeDay` with the date of a civil date moved by `k` is its day number moved by `k`. */
  lemma MakeDayOffset(c: CivilDate, k: int)
    requires 0 <= c.month < 12
    ensures MakeDay(c.year, c.month, c.date + k) == DayFromCivil(c) + k
  {
    assert c.month / 12 == 0 && c.month % 12 == c.month;
  }

  /** `dt.setDate(dt.getDate() + k)` moves `dt` by `k` days and keeps its time of day. */
  lemma SetDateShift(dt: DateTime, k: int)
    ensures SetDate(dt, CivilFromDay(dt.day).date + k) == DateTime(dt.day + k, dt.time)
  {
    var date := CivilFromDay(dt.day).date + k;
    MakeDayShift(dt.day, k);
    assert SetDate(dt, date).day == MakeDay(CivilFromDay(dt.day).year, CivilFromDay(dt.day).month, date);
  }

  /** `MakeDate(day, time)` followed by `Day` and `TimeWithinDay`: a time of day
      beyond 24 hours (or below 0) carries into the neighbouring days. */
  function MakeDate(day: int, time: int): (r: DateTime)
    ensures r.Valid()
    ensures r.day * MsPerDay + r.time == day * MsPerDay + time
  {
    DateTime(day + time / MsPerDay, time % MsPerDay)
  }

  /** `new Date(year, month, date)`: midnight of the normalised day. */
  function NewDate(year: int, month: int, date: int): (r: DateTime)
    ensures r.Valid() && r.time == 0
  {
    DateTime(MakeDay(year, month, date), 0)
  }

  /** `dt.setDate(date)`: same year, month and time of day, new date. */
  function SetDate(dt: DateTime, date: int): (r: DateTime)
    ensures r.time == dt.time
  {
    DateTime(MakeDay(CivilFromDay(dt.day).year, CivilFromDay(dt.day).month, date), dt.time)
  }

  /** `dt.setMonth(month)`: same year, date and time of day, new month. */
  function SetMonth(dt: DateTime, month: int): (r: DateTime)
    ensures r.time == dt.time
  {
    DateTime(MakeDay(CivilFromDay(dt.day).year, month, CivilFromDay(dt.day).date), dt.time)
  }

  /** `dt.setHours(h, m, 0, 0)`. */
  function SetHours(dt: DateTime, h: int, m: int): (r: DateTime)
    ensures r.Valid()
    ensures 0 <= h < 24 && 0 <= m < 60 ==> r.day == dt.day && r.time == h * MsPerHour + m * MsPerMinute
  {
    MakeDate(dt.day, h * MsPerHour + m * MsPerMinute)
  }

  /** `getHours()`. */
  function Hours(dt: DateTime): (h: int)
    requires dt.Valid()
    ensures 0 <= h < 24
  {
    dt.time / MsPerHour
  }

  /** `getMinutes()`. */
  function Minutes(dt: DateTime): (m: int)
    requires dt.Valid()
    ensures 0 <= m < 60
  {
    (dt.time / MsPerMinute) % 60
  }

  /** The time value order of two dates, as `<=` compares `Date` objects. */
  predicate AtOrBefore(a: DateTime, b: DateTime) {
    a.day < b.day || (a.day == b.day && a.time <= b.time)
  }

  /** `a.toDateString() === b.toDateString()`: the same local calendar day. */
  predicate SameDay(a: DateTime, b: DateTime) {
    a.day == b.day
  }
}
