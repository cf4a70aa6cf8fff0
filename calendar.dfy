/**
 * The fixed local proleptic Gregorian calendar that the JavaScript Date
 * getters and setters used by the dashboard are read against. Days are
 * numbered from 1970-01-01 (day 0, a Thursday); a timestamp is a count of
 * milliseconds from its midnight.
 */
module Calendar {
  import opened Types

  /** Milliseconds in a day; DayOf, MsOfDay and At write the literal out. */
  const MsPerDay := 86400000

  function DayOf(t: Timestamp): int { t / 86400000 }

  function MsOfDay(t: Timestamp): (ms: int)
    ensures 0 <= ms < MsPerDay
    ensures t == DayOf(t) * MsPerDay + ms
  {
    t % 86400000
  }

  /** Midnight of a day number plus `ms` milliseconds. */
  function At(day: int, ms: int): Timestamp { day * 86400000 + ms }

  lemma AtParts(day: int, ms: int)
    requires 0 <= ms < MsPerDay
    ensures DayOf(At(day, ms)) == day && MsOfDay(At(day, ms)) == ms
  {
  }

  // ---- years ----------------------------------------------------------

  predicate IsLeap(y: int)
  {
    y % 4 == 0 && (y % 100 != 0 || y % 400 == 0)
  }

  function YearLength(y: int): int { if IsLeap(y) then 366 else 365 }

  /** Leap years among 1 .. y - 1 (counted with floor division for every y). */
  function LeapsBefore(y: int): int { (y - 1) / 4 - (y - 1) / 100 + (y - 1) / 400 }

  /** The day number of January 1 of year y. */
  function YearStart(y: int): int { 365 * (y - 1970) + LeapsBefore(y) - LeapsBefore(1970) }

  lemma YearStartStep(y: int)
    ensures YearStart(y + 1) == YearStart(y) + YearLength(y)
  {
    LeapsStep(y);
  }

  /** Year y adds one to the leap count exactly when it is a leap year. */
  lemma LeapsStep(y: int)
    ensures LeapsBefore(y + 1) == LeapsBefore(y) + (if IsLeap(y) then 1 else 0)
  {
    FloorStep4(y);
    FloorStep100(y);
    FloorStep400(y);
  }

  lemma FloorStep4(y: int)
    ensures y / 4 - (y - 1) / 4 == (if y % 4 == 0 then 1 else 0)
  {
  }

  lemma FloorStep100(y: int)
    ensures y / 100 - (y - 1) / 100 == (if y % 100 == 0 then 1 else 0)
  {
  }

  lemma FloorStep400(y: int)
    ensures y / 400 - (y - 1) / 400 == (if y % 400 == 0 then 1 else 0)
  {
  }

  lemma {:induction false} YearStartMonotone(a: int, b: int)
    requires a <= b
    ensures YearStart(a) + 365 * (b - a) <= YearStart(b)
    decreases b - a
  {
    if a < b {
      YearStartMonotone(a, b - 1);
      YearStartStep(b - 1);
    }
  }

  /** Day d lies in year y. */
  predicate InYear(d: int, y: int)
  {
    YearStart(y) <= d < YearStart(y + 1)
  }

  lemma YearUnique(d: int, y1: int, y2: int)
    requires InYear(d, y1) && InYear(d, y2)
    ensures y1 == y2
  {
    if y1 < y2 {
      YearStartMonotone(y1 + 1, y2);
    } else if y2 < y1 {
      YearStartMonotone(y2 + 1, y1);
    }
  }

  /** Day d lies in some year from lo up to, not including, hi. */
  lemma {:induction false} YearBetween(d: int, lo: int, hi: int)
    requires lo < hi && YearStart(lo) <= d < YearStart(hi)
    ensures exists y :: lo <= y < hi && InYear(d, y)
    decreases hi - lo
  {
    if d < YearStart(lo + 1) {
      assert InYear(d, lo);
    } else {
      YearBetween(d, lo + 1, hi);
    }
  }

  /** 1970 plus the days since 1970 over the mean Gregorian year of 146097 / 400 days. */
  function YearGuess(d: int): int { 1970 + d * 400 / 146097 }

  lemma YearGuessLow(d: int)
    ensures YearStart(YearGuess(d) - 1) <= d
  {
  }

  lemma YearGuessHigh(d: int)
    ensures d < YearStart(YearGuess(d) + 2)
  {
  }

  /** No day lies in two years. */
  lemma YearsDisjoint(d: int)
    ensures forall y1, y2 :: InYear(d, y1) && InYear(d, y2) ==> y1 == y2
  {
    forall y1, y2 | InYear(d, y1) && InYear(d, y2) ensures y1 == y2 {
      YearUnique(d, y1, y2);
    }
  }

  /** The year of day d, as getFullYear() reports it: the one year that holds d. */
  function YearOf(d: int): (y: int)
    ensures InYear(d, y)
  {
    YearGuessLow(d);
    YearGuessHigh(d);
    YearBetween(d, YearGuess(d) - 1, YearGuess(d) + 2);
    YearsDisjoint(d);
    var y :| YearGuess(d) - 1 <= y < YearGuess(d) + 2 && InYear(d, y);
    y
  }

  lemma YearOfUnique(d: int, y: int)
    requires InYear(d, y)
    ensures YearOf(d) == y
  {
    YearUnique(d, y, YearOf(d));
  }

  /** Days of the year before day d, counted from January 1 (0-based). */
  function DayOfYear(d: int): (n: int)
    ensures 0 <= n < YearLength(YearOf(d))
  {
    YearStartStep(YearOf(d));
    d - YearStart(YearOf(d))
  }

  // ---- months ---------------------------------------------------------

  /**
   * Days of the year before 0-based month m (m == 12 gives the year length):
   * 0, 31, 59, 90, 120, 151, 181, 212, 243, 273, 304, 334, 365 in a common
   * year, one more from March on in a leap year. From March the month lengths
   * repeat 31, 30, 31, 30, 31 every 153 days.
   */
  function DaysBeforeMonth(m: int, leap: bool): int
    requires 0 <= m <= 12
  {
    var common := if m < 2 then 31 * m else 59 + (153 * (m - 2) + 2) / 5;
    if leap && m >= 2 then common + 1 else common
  }

  function MonthLength(m: int, leap: bool): (n: int)
    requires 0 <= m < 12
    ensures 28 <= n <= 31
  {
    DaysBeforeMonth(m + 1, leap) - DaysBeforeMonth(m, leap)
  }

  /** Month m (0-based) of a year contains day-of-year n. */
  predicate InMonth(n: int, leap: bool, m: int)
  {
    0 <= m < 12 && DaysBeforeMonth(m, leap) <= n < DaysBeforeMonth(m + 1, leap)
  }

  /** Some month from 0 up to m holds day-of-year n. */
  lemma {:induction false} MonthBetween(n: int, leap: bool, m: int)
    requires 0 <= m < 12 && 0 <= n < DaysBeforeMonth(m + 1, leap)
    ensures exists k :: 0 <= k <= m && InMonth(n, leap, k)
  {
    if DaysBeforeMonth(m, leap) <= n {
      assert InMonth(n, leap, m);
    } else {
      MonthBetween(n, leap, m - 1);
    }
  }

  /** No day of the year lies in two months. */
  lemma MonthsDisjoint(n: int, leap: bool)
    ensures forall m1, m2 :: InMonth(n, leap, m1) && InMonth(n, leap, m2) ==> m1 == m2
  {
  }

  /** The 0-based month of day-of-year n, as getMonth() reports it: the one month that holds it. */
  function MonthOf(n: int, leap: bool): (m: int)
    requires 0 <= n < DaysBeforeMonth(12, leap)
    ensures InMonth(n, leap, m)
  {
    MonthBetween(n, leap, 11);
    MonthsDisjoint(n, leap);
    var m :| 0 <= m < 12 && InMonth(n, leap, m);
    m
  }

  // ---- civil dates ----------------------------------------------------

  /** A calendar date: getFullYear(), getMonth() (0-based) and getDate() (1-based). */
  datatype Civil = Civil(year: int, month: int, day: int)

  predicate ValidCivil(c: Civil)
  {
    0 <= c.month < 12 && 1 <= c.day <= MonthLength(c.month, IsLeap(c.year))
  }

  /** The calendar date of day number d. */
  function CivilFromDays(d: int): (c: Civil)
    ensures ValidCivil(c)
    ensures InYear(d, c.year)
  {
    var y := YearOf(d);
    var n := DayOfYear(d);
    var m := MonthOf(n, IsLeap(y));
    Civil(y, m, n - DaysBeforeMonth(m, IsLeap(y)) + 1)
  }

  /**
   * The day number of a year, 0-based month and day of month, like
   * Date.UTC(year, month, day): a day of month outside the month rolls over
   * into the neighbouring months.
   */
  function DaysFromCivil(year: int, month: int, day: int): (d: int)
    requires 0 <= month < 12
    ensures 1 <= day <= MonthLength(month, IsLeap(year)) ==> InYear(d, year)
  {
    YearStartStep(year);
    YearStart(year) + DaysBeforeMonth(month, IsLeap(year)) + day - 1
  }

  function DaysOf(c: Civil): int
    requires ValidCivil(c)
  {
    DaysFromCivil(c.year, c.month, c.day)
  }

  lemma DaysCivilRoundTrip(d: int)
    ensures DaysOf(CivilFromDays(d)) == d
  {
  }

  lemma CivilDaysRoundTrip(c: Civil)
    requires ValidCivil(c)
    ensures CivilFromDays(DaysOf(c)) == c
  {
    var d := DaysOf(c);
    var leap := IsLeap(c.year);
    assert DaysBeforeMonth(12, leap) == YearLength(c.year);
    YearStartStep(c.year);
    assert InYear(d, c.year);
    YearOfUnique(d, c.year);
    var n := DayOfYear(d);
    assert InMonth(n, leap, c.month);
  }

  /** Two days have the same calendar date exactly when they are the same day. */
  lemma CivilInjective(d1: int, d2: int)
    ensures CivilFromDays(d1) == CivilFromDays(d2) <==> d1 == d2
  {
    DaysCivilRoundTrip(d1);
    DaysCivilRoundTrip(d2);
  }

  function CivilOf(t: Timestamp): Civil { CivilFromDays(DayOf(t)) }

  /** Any time on the day of a calendar date reads back as that date. */
  lemma CivilOfAt(c: Civil, ms: int)
    requires ValidCivil(c) && 0 <= ms < MsPerDay
    ensures CivilOf(At(DaysOf(c), ms)) == c
  {
    AtParts(DaysOf(c), ms);
    CivilDaysRoundTrip(c);
  }

  // ---- weekdays -------------------------------------------------------

  /** getDay(): 0 = Sunday, 1 = Monday, ..., 6 = Saturday. */
  function DayOfWeek(d: int): (w: int)
    ensures 0 <= w < 7
    ensures w == 0 <==> d % 7 == 3
  {
    (d + 4) % 7
  }

  lemma DayOfWeekShift(d: int, k: int)
    ensures DayOfWeek(d + k) == (DayOfWeek(d) + k) % 7
  {
  }

  /** `d.getDay() || 7`: Monday = 1, ..., Sunday = 7. */
  function IsoDayOfWeek(d: int): (w: int)
    ensures 1 <= w <= 7
    ensures w % 7 == DayOfWeek(d)
  {
    if DayOfWeek(d) == 0 then 7 else DayOfWeek(d)
  }

  // ---- setters --------------------------------------------------------

  /** date.setDate(n): day n of the date's month (rolling over), time of day kept. */
  function WithDayOfMonth(t: Timestamp, n: int): (r: Timestamp)
    ensures MsOfDay(r) == MsOfDay(t)
    ensures DayOf(r) - DayOf(t) == n - CivilOf(t).day
  {
    var c := CivilOf(t);
    DaysCivilRoundTrip(DayOf(t));
    AtParts(DaysFromCivil(c.year, c.month, n), MsOfDay(t));
    At(DaysFromCivil(c.year, c.month, n), MsOfDay(t))
  }

  lemma WithDayOfMonthShift(t: Timestamp, k: int)
    ensures WithDayOfMonth(t, CivilOf(t).day + k) == t + k * MsPerDay
  {
    DaysCivilRoundTrip(DayOf(t));
  }

  /** date.setHours(h, m, s, ms): the given time of day on the same day. */
  function WithTime(t: Timestamp, h: int, m: int, s: int, ms: int): (r: Timestamp)
    ensures 0 <= ((h * 60 + m) * 60 + s) * 1000 + ms < MsPerDay ==>
              DayOf(r) == DayOf(t) && MsOfDay(r) == ((h * 60 + m) * 60 + s) * 1000 + ms
  {
    var time := ((h * 60 + m) * 60 + s) * 1000 + ms;
    if 0 <= time < MsPerDay then AtParts(DayOf(t), time); At(DayOf(t), time)
    else At(DayOf(t), time)
  }
}
