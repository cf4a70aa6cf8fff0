/** Week numbering and week ranges (src/lib/date-utils.ts). */
module DateUtils {
  import opened Types
  import opened Calendar

  /** Math.ceil(n / k) for a positive divisor. */
  function CeilDiv(n: int, k: int): (q: int)
    requires k > 0
    ensures (q - 1) * k < n <= q * k
  {
    (n + k - 1) / k
  }

  /** The Thursday of the Monday-to-Sunday week of day d: `d + 4 - (getDay() || 7)`. */
  function ThursdayOf(d: int): (thu: int)
    ensures DayOfWeek(thu) == 4
    ensures d - 3 <= thu <= d + 3
  {
    DayOfWeekShift(d, 4 - IsoDayOfWeek(d));
    d + 4 - IsoDayOfWeek(d)
  }

  /**
   * getWeekNumber: the local calendar date of t is rebuilt as a UTC date,
   * shifted to the Thursday of its week, and numbered by
   * ceil((days since January 1 of the Thursday's year + 1) / 7).
   */
  function WeekNumber(t: Timestamp): (w: int)
    ensures 1 <= w <= 53
  {
    var utcDay := DaysOf(CivilOf(t));
    WeekNumberOfDay(utcDay)
  }

  /** The numbering step of getWeekNumber, on a day number. */
  function WeekNumberOfDay(d: int): (w: int)
    ensures 1 <= w <= 53
  {
    var thursday := ThursdayOf(d);
    CeilDiv(DayOfYear(thursday) + 1, 7)
  }

  lemma WeekNumberByDay(t: Timestamp)
    ensures WeekNumber(t) == WeekNumberOfDay(DayOf(t))
  {
    DaysCivilRoundTrip(DayOf(t));
  }

  /** The ISO 8601 week-based year of day d: the year of its week's Thursday. */
  function IsoWeekYear(d: int): int { YearOf(ThursdayOf(d)) }

  /** The first Thursday of year y. */
  function FirstThursday(y: int): (d: int)
    ensures InYear(d, y) && DayOfWeek(d) == 4 && d - YearStart(y) < 7
  {
    YearStartStep(y);
    NextThursday(YearStart(y));
    YearStart(y) + (11 - DayOfWeek(YearStart(y))) % 7
  }

  /** Day s moved on by `(11 - getDay()) % 7` days is the first Thursday from s. */
  lemma NextThursday(s: int)
    ensures DayOfWeek(s + (11 - DayOfWeek(s)) % 7) == 4
  {
    DayOfWeekShift(s, (11 - DayOfWeek(s)) % 7);
  }

  /**
   * The ISO 8601 week number stated independently: week 1 of a week-based
   * year is the week holding its first Thursday, and weeks count on from it.
   */
  function IsoWeek(d: int): int
  {
    (ThursdayOf(d) - FirstThursday(IsoWeekYear(d))) / 7 + 1
  }

  /** Two Thursdays are a whole number of weeks apart. */
  lemma ThursdaysWeeksApart(a: int, b: int)
    requires DayOfWeek(a) == 4 && DayOfWeek(b) == 4
    ensures (b - a) % 7 == 0
  {
  }

  /** The numbering step is the ISO 8601 week number. */
  lemma WeekNumberOfDayIsIso(d: int)
    ensures WeekNumberOfDay(d) == IsoWeek(d)
  {
    var thu := ThursdayOf(d);
    var y := YearOf(thu);
    var first := FirstThursday(y);
    ThursdaysWeeksApart(first, thu);
    var k := (thu - first) / 7;
    var off := first - YearStart(y);
    assert DayOfYear(thu) + 1 == 7 * k + off + 1;
  }

  /** getWeekNumber computes the ISO 8601 week number of the date of t. */
  lemma WeekNumberIsIso(t: Timestamp)
    ensures WeekNumber(t) == IsoWeek(DayOf(t))
  {
    WeekNumberByDay(t);
    WeekNumberOfDayIsIso(DayOf(t));
  }

  /** Any time on day d has the week number of day d. */
  lemma WeekNumberAt(d: int, ms: int)
    requires 0 <= ms < MsPerDay
    ensures WeekNumber(At(d, ms)) == WeekNumberOfDay(d)
  {
    AtParts(d, ms);
    WeekNumberByDay(At(d, ms));
  }

  /** Days with the same Thursday have the same week number. */
  lemma WeekNumberOfDayByThursday(d1: int, d2: int)
    requires ThursdayOf(d1) == ThursdayOf(d2)
    ensures WeekNumberOfDay(d1) == WeekNumberOfDay(d2)
  {
  }

  /** Only the calendar date counts; the time of day is ignored. */
  lemma WeekNumberIgnoresTime(t1: Timestamp, t2: Timestamp)
    requires DayOf(t1) == DayOf(t2)
    ensures WeekNumber(t1) == WeekNumber(t2)
  {
  }

  /** Every day from a Monday to the next Sunday has the Thursday three days after the Monday. */
  lemma ThursdayInWeek(monday: int, d: int)
    requires DayOfWeek(monday) == 1 && monday <= d < monday + 7
    ensures ThursdayOf(d) == monday + 3
  {
  }

  /** Days of one Monday-to-Sunday week have one week number. */
  lemma SameNumberInWeek(monday: int, d: int)
    requires DayOfWeek(monday) == 1 && monday <= d < monday + 7
    ensures WeekNumberOfDay(d) == WeekNumberOfDay(monday)
  {
    ThursdayInWeek(monday, monday);
    ThursdayInWeek(monday, d);
    WeekNumberOfDayByThursday(d, monday);
  }

  /** The seven days from a Monday to the next Sunday share one week number, at any time of day. */
  lemma WeekNumberConstantOnWeek(monday: int, d: int, ms1: int, ms2: int)
    requires DayOfWeek(monday) == 1 && monday <= d < monday + 7
    requires 0 <= ms1 < MsPerDay && 0 <= ms2 < MsPerDay
    ensures WeekNumber(At(monday, ms1)) == WeekNumber(At(d, ms2))
  {
    WeekNumberAt(monday, ms1);
    WeekNumberAt(d, ms2);
    SameNumberInWeek(monday, d);
  }

  /** Week 1 is exactly the week that holds the first Thursday of its year. */
  lemma WeekOneHoldsFirstThursday(t: Timestamp)
    ensures WeekNumber(t) == 1 <==> ThursdayOf(DayOf(t)) == FirstThursday(IsoWeekYear(DayOf(t)))
  {
    WeekNumberIsIso(t);
    WeekOneOfDay(DayOf(t));
  }

  lemma WeekOneOfDay(d: int)
    ensures IsoWeek(d) == 1 <==> ThursdayOf(d) == FirstThursday(IsoWeekYear(d))
  {
    var thu := ThursdayOf(d);
    var first := FirstThursday(YearOf(thu));
    NoThursdayBeforeFirst(thu);
    ThursdaysWeeksApart(first, thu);
  }

  /** No Thursday of a year comes before its first Thursday. */
  lemma NoThursdayBeforeFirst(thu: int)
    requires DayOfWeek(thu) == 4
    ensures FirstThursday(YearOf(thu)) <= thu
  {
    ThursdayNotBefore(FirstThursday(YearOf(thu)), thu, YearStart(YearOf(thu)));
  }

  /** A Thursday on or after `start` is not before a Thursday in the first week from `start`. */
  lemma ThursdayNotBefore(first: int, thu: int, start: int)
    requires DayOfWeek(first) == 4 && DayOfWeek(thu) == 4
    requires start <= thu && first - start < 7
    ensures first <= thu
  {
    ThursdaysWeeksApart(first, thu);
  }

  lemma WeekNumberOfDayNextWeek(d: int)
    requires IsoWeekYear(d + 7) == IsoWeekYear(d)
    ensures WeekNumberOfDay(d + 7) == WeekNumberOfDay(d) + 1
  {
    ThursdayNextYearDay(d);
    CeilDivNextWeek(DayOfYear(ThursdayOf(d)) + 1);
  }

  lemma ThursdayNextWeek(d: int)
    ensures ThursdayOf(d + 7) == ThursdayOf(d) + 7
  {
    DayOfWeekShift(d, 7);
  }

  /** Within one week-based year, the next week's Thursday is seven days further into the year. */
  lemma ThursdayNextYearDay(d: int)
    requires IsoWeekYear(d + 7) == IsoWeekYear(d)
    ensures DayOfYear(ThursdayOf(d + 7)) == DayOfYear(ThursdayOf(d)) + 7
  {
    ThursdayNextWeek(d);
  }

  lemma CeilDivNextWeek(n: int)
    ensures CeilDiv(n + 7, 7) == CeilDiv(n, 7) + 1
  {
  }

  /** A week later the number goes up by one, unless the week-based year changes. */
  lemma WeekNumberNextWeek(t: Timestamp)
    requires IsoWeekYear(DayOf(t) + 7) == IsoWeekYear(DayOf(t))
    ensures WeekNumber(t + 7 * MsPerDay) == WeekNumber(t) + 1
  {
    DayOfWeekLater(t);
    WeekNumberByDay(t);
    WeekNumberByDay(t + 7 * MsPerDay);
    WeekNumberOfDayNextWeek(DayOf(t));
  }

  lemma DayOfWeekLater(t: Timestamp)
    ensures DayOf(t + 7 * MsPerDay) == DayOf(t) + 7
  {
  }

  /** A span of two timestamps: getWeekRange's `{ start, end }`. */
  datatype WeekSpan = WeekSpan(start: Timestamp, end: Timestamp)

  /** Days back from a weekday to its Monday: 6 for Sunday, day - 1 otherwise. */
  function DaysToMonday(day: int): int
  {
    if day == 0 then 6 else day - 1
  }

  /** The Monday of the Monday-to-Sunday week of day d. */
  function MondayOf(d: int): (m: int)
    ensures DayOfWeek(m) == 1 && m <= d < m + 7
  {
    DayOfWeekShift(d, -DaysToMonday(DayOfWeek(d)));
    d - DaysToMonday(DayOfWeek(d))
  }

  /**
   * getWeekRange: a copy of the date set to midnight, moved with setDate to
   * `getDate() - day + (day === 0 ? -6 : 1)`, and a copy of that Monday
   * moved with setDate six days on. The argument itself is left alone.
   */
  function WeekRange(t: Timestamp): (r: WeekSpan)
    ensures MsOfDay(r.start) == 0 && MsOfDay(r.end) == 0
    ensures DayOf(r.start) == MondayOf(DayOf(t))
    ensures DayOf(r.end) == DayOf(r.start) + 6
  {
    var d := WithTime(t, 0, 0, 0, 0);
    assert DayOf(d) == DayOf(t);
    var day := DayOfWeek(DayOf(d));
    var monday := WithDayOfMonth(d, CivilOf(d).day - day + (if day == 0 then -6 else 1));
    assert DayOf(monday) == DayOf(t) - DaysToMonday(day);
    var sunday := WithDayOfMonth(monday, CivilOf(monday).day + 6);
    WeekSpan(monday, sunday)
  }

  /** The range starts at midnight of the Monday and ends at midnight of the Sunday six days on. */
  lemma WeekRangeIsMondayToSunday(t: Timestamp)
    ensures WeekRange(t) == WeekSpan(At(MondayOf(DayOf(t)), 0), At(MondayOf(DayOf(t)) + 6, 0))
  {
    var d := WithTime(t, 0, 0, 0, 0);
    AtParts(DayOf(t), 0);
    assert DayOf(d) == DayOf(t);
    var day := DayOfWeek(DayOf(d));
    var back := (if day == 0 then -6 else 1) - day;
    assert back == -DaysToMonday(day);
    WithDayOfMonthShift(d, back);
    var monday := WithDayOfMonth(d, CivilOf(d).day + back);
    assert monday == At(MondayOf(DayOf(t)), 0);
    WithDayOfMonthShift(monday, 6);
  }

  /** What getWeekRange promises: a Monday and a Sunday six days apart, around the date. */
  lemma WeekRangeSpan(t: Timestamp)
    ensures DayOfWeek(DayOf(WeekRange(t).start)) == 1 && MsOfDay(WeekRange(t).start) == 0
    ensures DayOfWeek(DayOf(WeekRange(t).end)) == 0 && MsOfDay(WeekRange(t).end) == 0
    ensures DayOf(WeekRange(t).end) == DayOf(WeekRange(t).start) + 6
    ensures DayOf(WeekRange(t).start) <= DayOf(t) <= DayOf(WeekRange(t).end)
  {
    WeekRangeIsMondayToSunday(t);
    var m := MondayOf(DayOf(t));
    MondayToSundaySpan(m);
  }

  lemma MondayToSundaySpan(m: int)
    requires DayOfWeek(m) == 1
    ensures DayOfWeek(DayOf(At(m, 0))) == 1 && MsOfDay(At(m, 0)) == 0
    ensures DayOfWeek(DayOf(At(m + 6, 0))) == 0 && MsOfDay(At(m + 6, 0)) == 0
    ensures DayOf(At(m + 6, 0)) == DayOf(At(m, 0)) + 6
  {
    AtParts(m, 0);
    AtParts(m + 6, 0);
    DayOfWeekShift(m, 6);
  }

  /** getWeekRange's start is on the Monday of the date's week, and its end on the Sunday after. */
  lemma WeekRangeDays(t: Timestamp)
    ensures DayOf(WeekRange(t).start) == MondayOf(DayOf(t))
    ensures DayOf(WeekRange(t).end) == MondayOf(DayOf(t)) + 6
  {
    WeekRangeIsMondayToSunday(t);
    MondayToSundaySpan(MondayOf(DayOf(t)));
  }

  /** Every day from the Monday of d's week to the Sunday has d's week number. */
  lemma MondayWeekSameNumber(d: int, e: int)
    requires MondayOf(d) <= e < MondayOf(d) + 7
    ensures WeekNumberOfDay(e) == WeekNumberOfDay(d)
  {
    SameNumberInWeek(MondayOf(d), e);
    SameNumberInWeek(MondayOf(d), d);
  }

  /** Every day of the range, at any time, has the week number of the date it was built from. */
  lemma WeekRangeSharesWeekNumber(t: Timestamp, e: int, ms: int)
    requires DayOf(WeekRange(t).start) <= e <= DayOf(WeekRange(t).end) && 0 <= ms < MsPerDay
    ensures WeekNumber(At(e, ms)) == WeekNumber(t)
  {
    WeekRangeDays(t);
    WeekNumberAt(e, ms);
    WeekNumberByDay(t);
    MondayWeekSameNumber(DayOf(t), e);
  }

  /** The range of midnight of day d holds d, and every day of it has d's ISO 8601 week number. */
  lemma WeekRangeOfMidnight(d: int, e: int, ms: int)
    requires DayOf(WeekRange(At(d, 0)).start) <= e <= DayOf(WeekRange(At(d, 0)).end) && 0 <= ms < MsPerDay
    ensures DayOf(WeekRange(At(d, 0)).start) <= d <= DayOf(WeekRange(At(d, 0)).end)
    ensures WeekNumber(At(e, ms)) == IsoWeek(d)
  {
    MidnightRangeHoldsDay(d);
    WeekRangeSharesWeekNumber(At(d, 0), e, ms);
    MidnightIsIso(d);
  }

  lemma MidnightRangeHoldsDay(d: int)
    ensures DayOf(WeekRange(At(d, 0)).start) <= d <= DayOf(WeekRange(At(d, 0)).end)
  {
    AtParts(d, 0);
    WeekRangeDays(At(d, 0));
  }

  lemma MidnightIsIso(d: int)
    ensures WeekNumber(At(d, 0)) == IsoWeek(d)
  {
    WeekNumberAt(d, 0);
    WeekNumberOfDayIsIso(d);
  }
}
