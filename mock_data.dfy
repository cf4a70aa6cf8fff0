/**
 * The seed data (src/data/mockData.ts): the current week's start and end,
 * the file's own Sunday-start week number, and the daily, weekly and monthly
 * fixtures built around one mutable `today`.
 */
module MockData {
  import opened Types
  import opened Calendar
  import opened DateUtils
  import opened Lifecycle
  import opened Buckets

  /** A JavaScript Date object: one timestamp that the setters overwrite. */
  class MutableDate {
    var time: Timestamp

    /** `new Date(t)` */
    constructor(t: Timestamp)
      ensures time == t
    {
      time := t;
    }

    function GetDay(): int reads this { DayOfWeek(DayOf(time)) }
    function GetDate(): int reads this { CivilOf(time).day }
    function GetMonth(): int reads this { CivilOf(time).month }
    function GetFullYear(): int reads this { CivilOf(time).year }

    /**
     * setDate(n), which returns the new timestamp: day n of the date's month,
     * rolling over into the neighbouring months, so the date moves
     * n - getDate() days and keeps its time of day.
     */
    method SetDate(n: int) returns (r: Timestamp)
      modifies this
      ensures time == old(time) + (n - CivilOf(old(time)).day) * MsPerDay && r == time
    {
      WithDayOfMonthShift(time, n - CivilOf(time).day);
      time := WithDayOfMonth(time, n);
      r := time;
    }

    /** setHours(h, m, s, ms), which returns the new timestamp. */
    method SetHours(h: int, m: int, s: int, ms: int) returns (r: Timestamp)
      modifies this
      ensures time == WithTime(old(time), h, m, s, ms) && r == time
    {
      time := WithTime(time, h, m, s, ms);
      r := time;
    }
  }

  /** 23:59:59.999 as a millisecond of the day. */
  const LastMs := MsPerDay - 1

  /**
   * getCurrentWeekDates: the Monday of now's week at 00:00:00.000 and the
   * Sunday six days later at 23:59:59.999; now lies between them.
   */
  method GetCurrentWeekDates(now: Timestamp) returns (startDate: Timestamp, endDate: Timestamp)
    ensures startDate == At(MondayOf(DayOf(now)), 0) && endDate == At(MondayOf(DayOf(now)) + 6, LastMs)
    ensures DayOfWeek(DayOf(startDate)) == 1 && MsOfDay(startDate) == 0
    ensures DayOf(endDate) == DayOf(startDate) + 6 && MsOfDay(endDate) == LastMs
    ensures startDate <= now <= endDate
  {
    startDate := StartOfWeek(now);
    endDate := EndOfWeek(startDate);
    CurrentWeekBounds(MondayOf(DayOf(now)));
  }

  /** `startDate`: a copy of now moved back `daysToMonday` days with setDate, then set to midnight. */
  method StartOfWeek(now: Timestamp) returns (startDate: Timestamp)
    ensures startDate == At(MondayOf(DayOf(now)), 0)
  {
    var nowDate := new MutableDate(now);
    var currentDay := nowDate.GetDay();
    var daysToMonday := DaysToMonday(currentDay);
    var start := new MutableDate(now);
    var _ := start.SetDate(nowDate.GetDate() - daysToMonday);
    var _ := start.SetHours(0, 0, 0, 0);
    MondayAtMidnight(now);
    startDate := start.time;
  }

  /** `endDate`: a copy of the start moved six days on with setDate, then set to 23:59:59.999. */
  method EndOfWeek(startDate: Timestamp) returns (endDate: Timestamp)
    ensures endDate == At(DayOf(startDate) + 6, LastMs)
  {
    var start := new MutableDate(startDate);
    var end := new MutableDate(startDate);
    var _ := end.SetDate(start.GetDate() + 6);
    var _ := end.SetHours(23, 59, 59, 999);
    SundayAtLastMs(startDate);
    endDate := end.time;
  }

  /** The start date's two setter calls land on the Monday at midnight. */
  lemma MondayAtMidnight(now: Timestamp)
    ensures WithTime(now - DaysToMonday(DayOfWeek(DayOf(now))) * MsPerDay, 0, 0, 0, 0) == At(MondayOf(DayOf(now)), 0)
  {
    DaysBack(now, DaysToMonday(DayOfWeek(DayOf(now))));
  }

  /** Moving a timestamp back whole days moves its day number back as many and keeps the time of day. */
  lemma DaysBack(t: Timestamp, k: int)
    ensures DayOf(t - k * MsPerDay) == DayOf(t) - k && MsOfDay(t - k * MsPerDay) == MsOfDay(t)
  {
  }

  /** The end date's two setter calls land six days on at 23:59:59.999. */
  lemma SundayAtLastMs(t: Timestamp)
    ensures WithTime(t + 6 * MsPerDay, 23, 59, 59, 999) == At(DayOf(t) + 6, LastMs)
  {
    SixDaysOn(t);
  }

  lemma SixDaysOn(t: Timestamp)
    ensures DayOf(t + 6 * MsPerDay) == DayOf(t) + 6
  {
  }

  /** From the Monday at midnight to the Sunday at 23:59:59.999. */
  lemma CurrentWeekBounds(m: int)
    requires DayOfWeek(m) == 1
    ensures DayOfWeek(DayOf(At(m, 0))) == 1 && MsOfDay(At(m, 0)) == 0
    ensures DayOf(At(m + 6, LastMs)) == DayOf(At(m, 0)) + 6 && MsOfDay(At(m + 6, LastMs)) == LastMs
  {
    AtParts(m, 0);
    AtParts(m + 6, LastMs);
  }

  /** The current week's dates are getWeekRange's, with the end moved to the last millisecond of the Sunday. */
  lemma CurrentWeekIsWeekRange(now: Timestamp)
    ensures At(MondayOf(DayOf(now)), 0) == WeekRange(now).start
    ensures At(MondayOf(DayOf(now)) + 6, LastMs) == WeekRange(now).end + LastMs
  {
    WeekRangeIsMondayToSunday(now);
  }

  /** Day number of January 1 of the year of day d: `new Date(date.getFullYear(), 0, 1)`. */
  function Jan1(d: int): (j: int)
    ensures j == YearStart(YearOf(d)) && j <= d
  {
    DaysFromCivil(YearOf(d), 0, 1)
  }

  /**
   * The file's getWeekNumber as written: `(date - firstDayOfYear) / 86400000`
   * keeps the fraction of the day, so with w = getDay() of January 1 the
   * result is ceil((ms since January 1 + (w + 1) days) / 7 days), stated
   * here exactly in milliseconds.
   */
  function SundayWeekNumberAsWritten(t: Timestamp): (w: int)
    ensures 1 <= w <= 54
  {
    var jan1 := Jan1(DayOf(t));
    var pastMs := t - At(jan1, 0);
    CeilDiv(pastMs + (DayOfWeek(jan1) + 1) * MsPerDay, 7 * MsPerDay)
  }

  /**
   * The Sunday-start week number counted in whole days: week 1 runs from
   * January 1 to the first Saturday, and each Sunday starts the next week.
   */
  function SundayWeekNumber(t: Timestamp): (w: int)
    ensures 1 <= w <= 54
  {
    CeilDiv(SundayDayCount(DayOf(t)), 7)
  }

  /** Days from the Sunday on or before January 1 of d's year to d, both counted. */
  function SundayDayCount(d: int): int
  {
    DayOfYear(d) + DayOfWeek(Jan1(d)) + 1
  }

  /** Less the day itself, the count is the weekday of the day, up to whole weeks. */
  lemma SundayOffset(d: int)
    ensures (SundayDayCount(d) - 1) % 7 == DayOfWeek(d)
  {
    DayOfWeekShift(Jan1(d), DayOfYear(d));
  }

  /** The day count reaches a whole number of weeks exactly on Saturdays. */
  lemma SaturdayEndsWeek(d: int)
    ensures SundayDayCount(d) % 7 == 0 <==> DayOfWeek(d) == 6
  {
    SundayOffset(d);
    WeekEndCount(SundayDayCount(d), DayOfWeek(d));
  }

  lemma WeekEndCount(n: int, w: int)
    requires (n - 1) % 7 == w
    ensures n % 7 == 0 <==> w == 6
  {
  }

  /** ceil((n days + r ms) / 7 days) for 0 < r < one day. */
  lemma CeilWithFraction(n: int, r: int)
    requires 0 < r < MsPerDay
    ensures CeilDiv(n * MsPerDay + r, 7 * MsPerDay) == n / 7 + 1
  {
    var q := CeilDiv(n * MsPerDay + r, 7 * MsPerDay);
    var s := n % 7;
    assert n * MsPerDay + r == 7 * MsPerDay * (n / 7) + (s * MsPerDay + r);
  }

  /** At midnight the formula as written is the day count. */
  lemma AsWrittenAtMidnight(t: Timestamp)
    requires MsOfDay(t) == 0
    ensures SundayWeekNumberAsWritten(t) == SundayWeekNumber(t)
  {
    var d := DayOf(t);
    var n := SundayDayCount(d);
    assert t - At(Jan1(d), 0) + (DayOfWeek(Jan1(d)) + 1) * MsPerDay == n * MsPerDay;
    var q := CeilDiv(n, 7);
    assert CeilDiv(n * MsPerDay, 7 * MsPerDay) == q;
  }

  /** ceil((n days + r ms) / 7 days) is one more than ceil(n / 7) exactly when 7 divides n. */
  lemma CeilWithFractionCases(n: int, r: int)
    requires 0 < r < MsPerDay
    ensures CeilDiv(n * MsPerDay + r, 7 * MsPerDay) == (if n % 7 == 0 then CeilDiv(n, 7) + 1 else CeilDiv(n, 7))
  {
    CeilWithFraction(n, r);
  }

  /** The as-written formula in whole days n and the remaining milliseconds of the day. */
  lemma AsWrittenParts(t: Timestamp)
    ensures var d := DayOf(t);
            SundayWeekNumberAsWritten(t) ==
            CeilDiv(SundayDayCount(d) * MsPerDay + MsOfDay(t), 7 * MsPerDay)
  {
    var d := DayOf(t);
    var j := Jan1(d);
    assert DayOfYear(d) == d - j;
    assert t - At(j, 0) + (DayOfWeek(j) + 1) * MsPerDay
        == (DayOfYear(d) + DayOfWeek(j) + 1) * MsPerDay + MsOfDay(t);
  }

  /** After midnight the formula as written agrees with the day count on every day but Saturday. */
  lemma AsWrittenAfterMidnight(t: Timestamp)
    requires MsOfDay(t) > 0
    ensures SundayWeekNumberAsWritten(t) ==
            (if DayOfWeek(DayOf(t)) == 6 then SundayWeekNumber(t) + 1 else SundayWeekNumber(t))
  {
    var d := DayOf(t);
    AsWrittenParts(t);
    CeilWithFractionCases(SundayDayCount(d), MsOfDay(t));
    SaturdayEndsWeek(d);
  }

  /** Days 19723 (Monday 2024-01-01) to 20088 lie in 2024. */
  lemma In2024(d: int)
    requires 19723 <= d < 20089
    ensures YearOf(d) == 2024 && YearStart(2024) == 19723 && Jan1(d) == 19723
  {
    assert YearStart(2024) == 19723;
    YearStartStep(2024);
    YearOfUnique(d, 2024);
  }

  /** Saturday 2024-01-06 at 10:00 is counted in week 2, although its week is week 1. */
  lemma SaturdayMorningCounterexample()
    ensures CivilOf(At(19728, 10 * 3600000)) == Civil(2024, 0, 6) && DayOfWeek(19728) == 6
    ensures SundayWeekNumber(At(19728, 10 * 3600000)) == 1
    ensures SundayWeekNumberAsWritten(At(19728, 10 * 3600000)) == 2
  {
    In2024(19728);
    AtParts(19728, 10 * 3600000);
    CivilOfAt(Civil(2024, 0, 6), 10 * 3600000);
    AsWrittenAfterMidnight(At(19728, 10 * 3600000));
  }

  /** The day count keeps one number from a Sunday to the next Saturday within a year, at any time of day. */
  lemma SundayWeekConstant(d1: int, ms1: int, d2: int, ms2: int)
    requires 0 <= ms1 < MsPerDay && 0 <= ms2 < MsPerDay
    requires YearOf(d1) == YearOf(d2)
    requires d1 - DayOfWeek(d1) == d2 - DayOfWeek(d2)
    ensures SundayWeekNumber(At(d1, ms1)) == SundayWeekNumber(At(d2, ms2))
  {
    AtParts(d1, ms1);
    AtParts(d2, ms2);
    SundayOffset(d1);
    SundayOffset(d2);
    SameCountWeek(SundayDayCount(d1), SundayDayCount(d2), DayOfWeek(d1), DayOfWeek(d2));
  }

  /** Counts whose weekdays from Sunday line up in one week round up to one week number. */
  lemma SameCountWeek(n1: int, n2: int, w1: int, w2: int)
    requires (n1 - 1) % 7 == w1 && (n2 - 1) % 7 == w2 && n1 - w1 == n2 - w2
    ensures CeilDiv(n1, 7) == CeilDiv(n2, 7)
  {
  }

  /** The Sunday-start count is not the ISO 8601 week: Sunday 2024-01-07 is its week 2 and ISO week 1. */
  lemma SundayWeekIsNotIso()
    ensures CivilOf(At(19729, 0)) == Civil(2024, 0, 7) && DayOfWeek(19729) == 0
    ensures SundayWeekNumber(At(19729, 0)) == 2 && WeekNumber(At(19729, 0)) == 1
  {
    In2024(19729);
    CivilOfAt(Civil(2024, 0, 7), 0);
    SundayCountOfJan7();
    IsoWeekOfJan7();
  }

  lemma SundayCountOfJan7()
    ensures SundayWeekNumber(At(19729, 0)) == 2
  {
    In2024(19729);
    AtParts(19729, 0);
  }

  lemma IsoWeekOfJan7()
    ensures WeekNumber(At(19729, 0)) == 1
  {
    In2024(19726);
    AtParts(19729, 0);
    WeekNumberByDay(At(19729, 0));
    assert ThursdayOf(19729) == 19726;
  }

  /** The fixture ids, in the order of the three collections. */
  const FixtureIds: seq<string> := ["d1", "d2", "d3", "d4", "w1", "w2", "w3", "m1", "m2", "m3", "m4"]

  lemma FixtureIdsDistinct(goals: seq<Goal>)
    requires Ids(goals) == FixtureIds
    ensures DistinctIds(goals)
  {
    forall i, j | 0 <= i < j < |goals| ensures goals[i].id != goals[j].id {
      assert goals[i].id == FixtureIds[i] && goals[j].id == FixtureIds[j];
      assert FixtureIds[i][0] != FixtureIds[j][0] || FixtureIds[i][1] != FixtureIds[j][1];
    }
  }

  /** 08:30 as a millisecond of the day. */
  const HalfPastEight := (8 * 60 + 30) * 60 * 1000

  /** Goals that are completed exactly at the positions `done` lists, with completedAt in step. */
  predicate StatusesAre(goals: seq<Goal>, done: set<int>)
  {
    forall i :: 0 <= i < |goals| ==> (goals[i].status == Completed <==> i in done) && CompletedAtConsistent(goals[i])
  }

  /**
   * The daily fixtures. Each `setHours` call moves the one `today` object;
   * every fixture's `date` is that object, so all of them end at the
   * midnight the last call leaves.
   */
  method DailyFixtures(today: MutableDate) returns (daily: seq<Goal>)
    modifies today
    ensures today.time == At(DayOf(old(today.time)), 0)
    ensures Ids(daily) == FixtureIds[..4] && StatusesAre(daily, {0})
    ensures forall i :: 0 <= i < |daily| ==> daily[i].DailyGoal? && daily[i].date == today.time && daily[i].createdAt == today.time
    ensures daily[0].completedAt == Some(At(DayOf(old(today.time)), HalfPastEight))
  {
    ghost var day := DayOf(today.time);
    AtParts(day, 0);
    AtParts(day, HalfPastEight);
    var created1 := today.SetHours(0, 0, 0, 0);
    assert created1 == At(day, 0);
    var completed1 := today.SetHours(8, 30, 0, 0);
    assert completed1 == At(day, HalfPastEight);
    var created2 := today.SetHours(0, 0, 0, 0);
    assert created2 == At(day, 0);
    var created3 := today.SetHours(0, 0, 0, 0);
    var created4 := today.SetHours(0, 0, 0, 0);
    assert created3 == created4 == created2;
    var date := today.time;
    daily := [
      DailyGoal("d1", "5km Run", Some("Morning run at a moderate pace"), Completed, created1, Some(completed1), date),
      DailyGoal("d2", "Upper Body Workout", Some("Focus on chest and back"), InProgress, created2, None, date),
      DailyGoal("d3", "Yoga Session", Some("30 minutes of stretching and relaxation"), NotStarted, created3, None, date),
      DailyGoal("d4", "10,000 Steps", Some("Daily step goal"), InProgress, created4, None, date)
    ];
  }

  /** The weekly fixtures, all for the current week. */
  function WeeklyFixtures(startDate: Timestamp, endDate: Timestamp, weekNumber: int, year: int): (weekly: seq<Goal>)
    ensures Ids(weekly) == FixtureIds[4..7] && StatusesAre(weekly, {})
    ensures forall i :: 0 <= i < |weekly| ==>
              weekly[i].WeeklyGoal? && weekly[i].createdAt == startDate && weekly[i].weekNumber == weekNumber &&
              weekly[i].year == year && weekly[i].startDate == startDate && weekly[i].endDate == endDate
  {
    [
      WeeklyGoal("w1", "Run 20km Total", Some("Spread across 3-4 sessions"), InProgress, startDate, None,
                 weekNumber, year, startDate, endDate),
      WeeklyGoal("w2", "3 Strength Training Sessions", Some("Focus on progressive overload"), InProgress, startDate, None,
                 weekNumber, year, startDate, endDate),
      WeeklyGoal("w3", "2 Yoga/Flexibility Sessions", Some("For recovery and mobility"), NotStarted, startDate, None,
                 weekNumber, year, startDate, endDate)
    ]
  }

  /** The monthly fixtures, all for the current 0-based month, created on its first day. */
  function MonthlyFixtures(month: int, year: int): (monthly: seq<Goal>)
    requires 0 <= month < 12
    ensures Ids(monthly) == FixtureIds[7..] && StatusesAre(monthly, {})
    ensures forall i :: 0 <= i < |monthly| ==>
              monthly[i].MonthlyGoal? && monthly[i].month == month && monthly[i].year == year &&
              monthly[i].createdAt == At(DaysFromCivil(year, month, 1), 0)
  {
    var firstOfMonth := At(DaysFromCivil(year, month, 1), 0);
    [
      MonthlyGoal("m1", "Run 80km Total", Some("Monthly distance goal"), InProgress, firstOfMonth, None, month, year),
      MonthlyGoal("m2", "Increase Bench Press by 5kg", Some("Progressive strength improvement"), NotStarted, firstOfMonth, None, month, year),
      MonthlyGoal("m3", "Try 2 New Workout Classes", Some("Expand fitness horizons"), InProgress, firstOfMonth, None, month, year),
      MonthlyGoal("m4", "Complete 12 Strength Sessions", Some("Consistency goal"), InProgress, firstOfMonth, None, month, year)
    ]
  }

  /**
   * The module's top level: `today`, the week's dates, the week number, the
   * month and the year, then the fixtures. The week number is the day count,
   * not the formula as written (see SundayWeekNumberAsWritten). Every fixture
   * is in its bucket for now.
   */
  method BuildFixtures(now: Timestamp) returns (daily: seq<Goal>, weekly: seq<Goal>, monthly: seq<Goal>)
    ensures Ids(daily + weekly + monthly) == FixtureIds && DistinctIds(daily + weekly + monthly)
    ensures AllConsistent(daily + weekly + monthly)
    ensures StatusesAre(daily, {0}) && StatusesAre(weekly, {}) && StatusesAre(monthly, {})
    ensures forall i :: 0 <= i < |daily| ==> daily[i].DailyGoal? && daily[i].date == At(DayOf(now), 0)
    ensures |daily| == 4 && daily[0].completedAt == Some(At(DayOf(now), HalfPastEight))
    ensures forall i :: 0 <= i < |weekly| ==>
              weekly[i].WeeklyGoal? && weekly[i].weekNumber == SundayWeekNumber(now) &&
              weekly[i].year == CivilOf(now).year &&
              weekly[i].startDate == At(MondayOf(DayOf(now)), 0) &&
              weekly[i].endDate == At(MondayOf(DayOf(now)) + 6, LastMs)
    ensures forall i :: 0 <= i < |monthly| ==>
              monthly[i].MonthlyGoal? && monthly[i].month == CivilOf(now).month && monthly[i].year == CivilOf(now).year
    ensures DailyBucket(daily, now) == daily && WeeklyBucket(weekly, now) == weekly && MonthlyBucket(monthly, now) == monthly
  {
    var today := new MutableDate(now);
    var startDate, endDate := GetCurrentWeekDates(now);
    var currentWeekNumber := SundayWeekNumber(today.time);
    var currentMonth := today.GetMonth();
    var currentYear := today.GetFullYear();
    daily := DailyFixtures(today);
    weekly := WeeklyFixtures(startDate, endDate, currentWeekNumber, currentYear);
    monthly := MonthlyFixtures(currentMonth, currentYear);
    FixturesCombined(daily, weekly, monthly);
    FixturesInBuckets(now, daily, weekly, monthly);
  }

  lemma FixturesCombined(daily: seq<Goal>, weekly: seq<Goal>, monthly: seq<Goal>)
    requires Ids(daily) == FixtureIds[..4] && Ids(weekly) == FixtureIds[4..7] && Ids(monthly) == FixtureIds[7..]
    requires StatusesAre(daily, {0}) && StatusesAre(weekly, {}) && StatusesAre(monthly, {})
    ensures Ids(daily + weekly + monthly) == FixtureIds && DistinctIds(daily + weekly + monthly)
    ensures AllConsistent(daily + weekly + monthly)
  {
    var all := daily + weekly + monthly;
    assert Ids(all) == Ids(daily) + Ids(weekly) + Ids(monthly);
    assert FixtureIds == FixtureIds[..4] + FixtureIds[4..7] + FixtureIds[7..];
    FixtureIdsDistinct(all);
    forall i | 0 <= i < |all| ensures CompletedAtConsistent(all[i]) {
      if i < 4 { assert all[i] == daily[i]; }
      else if i < 7 { assert all[i] == weekly[i - 4]; }
      else { assert all[i] == monthly[i - 7]; }
    }
  }

  lemma FixturesInBuckets(now: Timestamp, daily: seq<Goal>, weekly: seq<Goal>, monthly: seq<Goal>)
    requires forall i :: 0 <= i < |daily| ==> daily[i].DailyGoal? && daily[i].date == At(DayOf(now), 0)
    requires forall i :: 0 <= i < |weekly| ==> weekly[i].WeeklyGoal? && weekly[i].startDate <= now <= weekly[i].endDate
    requires forall i :: 0 <= i < |monthly| ==>
               monthly[i].MonthlyGoal? && monthly[i].month == CivilOf(now).month && monthly[i].year == CivilOf(now).year
    ensures DailyBucket(daily, now) == daily && WeeklyBucket(weekly, now) == weekly && MonthlyBucket(monthly, now) == monthly
  {
    AtParts(DayOf(now), 0);
    FilterKeepsAll(daily, g => OnDay(g, now));
    FilterKeepsAll(weekly, g => ActiveOn(g, now));
    FilterKeepsAll(monthly, g => InMonthOf(g, now));
  }
}
