/**
 * Which goals belong to a reference date: the three filters of
 * getGoalsForDate (CalendarView.tsx; Overview.tsx keeps only the daily one)
 * and the buckets each calendar view mode shows.
 */
module Buckets {
  import opened Types
  import opened Calendar

  /** Array.prototype.filter. */
  function Filter(s: seq<Goal>, p: Goal -> bool): (r: seq<Goal>)
    ensures forall x :: x in r <==> x in s && p(x)
    ensures |r| <= |s|
    decreases |s|
  {
    if s == [] then [] else (if p(s[0]) then [s[0]] else []) + Filter(s[1..], p)
  }

  /** a is b with some elements left out, the rest in their order. */
  predicate IsSubsequence(a: seq<Goal>, b: seq<Goal>)
    decreases |b|
  {
    a == [] || (b != [] && ((a[0] == b[0] && IsSubsequence(a[1..], b[1..])) || IsSubsequence(a, b[1..])))
  }

  /** A filter keeps the original order. */
  lemma {:induction false} FilterIsSubsequence(s: seq<Goal>, p: Goal -> bool)
    ensures IsSubsequence(Filter(s, p), s)
    decreases |s|
  {
    if s != [] {
      FilterIsSubsequence(s[1..], p);
      var r := Filter(s, p);
      if p(s[0]) {
        assert r == [s[0]] + Filter(s[1..], p);
        assert r[0] == s[0] && r[1..] == Filter(s[1..], p);
      } else {
        assert r == Filter(s[1..], p);
      }
    }
  }

  /** A filter keeps every occurrence of a matching goal and no other goal. */
  lemma {:induction false} FilterCounts(s: seq<Goal>, p: Goal -> bool, x: Goal)
    ensures multiset(Filter(s, p))[x] == if p(x) then multiset(s)[x] else 0
    decreases |s|
  {
    if s != [] {
      FilterCounts(s[1..], p, x);
      assert s == [s[0]] + s[1..];
      assert multiset(s) == multiset([s[0]]) + multiset(s[1..]);
    }
  }

  /** A filter that every goal passes keeps the whole collection. */
  lemma {:induction false} FilterKeepsAll(s: seq<Goal>, p: Goal -> bool)
    requires forall i :: 0 <= i < |s| ==> p(s[i])
    ensures Filter(s, p) == s
    decreases |s|
  {
    if s != [] {
      FilterKeepsAll(s[1..], p);
      assert s == [s[0]] + s[1..];
    }
  }

  /** `a.toDateString() === b.toDateString()`: the same local calendar date. */
  predicate SameCalendarDay(a: Timestamp, b: Timestamp)
  {
    CivilOf(a) == CivilOf(b)
  }

  lemma SameCalendarDayIsSameDay(a: Timestamp, b: Timestamp)
    ensures SameCalendarDay(a, b) <==> DayOf(a) == DayOf(b)
  {
    CivilInjective(DayOf(a), DayOf(b));
  }

  /** The daily filter: the goal's date is on the calendar day of `date`. */
  predicate OnDay(g: Goal, date: Timestamp)
    ensures OnDay(g, date) <==> g.DailyGoal? && DayOf(g.date) == DayOf(date)
  {
    g.DailyGoal? && (SameCalendarDayIsSameDay(g.date, date); SameCalendarDay(g.date, date))
  }

  /** The weekly filter: `date >= goal.startDate && date <= goal.endDate`, as timestamps. */
  predicate ActiveOn(g: Goal, date: Timestamp)
    ensures ActiveOn(g, date) ==> g.WeeklyGoal? && DayOf(g.startDate) <= DayOf(date) <= DayOf(g.endDate)
  {
    g.WeeklyGoal? && g.startDate <= date <= g.endDate
  }

  /** The monthly filter: the 0-based month and the year of `date`. */
  predicate InMonthOf(g: Goal, date: Timestamp)
    ensures InMonthOf(g, date) ==> g.MonthlyGoal? && 0 <= g.month < 12 && InYear(DayOf(date), g.year)
  {
    g.MonthlyGoal? && g.month == CivilOf(date).month && g.year == CivilOf(date).year
  }

  function DailyBucket(goals: seq<Goal>, date: Timestamp): seq<Goal>
  {
    Filter(goals, g => OnDay(g, date))
  }

  function WeeklyBucket(goals: seq<Goal>, date: Timestamp): seq<Goal>
  {
    Filter(goals, g => ActiveOn(g, date))
  }

  function MonthlyBucket(goals: seq<Goal>, date: Timestamp): seq<Goal>
  {
    Filter(goals, g => InMonthOf(g, date))
  }

  datatype DateBuckets = DateBuckets(daily: seq<Goal>, weekly: seq<Goal>, monthly: seq<Goal>)

  /** CalendarView's getGoalsForDate. */
  function GoalsForDate(daily: seq<Goal>, weekly: seq<Goal>, monthly: seq<Goal>, date: Timestamp): (b: DateBuckets)
    ensures IsSubsequence(b.daily, daily) && IsSubsequence(b.weekly, weekly) && IsSubsequence(b.monthly, monthly)
    ensures forall g :: g in b.daily <==> g in daily && OnDay(g, date)
    ensures forall g :: g in b.weekly <==> g in weekly && ActiveOn(g, date)
    ensures forall g :: g in b.monthly <==> g in monthly && InMonthOf(g, date)
  {
    FilterIsSubsequence(daily, g => OnDay(g, date));
    FilterIsSubsequence(weekly, g => ActiveOn(g, date));
    FilterIsSubsequence(monthly, g => InMonthOf(g, date));
    DateBuckets(DailyBucket(daily, date), WeeklyBucket(weekly, date), MonthlyBucket(monthly, date))
  }

  /** The calendar's select: "day", "week" or "month". */
  datatype ViewMode = DayView | WeekView | MonthView

  /** The goals a view mode lists, in the order it lists them. */
  function ShownGoals(mode: ViewMode, b: DateBuckets): (r: seq<Goal>)
    ensures forall g :: g in r <==>
      match mode
      case DayView => g in b.daily || g in b.weekly
      case WeekView => g in b.weekly
      case MonthView => g in b.monthly
  {
    match mode
    case DayView => b.daily + b.weekly
    case WeekView => b.weekly
    case MonthView => b.monthly
  }

  /** Every goal a view shows belongs to the selected date, and every such goal is shown. */
  lemma ShownBelongToDate(mode: ViewMode, daily: seq<Goal>, weekly: seq<Goal>, monthly: seq<Goal>, date: Timestamp, g: Goal)
    ensures g in ShownGoals(mode, GoalsForDate(daily, weekly, monthly, date)) <==>
      match mode
      case DayView => (g in daily && OnDay(g, date)) || (g in weekly && ActiveOn(g, date))
      case WeekView => g in weekly && ActiveOn(g, date)
      case MonthView => g in monthly && InMonthOf(g, date)
  {
  }

  /** A daily goal is in the bucket of its own calendar day and of no other day. */
  lemma DailyBucketExclusive(g: Goal, date: Timestamp)
    requires g.DailyGoal?
    ensures g in DailyBucket([g], date) <==> DayOf(date) == DayOf(g.date)
  {
    SameCalendarDayIsSameDay(g.date, date);
  }

  /**
   * A weekly goal whose range runs from a Monday 00:00:00.000 to the Sunday
   * 23:59:59.999 six days on is active on exactly those seven days.
   */
  lemma WeeklyBucketWholeDays(g: Goal, first: int, date: Timestamp)
    requires g.WeeklyGoal? && g.startDate == At(first, 0) && g.endDate == At(first + 6, MsPerDay - 1)
    ensures ActiveOn(g, date) <==> first <= DayOf(date) <= first + 6
  {
  }

  /**
   * With getWeekRange's end, midnight of the Sunday, the Sunday is active only
   * at the stroke of midnight: every later time that day is left out.
   */
  lemma WeeklyBucketMidnightEnd(g: Goal, first: int, date: Timestamp)
    requires g.WeeklyGoal? && g.startDate == At(first, 0) && g.endDate == At(first + 6, 0)
    ensures ActiveOn(g, date) <==> (first <= DayOf(date) < first + 6 || date == At(first + 6, 0))
  {
  }

  /** A monthly goal for the 0-based month 5 of 2024 (June) shows on 2024-06-15, not on 2024-07-01. */
  lemma JuneGoalScenario(g: Goal)
    requires g.MonthlyGoal? && g.month == 5 && g.year == 2024
    ensures InMonthOf(g, At(DaysOf(Civil(2024, 5, 15)), 0))
    ensures !InMonthOf(g, At(DaysOf(Civil(2024, 6, 1)), 0))
  {
    CivilOfAt(Civil(2024, 5, 15), 0);
    CivilOfAt(Civil(2024, 6, 1), 0);
  }
}
