/**
 * The overview tab (src/components/dashboard/Overview.tsx): the goal store
 * seeded with the fixtures, the seven days of the current week, and the daily
 * goals shown under each day. The status handlers are GoalStore's.
 */
module OverviewScreen {
  import opened Types
  import opened Calendar
  import opened DateUtils
  import opened Buckets
  import opened Store
  import opened MockData

  /** The first setDate call lands on the Monday of the week, at the same time of day. */
  lemma MondayShift(today: Timestamp)
    ensures var back := DaysToMonday(DayOfWeek(DayOf(today)));
            DayOf(today - back * MsPerDay) == MondayOf(DayOf(today)) && MsOfDay(today - back * MsPerDay) == MsOfDay(today)
  {
    DaysBack(today, DaysToMonday(DayOfWeek(DayOf(today))));
  }

  /** `setDate(getDate() + i)` on a copy moves i days on and keeps the time of day. */
  lemma DaysOn(t: Timestamp, i: int)
    ensures DayOf(t + i * MsPerDay) == DayOf(t) + i && MsOfDay(t + i * MsPerDay) == MsOfDay(t)
  {
  }

  /**
   * getDaysOfWeek: the Monday of today's week and the six days after it, each
   * a copy of the Monday moved with setDate, so each keeps today's time of day.
   */
  method GetDaysOfWeek(today: Timestamp) returns (days: seq<Timestamp>)
    ensures |days| == 7
    ensures forall i :: 0 <= i < 7 ==>
              DayOf(days[i]) == MondayOf(DayOf(today)) + i && MsOfDay(days[i]) == MsOfDay(today)
    ensures DayOfWeek(DayOf(days[0])) == 1 && DayOfWeek(DayOf(days[6])) == 0
  {
    var todayDate := new MutableDate(today);
    var currentDay := todayDate.GetDay();
    var startDate := new MutableDate(today);
    var _ := startDate.SetDate(todayDate.GetDate() - DaysToMonday(currentDay));
    ghost var monday := MondayOf(DayOf(today));
    ghost var ms := MsOfDay(today);
    MondayShift(today);
    ghost var start := startDate.time;
    days := [];
    for i := 0 to 7
      invariant startDate.time == start
      invariant |days| == i
      invariant forall j :: 0 <= j < i ==> days[j] == start + j * MsPerDay
    {
      var date := new MutableDate(startDate.time);
      var _ := date.SetDate(startDate.GetDate() + i);
      assert date.time == start + i * MsPerDay;
      days := days + [date.time];
    }
    forall j | 0 <= j < 7
      ensures DayOf(days[j]) == monday + j && MsOfDay(days[j]) == ms
    {
      DaysOn(start, j);
    }
    SundayAfter(monday);
  }

  lemma SundayAfter(m: int)
    requires DayOfWeek(m) == 1
    ensures DayOfWeek(m + 6) == 0
  {
    DayOfWeekShift(m, 6);
  }

  class Overview {
    const store: GoalStore
    const weekDays: seq<Timestamp>

    /** The first render at `now`: the fixtures in the store, and this week's days. */
    constructor(now: Timestamp)
      ensures fresh(store) && store.Valid()
      ensures Ids(store.All()) == FixtureIds
      ensures |weekDays| == 7 && forall i :: 0 <= i < 7 ==> DayOf(weekDays[i]) == MondayOf(DayOf(now)) + i
      ensures DailyBucket(store.daily, now) == store.daily
    {
      var daily, weekly, monthly := BuildFixtures(now);
      var days := GetDaysOfWeek(now);
      store := new GoalStore(daily, weekly, monthly);
      weekDays := days;
    }

    /** getGoalsForDate: the daily goals on the calendar day of `date`, in their order. */
    function GoalsForDate(date: Timestamp): (r: seq<Goal>)
      reads store
      ensures forall g :: g in r <==> g in store.daily && OnDay(g, date)
      ensures IsSubsequence(r, store.daily)
    {
      Buckets.GoalsForDate(store.daily, store.weekly, store.monthly, date).daily
    }
  }
}
