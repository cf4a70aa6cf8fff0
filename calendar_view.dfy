/**
 * The calendar tab (src/components/dashboard/CalendarView.tsx): the goal
 * store seeded with the fixtures, the selected date and view mode, the three
 * buckets of the selected date, and the sections each view mode renders.
 * The status handlers are GoalStore's.
 */
module CalendarScreen {
  import opened Types
  import opened Buckets
  import opened Store
  import opened MockData

  /** One part of the goal card: a headed list of goals, or an empty-state note with an optional heading. */
  datatype Section = Listed(heading: string, goals: seq<Goal>) | Empty(caption: Option<string>, note: string)

  /** The goals a sequence of sections lists, in order. */
  function ListedGoals(sections: seq<Section>): seq<Goal>
    decreases |sections|
  {
    if sections == [] then []
    else (if sections[0].Listed? then sections[0].goals else []) + ListedGoals(sections[1..])
  }

  /**
   * The view-mode branch of the card: the day view lists the daily bucket or
   * says there is none, then the weekly bucket only when it is non-empty; the
   * week and month views head their bucket and say when it is empty.
   */
  function Sections(mode: ViewMode, b: DateBuckets): (r: seq<Section>)
    ensures ListedGoals(r) == ShownGoals(mode, b)
    ensures forall i :: 0 <= i < |r| && r[i].Listed? ==> |r[i].goals| > 0
    ensures 1 <= |r| <= 2
    ensures mode == DayView ==> r[0] == (if |b.daily| > 0 then Listed("Daily Goals", b.daily) else Empty(None, "No daily goals for this date."))
    ensures mode == WeekView ==> |r| == 1 && (r[0].Empty? <==> |b.weekly| == 0)
    ensures mode == MonthView ==> |r| == 1 && (r[0].Empty? <==> |b.monthly| == 0)
  {
    match mode
    case DayView =>
      var first := if |b.daily| > 0 then Listed("Daily Goals", b.daily) else Empty(None, "No daily goals for this date.");
      var r := [first] + (if |b.weekly| > 0 then [Listed("Weekly Goals (Active)", b.weekly)] else []);
      assert ListedGoals(r) == b.daily + b.weekly by {
        assert ListedGoals(r) == (if first.Listed? then first.goals else []) + ListedGoals(r[1..]);
        if |b.weekly| > 0 {
          assert r[1..] == [Listed("Weekly Goals (Active)", b.weekly)];
          assert ListedGoals(r[1..]) == b.weekly + ListedGoals(r[2..]);
          assert r[2..] == [];
        } else {
          assert r[1..] == [];
        }
      }
      r
    case WeekView =>
      var r := [if |b.weekly| > 0 then Listed("Weekly Goals", b.weekly) else Empty(Some("Weekly Goals"), "No weekly goals for this period.")];
      assert r[1..] == [];
      r
    case MonthView =>
      var r := [if |b.monthly| > 0 then Listed("Monthly Goals", b.monthly) else Empty(Some("Monthly Goals"), "No monthly goals for this period.")];
      assert r[1..] == [];
      r
  }

  /** The value of a view mode's select item. */
  function ViewModeName(mode: ViewMode): string
  {
    match mode
    case DayView => "day"
    case WeekView => "week"
    case MonthView => "month"
  }

  /** The view select's values. */
  function ParseViewMode(w: string): (r: Option<ViewMode>)
    ensures r.Some? <==> w in {"day", "week", "month"}
    ensures r.Some? ==> ViewModeName(r.value) == w
  {
    if w == "day" then Some(DayView)
    else if w == "week" then Some(WeekView)
    else if w == "month" then Some(MonthView)
    else None
  }

  lemma ViewModeNameRoundTrip(mode: ViewMode)
    ensures ParseViewMode(ViewModeName(mode)) == Some(mode)
  {
  }

  class CalendarView {
    const store: GoalStore
    var date: Timestamp
    var viewMode: ViewMode

    /** The first render at `now`: today selected, the day view, the fixtures in the store. */
    constructor(now: Timestamp)
      ensures fresh(store) && store.Valid() && Ids(store.All()) == FixtureIds
      ensures date == now && viewMode == DayView
      ensures Selected() == DateBuckets(store.daily, store.weekly, store.monthly)
    {
      var daily, weekly, monthly := BuildFixtures(now);
      store := new GoalStore(daily, weekly, monthly);
      date := now;
      viewMode := DayView;
    }

    /** handleDateSelect: a picked date replaces the selection; no date leaves it. */
    method HandleDateSelect(newDate: Option<Timestamp>)
      modifies this`date
      ensures date == if newDate.Some? then newDate.value else old(date)
    {
      if newDate.Some? {
        date := newDate.value;
      }
    }

    method SetViewMode(mode: ViewMode)
      modifies this`viewMode
      ensures viewMode == mode
    {
      viewMode := mode;
    }

    /** getGoalsForDate(date): the three buckets of the selected date. */
    function Selected(): (b: DateBuckets)
      reads this, store
      ensures forall g :: g in b.daily <==> g in store.daily && OnDay(g, date)
      ensures forall g :: g in b.weekly <==> g in store.weekly && ActiveOn(g, date)
      ensures forall g :: g in b.monthly <==> g in store.monthly && InMonthOf(g, date)
    {
      GoalsForDate(store.daily, store.weekly, store.monthly, date)
    }

    /** What the card shows for the selected date and view mode. */
    function Shown(): (r: seq<Section>)
      reads this, store
      ensures ListedGoals(r) == ShownGoals(viewMode, Selected())
    {
      Sections(viewMode, Selected())
    }
  }
}
