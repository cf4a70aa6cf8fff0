/**
 * The goal state that Overview.tsx and CalendarView.tsx each keep: the three
 * collections, the side table of remembered statuses, the status handlers and
 * the observer effect. React re-runs the effect after every render in which a
 * collection changed; here it runs at the end of every handler.
 */
module Store {
  import opened Types
  import opened Lifecycle

  class GoalStore {
    var daily: seq<Goal>
    var weekly: seq<Goal>
    var monthly: seq<Goal>
    var prevStatuses: map<string, Status>

    /** `[...localDailyGoals, ...localWeeklyGoals, ...localMonthlyGoals]` */
    function All(): seq<Goal>
      reads this
    {
      daily + weekly + monthly
    }

    /**
     * Each collection holds its own variant, ids are distinct across all of
     * them, and the side table already reflects every goal and never holds
     * `completed`.
     */
    ghost predicate Valid()
      reads this
    {
      (forall i :: 0 <= i < |daily| ==> daily[i].DailyGoal?) &&
      (forall i :: 0 <= i < |weekly| ==> weekly[i].WeeklyGoal?) &&
      (forall i :: 0 <= i < |monthly| ==> monthly[i].MonthlyGoal?) &&
      DistinctIds(All()) &&
      NeverCompleted(prevStatuses) &&
      Recorded(prevStatuses, All()) == prevStatuses
    }

    /** The initial state from the seed collections, after the effect's first run. */
    constructor(d: seq<Goal>, w: seq<Goal>, m: seq<Goal>)
      requires forall i :: 0 <= i < |d| ==> d[i].DailyGoal?
      requires forall i :: 0 <= i < |w| ==> w[i].WeeklyGoal?
      requires forall i :: 0 <= i < |m| ==> m[i].MonthlyGoal?
      requires DistinctIds(d + w + m)
      ensures Valid()
      ensures daily == d && weekly == w && monthly == m
      ensures prevStatuses == Recorded(map[], d + w + m)
    {
      daily, weekly, monthly := d, w, m;
      new;
      RecordedNeverCompleted(map[], d + w + m);
      RecordedIdempotent(map[], d + w + m);
      prevStatuses := RecordPrevStatuses(map[], daily + weekly + monthly);
    }

    /** The effect body: the side table updated by every goal. */
    method Observe()
      requires DistinctIds(All()) && NeverCompleted(prevStatuses)
      modifies this`prevStatuses
      ensures prevStatuses == Recorded(old(prevStatuses), All())
      ensures NeverCompleted(prevStatuses) && Recorded(prevStatuses, All()) == prevStatuses
    {
      RecordedNeverCompleted(prevStatuses, All());
      RecordedIdempotent(prevStatuses, All());
      prevStatuses := RecordPrevStatuses(prevStatuses, daily + weekly + monthly);
    }

    /** handleDailyGoalStatusChange, followed by the effect. */
    method HandleDailyGoalStatusChange(id: string, s: Status, now: Timestamp)
      requires Valid()
      modifies this
      ensures Valid()
      ensures daily == UpdateStatusById(old(daily), id, s, now)
      ensures weekly == old(weekly) && monthly == old(monthly)
      ensures prevStatuses == Recorded(old(prevStatuses), All())
    {
      UpdateKeepsIds(daily, weekly, monthly, id, s, now, 0);
      daily := UpdateStatusById(daily, id, s, now);
      Observe();
    }

    /** handleWeeklyGoalStatusChange, followed by the effect. */
    method HandleWeeklyGoalStatusChange(id: string, s: Status, now: Timestamp)
      requires Valid()
      modifies this
      ensures Valid()
      ensures weekly == UpdateStatusById(old(weekly), id, s, now)
      ensures daily == old(daily) && monthly == old(monthly)
      ensures prevStatuses == Recorded(old(prevStatuses), All())
    {
      UpdateKeepsIds(daily, weekly, monthly, id, s, now, 1);
      weekly := UpdateStatusById(weekly, id, s, now);
      Observe();
    }

    /** handleMonthlyGoalStatusChange, followed by the effect. */
    method HandleMonthlyGoalStatusChange(id: string, s: Status, now: Timestamp)
      requires Valid()
      modifies this
      ensures Valid()
      ensures monthly == UpdateStatusById(old(monthly), id, s, now)
      ensures daily == old(daily) && weekly == old(weekly)
      ensures prevStatuses == Recorded(old(prevStatuses), All())
    {
      UpdateKeepsIds(daily, weekly, monthly, id, s, now, 2);
      monthly := UpdateStatusById(monthly, id, s, now);
      Observe();
    }

    /** handleStatusChange: the goal's variant picks the collection. */
    method HandleStatusChange(goal: Goal, s: Status, now: Timestamp)
      requires Valid()
      modifies this
      ensures Valid()
      ensures daily == if goal.DailyGoal? then UpdateStatusById(old(daily), goal.id, s, now) else old(daily)
      ensures weekly == if goal.WeeklyGoal? then UpdateStatusById(old(weekly), goal.id, s, now) else old(weekly)
      ensures monthly == if goal.MonthlyGoal? then UpdateStatusById(old(monthly), goal.id, s, now) else old(monthly)
      ensures prevStatuses == Recorded(old(prevStatuses), All())
    {
      match goal
      case DailyGoal(_, _, _, _, _, _, _) => HandleDailyGoalStatusChange(goal.id, s, now);
      case WeeklyGoal(_, _, _, _, _, _, _, _, _, _) => HandleWeeklyGoalStatusChange(goal.id, s, now);
      case MonthlyGoal(_, _, _, _, _, _, _, _) => HandleMonthlyGoalStatusChange(goal.id, s, now);
    }

    /** handleCheckboxChange: completed when checked, the remembered status when unchecked. */
    method HandleCheckboxChange(goal: Goal, checked: bool, now: Timestamp)
      requires Valid()
      modifies this
      ensures Valid()
      ensures var s := CheckboxStatus(checked, old(prevStatuses), goal.id);
              daily == (if goal.DailyGoal? then UpdateStatusById(old(daily), goal.id, s, now) else old(daily)) &&
              weekly == (if goal.WeeklyGoal? then UpdateStatusById(old(weekly), goal.id, s, now) else old(weekly)) &&
              monthly == (if goal.MonthlyGoal? then UpdateStatusById(old(monthly), goal.id, s, now) else old(monthly))
      ensures prevStatuses == Recorded(old(prevStatuses), All())
    {
      var s := CheckboxStatus(checked, prevStatuses, goal.id);
      HandleStatusChange(goal, s, now);
    }
  }

  /** Updating one collection keeps the ids, and so the distinctness, of all three. */
  lemma UpdateKeepsIds(d: seq<Goal>, w: seq<Goal>, m: seq<Goal>, id: string, s: Status, now: Timestamp, which: int)
    requires DistinctIds(d + w + m)
    requires forall i :: 0 <= i < |d| ==> d[i].DailyGoal?
    requires forall i :: 0 <= i < |w| ==> w[i].WeeklyGoal?
    requires forall i :: 0 <= i < |m| ==> m[i].MonthlyGoal?
    ensures var d' := if which == 0 then UpdateStatusById(d, id, s, now) else d;
            var w' := if which == 1 then UpdateStatusById(w, id, s, now) else w;
            var m' := if which == 2 then UpdateStatusById(m, id, s, now) else m;
            DistinctIds(d' + w' + m') &&
            (forall i :: 0 <= i < |d'| ==> d'[i].DailyGoal?) &&
            (forall i :: 0 <= i < |w'| ==> w'[i].WeeklyGoal?) &&
            (forall i :: 0 <= i < |m'| ==> m'[i].MonthlyGoal?)
  {
    var d' := if which == 0 then UpdateStatusById(d, id, s, now) else d;
    var w' := if which == 1 then UpdateStatusById(w, id, s, now) else w;
    var m' := if which == 2 then UpdateStatusById(m, id, s, now) else m;
    UpdateKeepsGoals(d, id, s, now);
    UpdateKeepsGoals(w, id, s, now);
    UpdateKeepsGoals(m, id, s, now);
    var before := d + w + m;
    var after := d' + w' + m';
    assert |after| == |before|;
    forall i | 0 <= i < |before| ensures after[i].id == before[i].id {
      if i < |d| {
        assert after[i] == d'[i] && before[i] == d[i];
      } else if i < |d| + |w| {
        assert after[i] == w'[i - |d|] && before[i] == w[i - |d|];
      } else {
        assert after[i] == m'[i - |d| - |w|] && before[i] == m[i - |d| - |w|];
      }
    }
  }

  /**
   * Updating the one collection that can hold the id is the update of the
   * concatenation of all three.
   */
  lemma UpdateOneIsUpdateAll(d: seq<Goal>, w: seq<Goal>, m: seq<Goal>, id: string, s: Status, now: Timestamp, which: int)
    requires 0 <= which < 3
    requires which != 0 ==> forall i :: 0 <= i < |d| ==> d[i].id != id
    requires which != 1 ==> forall i :: 0 <= i < |w| ==> w[i].id != id
    requires which != 2 ==> forall i :: 0 <= i < |m| ==> m[i].id != id
    ensures (if which == 0 then UpdateStatusById(d, id, s, now) else d) +
            (if which == 1 then UpdateStatusById(w, id, s, now) else w) +
            (if which == 2 then UpdateStatusById(m, id, s, now) else m)
         == UpdateStatusById(d + w + m, id, s, now)
  {
    UpdateConcat(d + w, m, id, s, now);
    UpdateConcat(d, w, id, s, now);
    if which != 0 { UpdateMissingId(d, id, s, now); }
    if which != 1 { UpdateMissingId(w, id, s, now); }
    if which != 2 { UpdateMissingId(m, id, s, now); }
  }

  /** The collection a goal's variant selects: 0 daily, 1 weekly, 2 monthly. */
  function Collection(g: Goal): (which: int)
    ensures 0 <= which < 3
    ensures (which == 0 <==> g.DailyGoal?) && (which == 1 <==> g.WeeklyGoal?) && (which == 2 <==> g.MonthlyGoal?)
  {
    match g
    case DailyGoal(_, _, _, _, _, _, _) => 0
    case WeeklyGoal(_, _, _, _, _, _, _, _, _, _) => 1
    case MonthlyGoal(_, _, _, _, _, _, _, _) => 2
  }

  /** With distinct ids, a goal's id occurs in no collection other than the one its variant selects. */
  lemma OwnCollectionOnly(d: seq<Goal>, w: seq<Goal>, m: seq<Goal>, k: int)
    requires forall i :: 0 <= i < |d| ==> d[i].DailyGoal?
    requires forall i :: 0 <= i < |w| ==> w[i].WeeklyGoal?
    requires forall i :: 0 <= i < |m| ==> m[i].MonthlyGoal?
    requires DistinctIds(d + w + m) && 0 <= k < |d + w + m|
    ensures var g := (d + w + m)[k];
            (Collection(g) != 0 ==> forall i :: 0 <= i < |d| ==> d[i].id != g.id) &&
            (Collection(g) != 1 ==> forall i :: 0 <= i < |w| ==> w[i].id != g.id) &&
            (Collection(g) != 2 ==> forall i :: 0 <= i < |m| ==> m[i].id != g.id)
  {
    var all := d + w + m;
    var g := all[k];
    forall i | 0 <= i < |d| && Collection(g) != 0 ensures d[i].id != g.id {
      assert all[i] == d[i];
    }
    forall i | 0 <= i < |w| && Collection(g) != 1 ensures w[i].id != g.id {
      assert all[|d| + i] == w[i];
    }
    forall i | 0 <= i < |m| && Collection(g) != 2 ensures m[i].id != g.id {
      assert all[|d| + |w| + i] == m[i];
    }
  }

  /** Concatenations of equally long parts are equal only part by part. */
  lemma SplitEqual(d: seq<Goal>, w: seq<Goal>, m: seq<Goal>, d': seq<Goal>, w': seq<Goal>, m': seq<Goal>)
    requires d + w + m == d' + w' + m' && |d| == |d'| && |w| == |w'|
    ensures d == d' && w == w' && m == m'
  {
    assert d == (d + w + m)[..|d|];
    assert d' == (d' + w' + m')[..|d|];
    assert w == (d + w + m)[|d|..|d| + |w|];
    assert w' == (d' + w' + m')[|d|..|d| + |w|];
    assert m == (d + w + m)[|d| + |w|..];
    assert m' == (d' + w' + m')[|d| + |w|..];
  }

  /**
   * Checking a goal and then unchecking it, through the store's handlers,
   * puts every collection back as it was, whichever collection holds it.
   */
  method CheckThenUncheck(store: GoalStore, goal: Goal, now1: Timestamp, now2: Timestamp)
    requires store.Valid() && goal in store.All()
    requires goal.status != Completed && CompletedAtConsistent(goal)
    modifies store
    ensures store.Valid()
    ensures store.daily == old(store.daily) && store.weekly == old(store.weekly) && store.monthly == old(store.monthly)
  {
    var d0, w0, m0 := store.daily, store.weekly, store.monthly;
    ghost var all0 := store.All();
    ghost var p0 := store.prevStatuses;
    var id := goal.id;
    var which := Collection(goal);
    ghost var k :| 0 <= k < |all0| && all0[k] == goal;
    OwnCollectionOnly(d0, w0, m0, k);

    store.HandleCheckboxChange(goal, true, now1);
    UpdateOneIsUpdateAll(d0, w0, m0, id, Completed, now1, which);
    var d1, w1, m1 := store.daily, store.weekly, store.monthly;
    ghost var s := CheckboxStatus(false, store.prevStatuses, id);

    store.HandleCheckboxChange(goal, false, now2);
    UpdateOneIsUpdateAll(d1, w1, m1, id, s, now2, which);
    CheckUncheckRoundTrip(p0, all0, k, now1, now2);
    SplitEqual(d0, w0, m0, store.daily, store.weekly, store.monthly);
  }
}
