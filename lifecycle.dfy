/**
 * The status lifecycle shared by the dashboard components: the per-id status
 * update, the checkbox rule and the observer that remembers each goal's last
 * non-completed status (Overview.tsx, CalendarView.tsx, GoalList.tsx).
 */
module Lifecycle {
  import opened Types

  /** `{ ...goal, status, completedAt: status === "completed" ? new Date() : undefined }` */
  function WithStatus(g: Goal, s: Status, now: Timestamp): (r: Goal)
    ensures r.status == s && CompletedAtConsistent(r)
    ensures SameGoalApartFromStatus(g, r)
    ensures s == Completed ==> r.completedAt == Some(now)
  {
    g.(status := s, completedAt := if s == Completed then Some(now) else None)
  }

  /** `goals.map(goal => goal.id === id ? WithStatus(goal) : goal)` */
  function UpdateStatusById(goals: seq<Goal>, id: string, s: Status, now: Timestamp): (r: seq<Goal>)
    ensures |r| == |goals|
    ensures forall i :: 0 <= i < |goals| && goals[i].id == id ==>
              r[i].status == s && CompletedAtConsistent(r[i]) && SameGoalApartFromStatus(goals[i], r[i])
    ensures forall i :: 0 <= i < |goals| && goals[i].id != id ==> r[i] == goals[i]
  {
    seq(|goals|, i requires 0 <= i < |goals| =>
      if goals[i].id == id then WithStatus(goals[i], s, now) else goals[i])
  }

  /** Every goal of the collection keeps `completedAt` in step with its status. */
  predicate AllConsistent(goals: seq<Goal>)
  {
    forall i :: 0 <= i < |goals| ==> CompletedAtConsistent(goals[i])
  }

  /** Ids, variants and all fields except status and completedAt are kept. */
  lemma UpdateKeepsGoals(goals: seq<Goal>, id: string, s: Status, now: Timestamp)
    ensures Ids(UpdateStatusById(goals, id, s, now)) == Ids(goals)
    ensures forall i :: 0 <= i < |goals| ==>
              SameGoalApartFromStatus(goals[i], UpdateStatusById(goals, id, s, now)[i])
    ensures AllConsistent(goals) ==> AllConsistent(UpdateStatusById(goals, id, s, now))
  {
  }

  /** Setting the same status twice is the same as setting it once. */
  lemma UpdateIdempotent(goals: seq<Goal>, id: string, s: Status, now: Timestamp)
    ensures UpdateStatusById(UpdateStatusById(goals, id, s, now), id, s, now)
         == UpdateStatusById(goals, id, s, now)
  {
  }

  /** The status the checkbox asks for: completed, or the remembered one, or in-progress. */
  function CheckboxStatus(checked: bool, prev: map<string, Status>, id: string): (s: Status)
    ensures checked ==> s == Completed
    ensures NeverCompleted(prev) ==> (s == Completed <==> checked)
    ensures !checked ==> s == (if id in prev then prev[id] else InProgress)
  {
    if checked then Completed
    else if id in prev then prev[id]
    else InProgress
  }

  /** The side table never remembers `completed`. */
  predicate NeverCompleted(prev: map<string, Status>)
  {
    forall id :: id in prev ==> prev[id] != Completed
  }

  /** One step of the observer's forEach. */
  function Remember(prev: map<string, Status>, g: Goal): (r: map<string, Status>)
    ensures prev.Keys <= r.Keys
    ensures g.status != Completed ==> g.id in r && r[g.id] == g.status
    ensures forall id :: id in prev && id != g.id ==> r[id] == prev[id]
    ensures NeverCompleted(prev) ==> NeverCompleted(r)
  {
    if g.status != Completed then prev[g.id := g.status] else prev
  }

  /** The observer: `{ ...prev }` updated by every non-completed goal, in order. */
  function Recorded(prev: map<string, Status>, goals: seq<Goal>): (r: map<string, Status>)
    ensures prev.Keys <= r.Keys
    ensures NeverCompleted(prev) ==> NeverCompleted(r)
    decreases |goals|
  {
    if goals == [] then prev
    else Remember(Recorded(prev, goals[..|goals| - 1]), goals[|goals| - 1])
  }

  /** Keys are only added: the ids of the non-completed goals join the old keys. */
  lemma {:induction false} RecordedKeys(prev: map<string, Status>, goals: seq<Goal>)
    ensures Recorded(prev, goals).Keys
         == prev.Keys + set i | 0 <= i < |goals| && goals[i].status != Completed :: goals[i].id
    decreases |goals|
  {
    if goals != [] {
      var init := goals[..|goals| - 1];
      RecordedKeys(prev, init);
      var last := |goals| - 1;
      var s := set i | 0 <= i < |goals| && goals[i].status != Completed :: goals[i].id;
      var s' := set i | 0 <= i < |init| && init[i].status != Completed :: init[i].id;
      assert s == s' + (if goals[last].status != Completed then {goals[last].id} else {}) by {
        forall x | x in s ensures x in s' + (if goals[last].status != Completed then {goals[last].id} else {}) {
          var i :| 0 <= i < |goals| && goals[i].status != Completed && goals[i].id == x;
          if i < last { assert init[i] == goals[i]; }
        }
        forall x | x in s' ensures x in s {
          var i :| 0 <= i < |init| && init[i].status != Completed && init[i].id == x;
          assert goals[i] == init[i];
        }
      }
    }
  }

  /** `completed` is never stored. */
  lemma {:induction false} RecordedNeverCompleted(prev: map<string, Status>, goals: seq<Goal>)
    requires NeverCompleted(prev)
    ensures NeverCompleted(Recorded(prev, goals))
    decreases |goals|
  {
    if goals != [] {
      RecordedNeverCompleted(prev, goals[..|goals| - 1]);
    }
  }

  /** An id no goal of the collection carries keeps its old entry. */
  lemma {:induction false} RecordedOtherIds(prev: map<string, Status>, goals: seq<Goal>, id: string)
    requires forall i :: 0 <= i < |goals| ==> goals[i].id != id
    ensures (id in Recorded(prev, goals)) == (id in prev)
    ensures id in prev ==> Recorded(prev, goals)[id] == prev[id]
    decreases |goals|
  {
    if goals != [] {
      RecordedOtherIds(prev, goals[..|goals| - 1], id);
    }
  }

  /**
   * For a collection with distinct ids: a goal that is not completed has its
   * current status recorded, and a completed goal keeps its earlier entry.
   */
  lemma {:induction false} RecordedAt(prev: map<string, Status>, goals: seq<Goal>, k: int)
    requires DistinctIds(goals) && 0 <= k < |goals|
    ensures goals[k].status != Completed ==>
              goals[k].id in Recorded(prev, goals) && Recorded(prev, goals)[goals[k].id] == goals[k].status
    ensures goals[k].status == Completed ==>
              (goals[k].id in Recorded(prev, goals)) == (goals[k].id in prev) &&
              (goals[k].id in prev ==> Recorded(prev, goals)[goals[k].id] == prev[goals[k].id])
    decreases |goals|
  {
    var init := goals[..|goals| - 1];
    if k == |goals| - 1 {
      RecordedOtherIds(prev, init, goals[k].id);
    } else {
      assert init[k] == goals[k];
      RecordedAt(prev, init, k);
    }
  }

  /** Running the observer again without a change to the goals changes nothing. */
  lemma {:induction false} RecordedIdempotent(prev: map<string, Status>, goals: seq<Goal>)
    requires DistinctIds(goals)
    ensures Recorded(Recorded(prev, goals), goals) == Recorded(prev, goals)
  {
    var once := Recorded(prev, goals);
    var twice := Recorded(once, goals);
    RecordedKeys(prev, goals);
    RecordedKeys(once, goals);
    forall id | id in twice ensures id in once && twice[id] == once[id] {
      if i :| 0 <= i < |goals| && goals[i].id == id {
        RecordedAt(prev, goals, i);
        RecordedAt(once, goals, i);
      } else {
        RecordedOtherIds(once, goals, id);
      }
    }
  }

  /** The observer's forEach loop over all goals. */
  method RecordPrevStatuses(prev: map<string, Status>, goals: seq<Goal>) returns (next: map<string, Status>)
    ensures next == Recorded(prev, goals)
  {
    next := prev;
    for i := 0 to |goals|
      invariant next == Recorded(prev, goals[..i])
    {
      assert goals[..i + 1][..i] == goals[..i];
      if goals[i].status != Completed {
        next := next[goals[i].id := goals[i].status];
      }
    }
    assert goals[..|goals|] == goals;
  }

  /** The map-update distributes over concatenation. */
  lemma UpdateConcat(a: seq<Goal>, b: seq<Goal>, id: string, s: Status, now: Timestamp)
    ensures UpdateStatusById(a + b, id, s, now) == UpdateStatusById(a, id, s, now) + UpdateStatusById(b, id, s, now)
  {
  }

  /** A collection without the id is left as it is. */
  lemma UpdateMissingId(goals: seq<Goal>, id: string, s: Status, now: Timestamp)
    requires forall i :: 0 <= i < |goals| ==> goals[i].id != id
    ensures UpdateStatusById(goals, id, s, now) == goals
  {
  }

  /**
   * The checkbox round trip: once the observer has seen a goal with a
   * non-completed status, checking it and then unchecking it (with the
   * observer running after each change) restores every goal exactly.
   */
  lemma CheckUncheckRoundTrip(prev0: map<string, Status>, goals: seq<Goal>, k: int, now1: Timestamp, now2: Timestamp)
    requires DistinctIds(goals)
    requires 0 <= k < |goals| && goals[k].status != Completed && CompletedAtConsistent(goals[k])
    ensures var id := goals[k].id;
            var prev := Recorded(prev0, goals);
            var checked := UpdateStatusById(goals, id, CheckboxStatus(true, prev, id), now1);
            var prev' := Recorded(prev, checked);
            UpdateStatusById(checked, id, CheckboxStatus(false, prev', id), now2) == goals
  {
    var id := goals[k].id;
    var prev := Recorded(prev0, goals);
    RecordedAt(prev0, goals, k);
    var checked := UpdateStatusById(goals, id, Completed, now1);
    UpdateKeepsGoals(goals, id, Completed, now1);
    assert DistinctIds(checked) by {
      forall i, j | 0 <= i < j < |checked| ensures checked[i].id != checked[j].id {
        assert Ids(checked)[i] == Ids(goals)[i] && Ids(checked)[j] == Ids(goals)[j];
      }
    }
    var prev' := Recorded(prev, checked);
    RecordedAt(prev, checked, k);
    assert CheckboxStatus(false, prev', id) == goals[k].status;
    var restored := UpdateStatusById(checked, id, goals[k].status, now2);
    forall i | 0 <= i < |goals| ensures restored[i] == goals[i] {
      if i != k {
        assert goals[i].id != id;
      }
    }
  }

  /** A status change reported to a parent component: `(id, status)`. */
  datatype StatusEvent = StatusEvent(id: string, status: Status)
}
