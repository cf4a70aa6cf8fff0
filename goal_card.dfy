/**
 * One goal card (GoalCard.tsx): the checkbox and the status menu, and the
 * card's own memory of the goal's last non-completed status, kept by an
 * effect that runs when the goal's status changes.
 */
module GoalCardView {
  import opened Types
  import opened Lifecycle

  class GoalCard {
    /** The `goal` prop as last rendered. */
    var goal: Goal
    var prevStatus: Status
    /** Whether an `onStatusChange` prop was given. */
    const hasHandler: bool

    /** prevStatus is never `completed`, and it follows any non-completed status. */
    ghost predicate Valid()
      reads this
    {
      prevStatus != Completed && (goal.status != Completed ==> prevStatus == goal.status)
    }

    /** Mounting: `in-progress` for a completed goal, else its status; the first effect run keeps it. */
    constructor(goal: Goal, hasHandler: bool)
      ensures Valid()
      ensures this.goal == goal && this.hasHandler == hasHandler
      ensures prevStatus == if goal.status == Completed then InProgress else goal.status
    {
      this.goal := goal;
      this.hasHandler := hasHandler;
      prevStatus := if goal.status == Completed then InProgress else goal.status;
    }

    /** A re-render with a new `goal` prop; the effect fires only when the status differs. */
    method ReceiveGoal(g: Goal)
      requires Valid()
      modifies this
      ensures Valid()
      ensures goal == g
      ensures prevStatus == if g.status != old(goal.status) && g.status != Completed then g.status else old(prevStatus)
      ensures g.status != Completed ==> prevStatus == g.status
      ensures g.status == Completed ==> prevStatus == old(prevStatus)
    {
      var changed := g.status != goal.status;
      goal := g;
      if changed && g.status != Completed {
        prevStatus := g.status;
      }
    }

    /** The checkbox: `completed` when checked, the remembered status when unchecked; nothing without a handler. */
    method HandleCheckboxChange(checked: bool) returns (event: Option<StatusEvent>)
      requires Valid()
      ensures !hasHandler ==> event == None
      ensures hasHandler ==> event.Some? && event.value.id == goal.id
      ensures event.Some? ==> (event.value.status == Completed <==> checked)
      ensures event.Some? && !checked ==> event.value.status == prevStatus
    {
      if !hasHandler {
        return None;
      }
      if checked {
        event := Some(StatusEvent(goal.id, Completed));
      } else {
        event := Some(StatusEvent(goal.id, prevStatus));
      }
    }

    /** The status menu: the chosen status, as it is; nothing without a handler. */
    method HandleStatusChange(s: Status) returns (event: Option<StatusEvent>)
      ensures event == if hasHandler then Some(StatusEvent(goal.id, s)) else None
    {
      if !hasHandler {
        return None;
      }
      event := Some(StatusEvent(goal.id, s));
    }
  }

  /**
   * A card whose goal is not completed: checking it, receiving the completed
   * goal back from the parent and then unchecking it asks for the status the
   * goal had before.
   */
  method CheckThenUncheckCard(card: GoalCard, now: Timestamp) returns (first: Option<StatusEvent>, second: Option<StatusEvent>)
    requires card.Valid() && card.hasHandler && card.goal.status != Completed
    modifies card
    ensures card.Valid()
    ensures first == Some(StatusEvent(old(card.goal.id), Completed))
    ensures second == Some(StatusEvent(old(card.goal.id), old(card.goal.status)))
  {
    first := card.HandleCheckboxChange(true);
    card.ReceiveGoal(WithStatus(card.goal, Completed, now));
    second := card.HandleCheckboxChange(false);
  }
}
