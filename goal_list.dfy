/**
 * A titled list of goal cards (GoalList.tsx): a local copy of the `goals`
 * prop that follows the prop, status changes applied to the copy and passed
 * on to the parent, and an empty-state message.
 */
module GoalListView {
  import opened Types
  import opened Lifecycle
  import opened GoalCardView

  const DefaultEmptyMessage := "No goals found."

  /** What the list body shows: the cards, or the empty-state paragraph. */
  datatype Rendering = Cards(goals: seq<Goal>) | EmptyNote(message: string)

  class GoalList {
    var localGoals: seq<Goal>
    const emptyMessage: string
    /** Whether the parent passed `onStatusChange`. */
    const hasParentHandler: bool

    /** The first render: no local goals yet, so the empty message shows until the effect runs. */
    constructor(emptyMessage: Option<string>, hasParentHandler: bool)
      ensures localGoals == []
      ensures this.emptyMessage == if emptyMessage.Some? then emptyMessage.value else DefaultEmptyMessage
      ensures this.hasParentHandler == hasParentHandler
    {
      localGoals := [];
      this.emptyMessage := if emptyMessage.Some? then emptyMessage.value else DefaultEmptyMessage;
      this.hasParentHandler := hasParentHandler;
    }

    /** The effect on `goals`: the local copy becomes the prop. */
    method SyncFromProps(goals: seq<Goal>)
      modifies this
      ensures localGoals == goals
    {
      localGoals := goals;
    }

    /** The handler given to every card: update the local copy, then tell the parent, if any. */
    method HandleStatusChange(id: string, s: Status, now: Timestamp) returns (notified: Option<StatusEvent>)
      modifies this
      ensures localGoals == UpdateStatusById(old(localGoals), id, s, now)
      ensures notified == if hasParentHandler then Some(StatusEvent(id, s)) else None
    {
      localGoals := UpdateStatusById(localGoals, id, s, now);
      if hasParentHandler {
        notified := Some(StatusEvent(id, s));
      } else {
        notified := None;
      }
    }

    /** The empty message exactly when there is no local goal; otherwise every local goal as a card. */
    function Rendered(): (r: Rendering)
      reads this
      ensures r.EmptyNote? <==> |localGoals| == 0
      ensures r.EmptyNote? ==> r.message == emptyMessage
      ensures r.Cards? ==> r.goals == localGoals
    {
      if |localGoals| > 0 then Cards(localGoals) else EmptyNote(emptyMessage)
    }

    /** The card for the i-th local goal; the list always hands it a handler. */
    method CardAt(i: int) returns (card: GoalCard)
      requires 0 <= i < |localGoals|
      ensures fresh(card) && card.Valid()
      ensures card.goal == localGoals[i] && card.hasHandler
    {
      card := new GoalCard(localGoals[i], true);
    }
  }

  /** A card's event, handled by its list, updates that goal in the local copy. */
  method CardEventReachesList(list: GoalList, i: int, s: Status, now: Timestamp) returns (notified: Option<StatusEvent>)
    requires 0 <= i < |list.localGoals|
    modifies list
    ensures |list.localGoals| == |old(list.localGoals)|
    ensures list.localGoals[i].status == s && CompletedAtConsistent(list.localGoals[i])
    ensures notified == if list.hasParentHandler then Some(StatusEvent(old(list.localGoals[i].id), s)) else None
  {
    var card := list.CardAt(i);
    var event := card.HandleStatusChange(s);
    notified := list.HandleStatusChange(event.value.id, event.value.status, now);
  }
}
