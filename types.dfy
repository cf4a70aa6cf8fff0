/** The goal model shared by the dashboard components (src/types/index.ts). */
module Types {

  datatype Option<+T> = None | Some(value: T)

  /** Milliseconds since 1970-01-01 00:00 of one fixed local calendar. */
  type Timestamp = int

  /** A goal's status; on the wire it is exactly one of three strings. */
  datatype Status = Completed | InProgress | NotStarted

  function StatusName(s: Status): string
  {
    match s
    case Completed => "completed"
    case InProgress => "in-progress"
    case NotStarted => "not-started"
  }

  /** A string is a status exactly when it is one of the three names. */
  function ParseStatus(w: string): (r: Option<Status>)
    ensures r.Some? <==> w in {"completed", "in-progress", "not-started"}
    ensures r.Some? ==> StatusName(r.value) == w
  {
    if w == "completed" then Some(Completed)
    else if w == "in-progress" then Some(InProgress)
    else if w == "not-started" then Some(NotStarted)
    else None
  }

  lemma StatusNameRoundTrip(s: Status)
    ensures ParseStatus(StatusName(s)) == Some(s)
  {
  }

  /** The view granularity of the dashboard tabs. */
  datatype TimeFrame = Today | Week | Month

  function TimeFrameName(f: TimeFrame): string
  {
    match f
    case Today => "today"
    case Week => "week"
    case Month => "month"
  }

  function ParseTimeFrame(w: string): (r: Option<TimeFrame>)
    ensures r.Some? <==> w in {"today", "week", "month"}
    ensures r.Some? ==> TimeFrameName(r.value) == w
  {
    if w == "today" then Some(Today)
    else if w == "week" then Some(Week)
    else if w == "month" then Some(Month)
    else None
  }

  /**
   * A goal. The three constructors are the DailyGoal, WeeklyGoal and
   * MonthlyGoal interfaces; all share the fields of the Goal interface.
   * `month` is 0-based (0 = January), as date.getMonth() returns it.
   */
  datatype Goal =
    | DailyGoal(id: string, title: string, description: Option<string>, status: Status,
                createdAt: Timestamp, completedAt: Option<Timestamp>,
                date: Timestamp)
    | WeeklyGoal(id: string, title: string, description: Option<string>, status: Status,
                 createdAt: Timestamp, completedAt: Option<Timestamp>,
                 weekNumber: int, year: int, startDate: Timestamp, endDate: Timestamp)
    | MonthlyGoal(id: string, title: string, description: Option<string>, status: Status,
                  createdAt: Timestamp, completedAt: Option<Timestamp>,
                  month: int, year: int)

  /** `completedAt` is present exactly when the goal is completed. */
  predicate CompletedAtConsistent(g: Goal)
  {
    g.completedAt.Some? <==> g.status == Completed
  }

  /** The same variant and the same fields apart from status and completedAt. */
  predicate SameGoalApartFromStatus(a: Goal, b: Goal)
  {
    a.(status := b.status, completedAt := b.completedAt) == b
  }

  function Ids(goals: seq<Goal>): (r: seq<string>)
    ensures |r| == |goals|
    ensures forall i :: 0 <= i < |goals| ==> r[i] == goals[i].id
  {
    seq(|goals|, i requires 0 <= i < |goals| => goals[i].id)
  }

  predicate DistinctIds(goals: seq<Goal>)
  {
    forall i, j :: 0 <= i < j < |goals| ==> goals[i].id != goals[j].id
  }
}
