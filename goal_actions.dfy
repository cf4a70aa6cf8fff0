/**
 * The server actions (src/server/actions/goals.ts): the row a creation
 * inserts, the columns a status update sets, and the result object each
 * action returns. The database is a parameter: a function from the statement
 * sent to the rows it returns or the error it throws.
 */
module GoalActions {
  import opened Types

  datatype GoalType = Daily | Weekly | Monthly

  function GoalTypeName(t: GoalType): string
  {
    match t
    case Daily => "daily"
    case Weekly => "weekly"
    case Monthly => "monthly"
  }

  /** The `type` column read back: exactly the three names. */
  function ParseGoalType(w: string): (r: Option<GoalType>)
    ensures r.Some? <==> w in {"daily", "weekly", "monthly"}
    ensures r.Some? ==> GoalTypeName(r.value) == w
  {
    if w == "daily" then Some(Daily)
    else if w == "weekly" then Some(Weekly)
    else if w == "monthly" then Some(Monthly)
    else None
  }

  lemma GoalTypeNameRoundTrip(t: GoalType)
    ensures ParseGoalType(GoalTypeName(t)) == Some(t)
  {
  }

  /** DailyGoalInput | WeeklyGoalInput | MonthlyGoalInput; the constructor is the `type` tag. */
  datatype GoalInput =
    | DailyInput(title: string, description: Option<string>, date: Timestamp)
    | WeeklyInput(title: string, description: Option<string>, weekNumber: int, year: int)
    | MonthlyInput(title: string, description: Option<string>, month: int, year: int)

  function InputType(i: GoalInput): GoalType
  {
    match i
    case DailyInput(_, _, _) => Daily
    case WeeklyInput(_, _, _, _) => Weekly
    case MonthlyInput(_, _, _, _) => Monthly
  }

  /** The object given to `.values(...)`; None is SQL null. */
  datatype NewGoalRow = NewGoalRow(title: string, description: Option<string>, goalType: GoalType,
                                   status: Status, date: Option<Timestamp>, weekNumber: Option<int>,
                                   month: Option<int>, year: Option<int>)

  /** Exactly the columns of the row's type are set. */
  predicate ColumnsFitType(r: NewGoalRow)
  {
    match r.goalType
    case Daily => r.date.Some? && r.weekNumber.None? && r.month.None? && r.year.None?
    case Weekly => r.date.None? && r.weekNumber.Some? && r.month.None? && r.year.Some?
    case Monthly => r.date.None? && r.weekNumber.None? && r.month.Some? && r.year.Some?
  }

  /** createGoal's row value, built from the conditional spreads. */
  function NewRow(input: GoalInput): (r: NewGoalRow)
    ensures r.status == NotStarted
    ensures r.title == input.title && r.description == input.description && r.goalType == InputType(input)
    ensures ColumnsFitType(r)
    ensures input.DailyInput? ==> r.date == Some(input.date)
    ensures input.WeeklyInput? ==> r.weekNumber == Some(input.weekNumber) && r.year == Some(input.year)
    ensures input.MonthlyInput? ==> r.month == Some(input.month) && r.year == Some(input.year)
  {
    match input
    case DailyInput(title, description, date) =>
      NewGoalRow(title, description, Daily, NotStarted, Some(date), None, None, None)
    case WeeklyInput(title, description, weekNumber, year) =>
      NewGoalRow(title, description, Weekly, NotStarted, None, Some(weekNumber), None, Some(year))
    case MonthlyInput(title, description, month, year) =>
      NewGoalRow(title, description, Monthly, NotStarted, None, None, Some(month), Some(year))
  }

  /** The creation input a row of the right shape was built from. */
  function InputOfRow(r: NewGoalRow): (i: Option<GoalInput>)
    ensures i.Some? <==> ColumnsFitType(r)
  {
    if !ColumnsFitType(r) then None
    else match r.goalType
      case Daily => Some(DailyInput(r.title, r.description, r.date.value))
      case Weekly => Some(WeeklyInput(r.title, r.description, r.weekNumber.value, r.year.value))
      case Monthly => Some(MonthlyInput(r.title, r.description, r.month.value, r.year.value))
  }

  /** No information of the input is lost in the row. */
  lemma NewRowRoundTrip(input: GoalInput)
    ensures InputOfRow(NewRow(input)) == Some(input)
  {
  }

  /** Every well-shaped `not-started` row is the row of exactly one input. */
  lemma RowRoundTrip(r: NewGoalRow)
    requires ColumnsFitType(r) && r.status == NotStarted
    ensures InputOfRow(r).Some? && NewRow(InputOfRow(r).value) == r
  {
  }

  /** A row as the database returns it, with its generated id and timestamps. */
  datatype GoalRow = GoalRow(id: int, values: NewGoalRow, createdAt: Timestamp, completedAt: Option<Timestamp>)

  /** updateGoalStatus's `set` object. */
  datatype StatusPatch = StatusPatch(status: Status, completedAt: Option<Timestamp>)

  function StatusPatchOf(s: Status, now: Timestamp): (p: StatusPatch)
    ensures p.status == s
    ensures p.completedAt.Some? <==> s == Completed
    ensures s == Completed ==> p.completedAt == Some(now)
  {
    StatusPatch(s, if s == Completed then Some(now) else None)
  }

  /** What the update statement does to a row it matches. */
  function ApplyPatch(row: GoalRow, p: StatusPatch): (r: GoalRow)
    ensures r.id == row.id && r.createdAt == row.createdAt
    ensures r.values == row.values.(status := p.status)
    ensures (p.completedAt.Some? <==> p.status == Completed) ==>
              (r.completedAt.Some? <==> r.values.status == Completed)
  {
    row.(values := row.values.(status := p.status), completedAt := p.completedAt)
  }

  /** A patched row has `completed_at` exactly when it is completed; the other columns are kept. */
  lemma PatchedRowConsistent(row: GoalRow, s: Status, now: Timestamp)
    ensures var r := ApplyPatch(row, StatusPatchOf(s, now));
            (r.completedAt.Some? <==> r.values.status == Completed) &&
            r.id == row.id && r.createdAt == row.createdAt &&
            r.values == row.values.(status := s)
  {
  }

  /** What a statement yields: the returned rows, or a thrown error. */
  datatype DbOutcome = Rows(rows: seq<GoalRow>) | Threw(message: string)

  /** `{ success: true, data }` or `{ success: false, error }`. */
  datatype ActionResult<T> = Succeeded(data: T) | Failed(error: string)

  const CreateFailedMessage := "Failed to create goal"
  const UpdateFailedMessage := "Failed to update goal status"
  const DeleteFailedMessage := "Failed to delete goal"

  /** `goal[0]`: the first returned row, undefined when there is none. */
  function First(rows: seq<GoalRow>): (r: Option<GoalRow>)
    ensures r.Some? <==> |rows| > 0
    ensures r.Some? ==> r.value == rows[0]
  {
    if |rows| == 0 then None else Some(rows[0])
  }

  /** The try/catch shared by createGoal and updateGoalStatus. */
  function ResultOf(outcome: DbOutcome, failure: string): (r: ActionResult<Option<GoalRow>>)
    ensures r.Failed? <==> outcome.Threw?
    ensures r.Failed? ==> r.error == failure
    ensures outcome.Rows? ==> r == Succeeded(First(outcome.rows))
  {
    match outcome
    case Rows(rows) => Succeeded(First(rows))
    case Threw(_) => Failed(failure)
  }

  function CreateGoal(input: GoalInput, insert: NewGoalRow -> DbOutcome): (r: ActionResult<Option<GoalRow>>)
    ensures r.Failed? <==> insert(NewRow(input)).Threw?
    ensures r.Failed? ==> r.error == CreateFailedMessage
    ensures r.Succeeded? ==> r.data == First(insert(NewRow(input)).rows)
  {
    ResultOf(insert(NewRow(input)), CreateFailedMessage)
  }

  function UpdateGoalStatus(id: int, s: Status, now: Timestamp, update: (int, StatusPatch) -> DbOutcome): (r: ActionResult<Option<GoalRow>>)
    ensures r.Failed? <==> update(id, StatusPatchOf(s, now)).Threw?
    ensures r.Failed? ==> r.error == UpdateFailedMessage
    ensures r.Succeeded? ==> r.data == First(update(id, StatusPatchOf(s, now)).rows)
  {
    ResultOf(update(id, StatusPatchOf(s, now)), UpdateFailedMessage)
  }

  /** deleteGoal returns `{ success: true }` with no data. */
  function DeleteGoal(id: int, delete: int -> DbOutcome): (r: ActionResult<()>)
    ensures r.Failed? <==> delete(id).Threw?
    ensures r.Failed? ==> r.error == DeleteFailedMessage
  {
    match delete(id)
    case Rows(_) => Succeeded(())
    case Threw(_) => Failed(DeleteFailedMessage)
  }

  /** The rows of a table the update statement matches, after the update. */
  function UpdatedRows(table: seq<GoalRow>, id: int, p: StatusPatch): (r: seq<GoalRow>)
    ensures forall x :: x in r <==> exists row :: row in table && row.id == id && x == ApplyPatch(row, p)
    ensures |r| <= |table|
  {
    if table == [] then []
    else (if table[0].id == id then [ApplyPatch(table[0], p)] else []) + UpdatedRows(table[1..], id, p)
  }

  /**
   * Over a table with distinct ids, updateGoalStatus returns the patched row
   * when the id is present and a success with no data when it is missing.
   */
  lemma {:induction false} UpdateOnTable(table: seq<GoalRow>, id: int, s: Status, now: Timestamp, k: int)
    requires forall i, j :: 0 <= i < j < |table| ==> table[i].id != table[j].id
    requires -1 <= k < |table|
    requires k == -1 <==> forall i :: 0 <= i < |table| ==> table[i].id != id
    requires k >= 0 ==> table[k].id == id
    ensures UpdatedRows(table, id, StatusPatchOf(s, now)) ==
            (if k == -1 then [] else [ApplyPatch(table[k], StatusPatchOf(s, now))])
    decreases |table|
  {
    if table != [] {
      var rest := table[1..];
      var k' := if k <= 0 then -1 else k - 1;
      assert k > 0 ==> rest[k'] == table[k];
      UpdateOnTable(rest, id, s, now, k');
    }
  }

  /** The missing id is not told apart from a success: `data` is simply undefined. */
  lemma MissingIdIsSuccess(id: int, s: Status, now: Timestamp, table: seq<GoalRow>)
    requires forall i :: 0 <= i < |table| ==> table[i].id != id
    ensures UpdateGoalStatus(id, s, now, (i, p) => Rows(UpdatedRows(table, i, p))) == Succeeded(None)
  {
    var rows := UpdatedRows(table, id, StatusPatchOf(s, now));
    assert forall x :: x !in rows;
  }
}
