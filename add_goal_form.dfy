/**
 * The goal creation form (src/components/goals/AddGoalForm.tsx): the field
 * state, the typed creation input handleSubmit builds, the reset after a
 * successful creation and the week range shown for weekly goals. A date
 * field holds a calendar date, or nothing when it is empty; parsing
 * "YYYY-MM-DD" gives midnight of that date.
 */
module AddGoalForm {
  import opened Types
  import opened Calendar
  import opened DateUtils
  import opened Buckets
  import opened GoalActions

  /** The month select's values, `Array.from({ length: 12 }, (_, i) => i + 1)`: 1-based. */
  function MonthOptions(): (r: seq<int>)
    ensures |r| == 12
    ensures forall m :: m in r <==> 1 <= m <= 12
  {
    [1, 2, 3, 4, 5, 6, 7, 8, 9, 10, 11, 12]
  }

  /** Midnight of a calendar date, as `new Date("YYYY-MM-DD")`. */
  function Midnight(c: Civil): Timestamp
    requires ValidCivil(c)
  {
    At(DaysOf(c), 0)
  }

  /** handleSubmit's switch over the form type. */
  function BuildInput(goalType: GoalType, title: string, description: string, date: Option<Civil>,
                      weekStart: Civil, month: int, year: int, now: Timestamp): (r: GoalInput)
    requires date.Some? ==> ValidCivil(date.value)
    requires ValidCivil(weekStart)
    ensures InputType(r) == goalType
    ensures r.title == title && r.description == Some(description)
    ensures r.DailyInput? ==> r.date == if date.Some? then Midnight(date.value) else now
    ensures r.WeeklyInput? ==> r.weekNumber == IsoWeek(DaysOf(weekStart)) && r.year == weekStart.year
    ensures r.MonthlyInput? ==> r.month == month && r.year == year
  {
    match goalType
    case Daily =>
      DailyInput(title, Some(description), if date.Some? then Midnight(date.value) else now)
    case Weekly =>
      var weekDate := Midnight(weekStart);
      WeekNumberIsIso(weekDate);
      AtParts(DaysOf(weekStart), 0);
      CivilDaysRoundTrip(weekStart);
      WeeklyInput(title, Some(description), WeekNumber(weekDate), CivilOf(weekDate).year)
    case Monthly =>
      MonthlyInput(title, Some(description), month, year)
  }

  class GoalForm {
    const goalType: GoalType
    /** Whether an `onSuccess` prop was given. */
    const hasOnSuccess: bool
    var title: string
    var description: string
    var date: Option<Civil>
    var weekStart: Civil
    var month: int
    var year: int

    ghost predicate Valid()
      reads this
    {
      (date.Some? ==> ValidCivil(date.value)) && ValidCivil(weekStart)
    }

    /** The initial state: empty texts, today's date, and today's 1-based month and year. */
    constructor(goalType: GoalType, hasOnSuccess: bool, now: Timestamp)
      ensures Valid()
      ensures this.goalType == goalType && this.hasOnSuccess == hasOnSuccess
      ensures title == "" && description == ""
      ensures date == Some(CivilOf(now)) && weekStart == CivilOf(now)
      ensures month == CivilOf(now).month + 1 && month in MonthOptions() && year == CivilOf(now).year
    {
      this.goalType := goalType;
      this.hasOnSuccess := hasOnSuccess;
      title, description := "", "";
      date := Some(CivilOf(now));
      weekStart := CivilOf(now);
      month := CivilOf(now).month + 1;
      year := CivilOf(now).year;
    }

    /**
     * Submitting: the input built from the fields goes to createGoal; on
     * success title and description are cleared and onSuccess is called, on
     * failure nothing changes. The other fields are never reset.
     */
    method HandleSubmit(now: Timestamp, insert: NewGoalRow -> DbOutcome)
      returns (input: GoalInput, result: ActionResult<Option<GoalRow>>, calledOnSuccess: bool)
      requires Valid()
      modifies this
      ensures Valid()
      ensures input == BuildInput(goalType, old(title), old(description), old(date), old(weekStart), old(month), old(year), now)
      ensures result == CreateGoal(input, insert)
      ensures result.Succeeded? ==> title == "" && description == ""
      ensures result.Failed? ==> title == old(title) && description == old(description)
      ensures date == old(date) && weekStart == old(weekStart) && month == old(month) && year == old(year)
      ensures calledOnSuccess == (result.Succeeded? && hasOnSuccess)
    {
      input := BuildInput(goalType, title, description, date, weekStart, month, year, now);
      result := CreateGoal(input, insert);
      calledOnSuccess := false;
      if result.Succeeded? {
        title, description := "", "";
        calledOnSuccess := hasOnSuccess;
      }
    }

    /** The range shown under the week field: only for the weekly type. */
    function WeekRangeShown(): (r: Option<WeekSpan>)
      reads this
      requires Valid()
      ensures r.Some? <==> goalType == Weekly
    {
      if goalType == Weekly then Some(WeekRange(Midnight(weekStart))) else None
    }
  }

  /**
   * The range shown for a weekly form holds the chosen date, and every day of
   * it has the ISO 8601 week number of that date, which is the number the
   * submitted weekly input carries.
   */
  lemma WeekRangeShownMatchesInput(form: GoalForm, e: int, ms: int)
    requires form.Valid() && form.goalType == Weekly
    requires DayOf(form.WeekRangeShown().value.start) <= e <= DayOf(form.WeekRangeShown().value.end)
    requires 0 <= ms < MsPerDay
    ensures var span := form.WeekRangeShown().value;
            DayOf(span.start) <= DaysOf(form.weekStart) <= DayOf(span.end) &&
            WeekNumber(At(e, ms)) == IsoWeek(DaysOf(form.weekStart))
  {
    WeekRangeOfMidnight(DaysOf(form.weekStart), e, ms);
  }

  /** The form never sends a missing description, so the stored one is never null, even when empty. */
  lemma DescriptionNeverNull(goalType: GoalType, title: string, description: string, date: Option<Civil>,
                             weekStart: Civil, month: int, year: int, now: Timestamp)
    requires date.Some? ==> ValidCivil(date.value)
    requires ValidCivil(weekStart)
    ensures NewRow(BuildInput(goalType, title, description, date, weekStart, month, year, now)).description == Some(description)
  {
  }

  /**
   * The form's 1-based month read by the 0-based bucket filter: a monthly
   * goal carrying the month the user chose never shows in that month, and
   * month 12 shows in none.
   */
  lemma ChosenMonthNotShown(g: Goal, t: Timestamp)
    requires g.MonthlyGoal? && g.month in MonthOptions()
    requires CivilOf(t).month + 1 == g.month
    ensures !InMonthOf(g, t)
  {
  }

  lemma DecemberNeverShown(g: Goal, t: Timestamp)
    requires g.MonthlyGoal? && g.month == 12
    ensures !InMonthOf(g, t)
  {
  }

  /** With the default fields, a monthly goal is filed one month late: never in the current month. */
  lemma DefaultMonthMissesCurrentMonth(form: GoalForm, title: string, description: string, now: Timestamp, g: Goal)
    requires form.Valid() && form.goalType == Monthly
    requires form.month == CivilOf(now).month + 1 && form.year == CivilOf(now).year
    requires var input := BuildInput(Monthly, title, description, form.date, form.weekStart, form.month, form.year, now);
             g.MonthlyGoal? && g.month == input.month && g.year == input.year
    ensures !InMonthOf(g, now)
  {
  }

  /**
   * The weekly `year` is the calendar year of the chosen date, not its ISO
   * 8601 week-based year: Monday 2024-12-30 is sent as week 1 of 2024,
   * although its week is week 1 of 2025.
   */
  lemma WeekYearIsCalendarYear(title: string, description: string, date: Option<Civil>, month: int, year: int, now: Timestamp)
    requires date.Some? ==> ValidCivil(date.value)
    ensures var input := BuildInput(Weekly, title, description, date, Civil(2024, 11, 30), month, year, now);
            input.weekNumber == 1 && input.year == 2024 && IsoWeekYear(DaysOf(Civil(2024, 11, 30))) == 2025
  {
    var d := DaysOf(Civil(2024, 11, 30));
    assert YearStart(2024) == 19723;
    assert d == 20087;
    YearStartStep(2024);
    YearStartStep(2025);
    assert ThursdayOf(d) == 20090;
    YearOfUnique(20090, 2025);
    WeekNumberOfDayIsIso(d);
  }
}
