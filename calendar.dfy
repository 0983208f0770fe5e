/**
 * The month grid of the calendar screen and the colour status of each day.
 * `java.util.Calendar` is replaced by its results: the weekday the month starts on, the
 * lengths of the previous and the current month, and today's day if it falls in the
 * month shown.
 */
module Calendar {
  import opened Wrappers
  import WorkoutExerciseDao

  datatype CompletionStatus = NONE | NOT_STARTED | PARTIAL | COMPLETE

  /**
   * One cell. The cell's `Date` is kept as the month it lies in relative to the month
   * shown (-1, 0 or 1) and its day of month.
   */
  datatype CalendarDay = CalendarDay(
    monthOffset: int,
    dayOfMonth: int,
    isCurrentMonth: bool,
    isToday: bool,
    completionStatus: CompletionStatus)

  /** The cells before the month, the month's own cells, then the following month's. */
  ghost predicate GridCells(days: seq<CalendarDay>, firstDayOfWeek: int, daysInPrevMonth: int,
                            daysInMonth: int, today: Option<int>)
  {
    && (forall i :: 0 <= i < firstDayOfWeek && i < |days| ==>
          days[i] == CalendarDay(-1, daysInPrevMonth - firstDayOfWeek + i + 1, false, false, NONE))
    && (forall i :: 0 <= i && firstDayOfWeek <= i < firstDayOfWeek + daysInMonth && i < |days| ==>
          days[i] == CalendarDay(0, i - firstDayOfWeek + 1, true, today == Some(i - firstDayOfWeek + 1), NONE))
    && (forall i :: 0 <= i && firstDayOfWeek + daysInMonth <= i < |days| ==>
          days[i] == CalendarDay(1, i - firstDayOfWeek - daysInMonth + 1, false, false, NONE))
  }

  /**
   * `generateCalendarDays()`. `firstDayOfWeek` is `DAY_OF_WEEK - 1` of the month's first
   * day (0 for Sunday); the grid is filled up to 42 cells.
   */
  method GenerateCalendarDays(firstDayOfWeek: int, daysInPrevMonth: int, daysInMonth: int, today: Option<int>)
    returns (days: seq<CalendarDay>)
    requires 0 <= firstDayOfWeek && 0 <= daysInMonth
    ensures |days| == if firstDayOfWeek + daysInMonth >= 42 then firstDayOfWeek + daysInMonth else 42
    ensures GridCells(days, firstDayOfWeek, daysInPrevMonth, daysInMonth, today)
  {
    days := [];
    for i := 0 to firstDayOfWeek
      invariant |days| == i
      invariant GridCells(days, firstDayOfWeek, daysInPrevMonth, daysInMonth, today)
    {
      var dayNum := daysInPrevMonth - firstDayOfWeek + i + 1;
      days := days + [CalendarDay(-1, dayNum, false, false, NONE)];
    }
    for dayNum := 1 to daysInMonth + 1
      invariant |days| == firstDayOfWeek + dayNum - 1
      invariant GridCells(days, firstDayOfWeek, daysInPrevMonth, daysInMonth, today)
    {
      var isToday := today == Some(dayNum);
      days := days + [CalendarDay(0, dayNum, true, isToday, NONE)];
    }
    var dayNum := 1;
    while |days| < 42
      invariant dayNum >= 1 && |days| == firstDayOfWeek + daysInMonth + dayNum - 1
      invariant firstDayOfWeek + daysInMonth < 42 ==> |days| <= 42
      invariant firstDayOfWeek + daysInMonth >= 42 ==> dayNum == 1
      invariant GridCells(days, firstDayOfWeek, daysInPrevMonth, daysInMonth, today)
      decreases 42 - |days|
    {
      days := days + [CalendarDay(1, dayNum, false, false, NONE)];
      dayNum := dayNum + 1;
    }
  }

  /** With a first weekday in 0..6 and a month of at most 31 days the grid has 42 cells. */
  lemma GridHas42Cells(firstDayOfWeek: int, daysInMonth: int)
    requires 0 <= firstDayOfWeek <= 6 && 0 <= daysInMonth <= 31
    ensures (if firstDayOfWeek + daysInMonth >= 42 then firstDayOfWeek + daysInMonth else 42) == 42
  {
  }

  /**
   * Only a cell of the month shown can be today, and at most one cell is; the leading
   * cells count up to the previous month's last day, and the month's cells are its days
   * 1..daysInMonth.
   */
  lemma GridFacts(days: seq<CalendarDay>, firstDayOfWeek: int, daysInPrevMonth: int, daysInMonth: int,
                  today: Option<int>)
    requires 0 <= firstDayOfWeek && 0 <= daysInMonth
    requires |days| >= firstDayOfWeek + daysInMonth
    requires GridCells(days, firstDayOfWeek, daysInPrevMonth, daysInMonth, today)
    ensures forall i :: 0 <= i < |days| && days[i].isToday ==> days[i].isCurrentMonth
    ensures forall i, j :: 0 <= i < |days| && 0 <= j < |days| && days[i].isToday && days[j].isToday ==> i == j
    ensures firstDayOfWeek > 0 ==> days[firstDayOfWeek - 1].dayOfMonth == daysInPrevMonth
    ensures forall i :: 0 <= i < firstDayOfWeek - 1 ==> days[i + 1].dayOfMonth == days[i].dayOfMonth + 1
    ensures forall i :: firstDayOfWeek <= i < firstDayOfWeek + daysInMonth ==>
              days[i].dayOfMonth == i - firstDayOfWeek + 1 && days[i].isCurrentMonth
    ensures forall i :: 0 <= i < |days| ==> (days[i].isCurrentMonth <==> firstDayOfWeek <= i < firstDayOfWeek + daysInMonth)
  {
  }

  /** The `when` of `loadWorkoutCompletionStatus`. */
  function Classify(totalCount: int, completedCount: int): (r: CompletionStatus)
    ensures r == NONE <==> totalCount == 0
    ensures r == NOT_STARTED <==> totalCount != 0 && completedCount == 0
    ensures r == COMPLETE <==> totalCount != 0 && completedCount != 0 && completedCount == totalCount
  {
    if totalCount == 0 then NONE
    else if completedCount == 0 then NOT_STARTED
    else if completedCount == totalCount then COMPLETE
    else PARTIAL
  }

  /** The status of one date, from the two count queries. */
  function StatusOf(rows: WorkoutExerciseDao.Rows, date: string): CompletionStatus
  {
    Classify(WorkoutExerciseDao.CountForDate(rows, date), WorkoutExerciseDao.CompletedCountForDate(rows, date))
  }

  /**
   * What the colours mean in terms of the table: grey for a date without rows, red when
   * none of its rows is completed, green when all are, orange otherwise.
   */
  lemma StatusOfSpec(rows: WorkoutExerciseDao.Rows, date: string)
    ensures StatusOf(rows, date) == NONE <==> forall id :: id in rows ==> rows[id].date != date
    ensures StatusOf(rows, date) == NOT_STARTED
        <==> (exists id :: id in rows && rows[id].date == date)
             && forall id :: id in rows && rows[id].date == date ==> !rows[id].isCompleted
    ensures StatusOf(rows, date) == COMPLETE
        <==> (exists id :: id in rows && rows[id].date == date)
             && forall id :: id in rows && rows[id].date == date ==> rows[id].isCompleted
    ensures StatusOf(rows, date) == PARTIAL
        <==> (exists id :: id in rows && rows[id].date == date && rows[id].isCompleted)
             && (exists id :: id in rows && rows[id].date == date && !rows[id].isCompleted)
  {
    var total := WorkoutExerciseDao.IdsOnDate(rows, date);
    var done := WorkoutExerciseDao.CompletedIdsOnDate(rows, date);
    WorkoutExerciseDao.AllCompletedIffCountsEqual(rows, date);
    WorkoutExerciseDao.CompletedCountAtMostCount(rows, date);
    if exists id :: id in rows && rows[id].date == date {
      var id :| id in rows && rows[id].date == date;
      assert id in total;
    } else {
      assert total == {};
    }
    if exists id :: id in rows && rows[id].date == date && rows[id].isCompleted {
      var id :| id in rows && rows[id].date == date && rows[id].isCompleted;
      assert id in done;
    } else {
      assert done == {};
    }
  }

  /**
   * `loadWorkoutCompletionStatus(days)`: each cell of the month shown gets the status of
   * its date; `dateOf(d)` is the "yyyy-MM-dd" text of day `d` of that month.
   */
  function WithStatus(days: seq<CalendarDay>, rows: WorkoutExerciseDao.Rows, dateOf: int -> string)
    : (r: seq<CalendarDay>)
    ensures |r| == |days|
    ensures forall i :: 0 <= i < |days| && !days[i].isCurrentMonth ==> r[i] == days[i]
    ensures forall i :: 0 <= i < |days| && days[i].isCurrentMonth ==>
              r[i] == days[i].(completionStatus := StatusOf(rows, dateOf(days[i].dayOfMonth)))
  {
    if days == [] then []
    else
      var day := days[0];
      [if day.isCurrentMonth then day.(completionStatus := StatusOf(rows, dateOf(day.dayOfMonth))) else day]
      + WithStatus(days[1..], rows, dateOf)
  }

  /** Loading the statuses keeps the grid: the same cells in the same order, only recoloured. */
  lemma WithStatusKeepsGrid(days: seq<CalendarDay>, firstDayOfWeek: int, daysInPrevMonth: int,
                            daysInMonth: int, today: Option<int>,
                            rows: WorkoutExerciseDao.Rows, dateOf: int -> string)
    requires GridCells(days, firstDayOfWeek, daysInPrevMonth, daysInMonth, today)
    ensures var r := WithStatus(days, rows, dateOf);
      forall i :: 0 <= i < |r| ==>
        r[i].(completionStatus := NONE) == days[i]
        && (r[i].completionStatus != NONE ==> r[i].isCurrentMonth)
  {
  }
}
