# Wellness app: a verified model of the workout core

This project models the core of the Android wellness app, a personal workout tracker, in
Dafny. It covers these parts:

- **The workout player** (`WorkoutPlayerActivity`). This is a state machine over the day's
  exercises:
  - it walks through each exercise's sets, with a paused 30-second rest between sets;
  - it runs a countdown timer for timed exercises and rests;
  - it supports pause/resume and forward/backward navigation;
  - it writes one "mark exercise completed" to the store.
  The state is the `Session` value in `PlayerSession`, with one pure function per command.
  The class `PlayerActivity.WorkoutPlayer` holds the same fields and runs each command in
  place. Each method is proved to perform the pure transition of the same name and to keep
  the timer invariant: at most one live timer, the last one started.
- **The four tables and their DAOs**, each as a class updated in place:
  - `workout_exercises`: a map keyed by the AUTOINCREMENT id.
  - `workout_plans`: the same. It includes the `activatePlan` transaction, which keeps at
    most one plan active.
  - `plan_exercises`: a sequence in rowid order.
  - `ExerciseTemplate`: a map keyed by id.
- **The Today screen**. It groups the day's rows under category headers, computes the
  progress figure, and generates the day's rows from the active plan. A date is filled at
  most once.
- **The calendar**. It builds the 42-cell month grid and colours each day of the month by
  its completion counts.
- **The plan builder and its adapter**. The day's plan exercises are shown grouped by
  category. A drag is forwarded only between exercises of one category, and it renumbers
  `order`. A newly added exercise takes the order after its category's largest. The day
  chips and the diff rules are modelled too.
- **The exercise library**. It covers the category filter, the add/edit dialog with its
  defaults, save, and delete with the cascade that removes the template's plan
  exercises.
- **The plans list**. It covers the plan-name dialog, the activation toggle, and the
  rows with their summary text. The dialog creates a plan. Its rename branch is
  modelled as written, but the only call of `showPlanNameDialog` (the add button,
  PlansListFragment.kt:65) passes no existing plan, so rename is never reached.

Kotlin `Int` and `Long` values are unbounded integers here. Nullable columns are
`Option`s. Kotlin's truncating `/` and `%` are written out where the operands can be
negative (`PlayerSession.TruncDiv` and `PlayerSession.TruncRem`). Clocks and dates are
parameters: today's weekday, the month's first weekday and lengths, and today's day of
month. Database reads are parameters too: the list a query or LiveData emission
delivered.

A few facts about the player that the model keeps as the code has them:

- `completeSet()` never reads the rep box, and nothing guards it against being called
  twice in a row.
- When a rest ends, the timer's `onFinish` runs `completeSet()`. See Findings.
- The player's list is sorted by `order` alone, and the sort is stable.
- `previousSet()` from a rest decrements `currentSet` and re-enters the same exercise.

## Model

| member | source | states |
|---|---|---|
| ExerciseTypes.FromString | app/src/main/java/com/ko/wellness/data/entities/ExerciseType.kt:8-10 | `valueOf` succeeds exactly on "REPS" and "TIMED", and the constant found has the given name |
| ExerciseTypes.FromStringOfName | app/src/main/java/com/ko/wellness/data/entities/ExerciseType.kt:3-10 | every constant is found again from its name |
| ExerciseTypes.NameInjective | app/src/main/java/com/ko/wellness/data/entities/ExerciseType.kt:3-5 | two constants have the same name exactly when they are the same constant |
| ExerciseTypes.LowerCaseRejected | app/src/main/java/com/ko/wellness/data/entities/ExerciseType.kt:8-10 | the lookup is case-sensitive |
| Text.TrimSpec | app/src/main/java/com/ko/wellness/ui/workouts/PlansListFragment.kt:124 | `trim()` returns the part of the text between its leading and trailing whitespace, with no whitespace at either end |
| Text.TrimOfTrimmed | app/src/main/java/com/ko/wellness/ui/workouts/ExerciseLibraryFragment.kt:159 | trimming a string without surrounding whitespace returns it unchanged |
| Text.TrimEmpty | app/src/main/java/com/ko/wellness/ui/workouts/ExerciseLibraryFragment.kt:159-163 | the trimmed name is empty exactly when the text is all whitespace |
| Text.Decimal | app/src/main/java/com/ko/wellness/ui/workouts/WorkoutPlanAdapter.kt:57 | a number in a string template is non-empty, ends in a digit, and starts with a digit exactly when the number is not negative |
| Text.NatDecimalValue | app/src/main/java/com/ko/wellness/ui/workouts/WorkoutPlanAdapter.kt:57 | the digits rendered for a non-negative number denote that number |
| Text.DecimalValue | app/src/main/java/com/ko/wellness/ui/workouts/WorkoutPlanAdapter.kt:57 | a non-negative number renders as the digits of its value; a negative one as "-" and the digits of its magnitude |
| Text.DecimalInjective | app/src/main/java/com/ko/wellness/ui/workouts/WorkoutPlanAdapter.kt:57 | different numbers render as different text |
| Seqs.SortByKeySorted | app/src/main/java/com/ko/wellness/ui/workouts/WorkoutPlayerActivity.kt:56 | `sortedBy { it.order }` yields a list ordered by the key that is a permutation of its input |
| Seqs.SortByKeyStable | app/src/main/java/com/ko/wellness/ui/workouts/PlanBuilderActivity.kt:118 | `sortedBy` is stable: the elements with any one key keep their relative order |
| Seqs.FilterMultiset | app/src/main/java/com/ko/wellness/ui/workouts/ExerciseLibraryFragment.kt:83 | `filter` keeps every matching element as often as it occurs and drops all others |
| WorkoutExerciseDao.InsertOne | app/src/main/java/com/ko/wellness/data/dao/WorkoutExerciseDao.kt:15-16 | REPLACE insert: id 0 gets the next fresh id, any other id overwrites that key; the table stays well keyed |
| WorkoutExerciseDao.InsertOneReplaces | app/src/main/java/com/ko/wellness/data/dao/WorkoutExerciseDao.kt:15-16 | a non-zero id then holds exactly the new row and no other row changes; id 0 adds a key and changes no existing row |
| WorkoutExerciseDao.InsertAllKeepsLast | app/src/main/java/com/ko/wellness/data/dao/WorkoutExerciseDao.kt:15-16 | the vararg insert keeps every key and the last row inserted is present afterwards |
| WorkoutExerciseDao.InsertAllKeepsKeys | app/src/main/java/com/ko/wellness/data/dao/WorkoutExerciseDao.kt:15-16 | the vararg insert never removes a key |
| WorkoutExerciseDao.CompletionTouchesOnlyTheFlag | app/src/main/java/com/ko/wellness/data/dao/WorkoutExerciseDao.kt:31-32 | `updateCompletionStatus` keeps every key, changes only `isCompleted` and only in the row with that id, which then carries the new flag |
| WorkoutExerciseDao.CompletionIdempotent | app/src/main/java/com/ko/wellness/data/dao/WorkoutExerciseDao.kt:31-32 | applying the same completion update twice equals applying it once |
| WorkoutExerciseDao.CompletingIsMonotone | app/src/main/java/com/ko/wellness/data/dao/WorkoutExerciseDao.kt:31-32 | writing `true` never removes a row from the completed set |
| WorkoutExerciseDao.CompletedCountAtMostCount | app/src/main/java/com/ko/wellness/data/dao/WorkoutExerciseDao.kt:35-40 | a date's completed rows are among its rows, so the completed count is at most the count |
| WorkoutExerciseDao.AllCompletedIffCountsEqual | app/src/main/java/com/ko/wellness/data/dao/WorkoutExerciseDao.kt:35-40 | the two counts of a date agree exactly when every row of the date is completed |
| WorkoutExerciseDao.DeleteAllForDateSpec | app/src/main/java/com/ko/wellness/data/dao/WorkoutExerciseDao.kt:27-28 | after `deleteAllForDate(d)` date d has no rows and every row of another date is untouched |
| WorkoutExerciseDao.CountPositive | app/src/main/java/com/ko/wellness/data/dao/WorkoutExerciseDao.kt:35-36 | a date with a row has a positive count |
| WorkoutExerciseDao.WorkoutExerciseStore.Insert | app/src/main/java/com/ko/wellness/data/dao/WorkoutExerciseDao.kt:15-16 | the loop inserts the rows one by one, reaching the table of the vararg insert |
| WorkoutExerciseDao.WorkoutExerciseStore.Update | app/src/main/java/com/ko/wellness/data/dao/WorkoutExerciseDao.kt:19-20 | overwrites the row with the same key, if any |
| WorkoutExerciseDao.WorkoutExerciseStore.Delete | app/src/main/java/com/ko/wellness/data/dao/WorkoutExerciseDao.kt:23-24 | removes the row with the same key |
| WorkoutExerciseDao.WorkoutExerciseStore.DeleteAllForDate | app/src/main/java/com/ko/wellness/data/dao/WorkoutExerciseDao.kt:27-28 | the table loses exactly the rows of that date |
| WorkoutExerciseDao.WorkoutExerciseStore.UpdateCompletionStatus | app/src/main/java/com/ko/wellness/data/dao/WorkoutExerciseDao.kt:31-32 | the table becomes the completion update of the old table |
| WorkoutExerciseDao.WorkoutExerciseStore.GetWorkoutsForDate | app/src/main/java/com/ko/wellness/data/dao/WorkoutExerciseDao.kt:11-12 | returns every stored row of the date exactly once, and no other row; the order is left open |
| WorkoutExerciseDao.WorkoutExerciseStore.GetWorkoutCountForDate | app/src/main/java/com/ko/wellness/data/dao/WorkoutExerciseDao.kt:35-36 | the count is zero exactly when no row has the date |
| WorkoutExerciseDao.WorkoutExerciseStore.GetCompletedCountForDate | app/src/main/java/com/ko/wellness/data/dao/WorkoutExerciseDao.kt:39-40 | the completed count, never above the date's count |
| WorkoutPlanDao.DeactivatedSpec | app/src/main/java/com/ko/wellness/data/dao/WorkoutPlanDao.kt:39-40 | `deactivateAllPlans` clears every flag, keeps every key and changes nothing else |
| WorkoutPlanDao.ActivateExisting | app/src/main/java/com/ko/wellness/data/dao/WorkoutPlanDao.kt:43-50 | activating an existing plan leaves exactly that plan active |
| WorkoutPlanDao.ActivateAbsent | app/src/main/java/com/ko/wellness/data/dao/WorkoutPlanDao.kt:43-50 | activating a missing id leaves no plan active |
| WorkoutPlanDao.ActivatedKeepsIdsAndNames | app/src/main/java/com/ko/wellness/data/dao/WorkoutPlanDao.kt:43-50 | activation keeps every key, and every plan differs at most in its flag |
| WorkoutPlanDao.ActivatedAtMostOne | app/src/main/java/com/ko/wellness/data/entities/WorkoutPlan.kt:12 | after `activatePlan` at most one plan is active, whatever the table held before |
| WorkoutPlanDao.ActivatedWellKeyed | app/src/main/java/com/ko/wellness/data/dao/WorkoutPlanDao.kt:43-50 | activation keeps the table well keyed |
| WorkoutPlanDao.AtMostOneActiveIds | app/src/main/java/com/ko/wellness/data/entities/WorkoutPlan.kt:12 | under the invariant, the set of active ids is empty or a single id |
| WorkoutPlanDao.WorkoutPlanStore.Insert | app/src/main/java/com/ko/wellness/data/dao/WorkoutPlanDao.kt:27-28 | REPLACE insert; id 0 gets a fresh id, which is returned |
| WorkoutPlanDao.WorkoutPlanStore.Update | app/src/main/java/com/ko/wellness/data/dao/WorkoutPlanDao.kt:31-32 | overwrites the plan with the same key, if any |
| WorkoutPlanDao.WorkoutPlanStore.Delete | app/src/main/java/com/ko/wellness/data/dao/WorkoutPlanDao.kt:35-36 | removes the plan's key |
| WorkoutPlanDao.WorkoutPlanStore.GetPlanById | app/src/main/java/com/ko/wellness/data/dao/WorkoutPlanDao.kt:23-24 | returns the stored plan exactly when the id is present |
| WorkoutPlanDao.WorkoutPlanStore.DeactivateAllPlans | app/src/main/java/com/ko/wellness/data/dao/WorkoutPlanDao.kt:39-40 | the table becomes the deactivated table |
| WorkoutPlanDao.WorkoutPlanStore.ActivatePlan | app/src/main/java/com/ko/wellness/data/dao/WorkoutPlanDao.kt:43-50 | the table becomes the activated table, with at most one plan active |
| WorkoutPlanDao.WorkoutPlanStore.GetActivePlan | app/src/main/java/com/ko/wellness/data/dao/WorkoutPlanDao.kt:15-16 | returns a stored active plan, and null exactly when no plan is active |
| PlanExerciseTable.ForPlanAndDaySpec | app/src/main/java/com/ko/wellness/data/dao/PlanExerciseDao.kt:15-16 | the query returns exactly that plan's rows for that day, ordered by `order` |
| PlanExerciseTable.UpdateRows | app/src/main/java/com/ko/wellness/data/dao/PlanExerciseDao.kt:23-24 | `@Update` overwrites the row with the same id and keeps every other row and every id in place |
| PlanExerciseTable.UpdateKeepsWellFormed | app/src/main/java/com/ko/wellness/data/dao/PlanExerciseDao.kt:23-24 | an update keeps ids positive, ascending and below the next id |
| PlanExerciseTable.DeleteKeepsWellFormed | app/src/main/java/com/ko/wellness/data/dao/PlanExerciseDao.kt:27-28 | a delete keeps the table well formed and removes exactly the rows with that id |
| PlanExerciseTable.PlanExerciseStore.InsertNew | app/src/main/java/com/ko/wellness/data/dao/PlanExerciseDao.kt:19-20 | a new row gets the next id and goes last in rowid order |
| PlanExerciseTable.PlanExerciseStore.Update | app/src/main/java/com/ko/wellness/data/dao/PlanExerciseDao.kt:23-24 | the rows become the updated rows |
| PlanExerciseTable.PlanExerciseStore.Delete | app/src/main/java/com/ko/wellness/data/dao/PlanExerciseDao.kt:27-28 | the rows lose that id |
| PlanExerciseTable.WithoutTemplateSpec | app/src/main/java/com/ko/wellness/data/entities/PlanExercise.kt:17-22 | the template cascade keeps the table well formed and removes exactly the rows that use the template |
| PlanExerciseTable.WithoutUnusedTemplate | app/src/main/java/com/ko/wellness/data/entities/PlanExercise.kt:17-22 | when no row uses the template the cascade removes nothing |
| PlanExerciseTable.PlanExerciseStore.DeleteForTemplate | app/src/main/java/com/ko/wellness/data/entities/PlanExercise.kt:17-22 | the rows become the old rows without those of the template, in rowid order |
| ExerciseTemplateTable.TemplateTable.Insert | app/src/main/java/com/ko/wellness/data/dao/ExerciseTemplateDao.kt:24-25 | REPLACE insert; id 0 gets a fresh id |
| ExerciseTemplateTable.TemplateTable.Update | app/src/main/java/com/ko/wellness/data/dao/ExerciseTemplateDao.kt:27-28 | overwrites the template with the same key, if any |
| ExerciseTemplateTable.TemplateTable.Delete | app/src/main/java/com/ko/wellness/data/dao/ExerciseTemplateDao.kt:30-31 | removes the template's key |
| PlayerSession.Initial | app/src/main/java/com/ko/wellness/ui/workouts/WorkoutPlayerActivity.kt:20-28 | the player starts at exercise 0, set 1, neither resting nor timing |
| PlayerSession.StartExercise | app/src/main/java/com/ko/wellness/ui/workouts/WorkoutPlayerActivity.kt:101-125 | past the end only the completion dialog changes; otherwise the set is entered not resting with a paused timer; a timed exercise loads `duration * 1000` ms, a rep exercise resets the rep box to 0 |
| PlayerSession.InitialInv | app/src/main/java/com/ko/wellness/ui/workouts/WorkoutPlayerActivity.kt:45-60 | loading a list and entering its first exercise establishes the invariant |
| PlayerSession.CommandsPreserveInv | app/src/main/java/com/ko/wellness/ui/workouts/WorkoutPlayerActivity.kt:157-238 | every command and timer event keeps the index within the list and the set within its exercise's range |
| PlayerSession.SetBounds | app/src/main/java/com/ko/wellness/ui/workouts/WorkoutPlayerActivity.kt:157-174 | for an exercise with at least one set, the current set lies in 1..sets |
| PlayerSession.CompleteSetSpec | app/src/main/java/com/ko/wellness/ui/workouts/WorkoutPlayerActivity.kt:157-174 | `completeSet()` writes exactly on the last set, writing that exercise's id and moving to set 1 of the next; otherwise it moves one set on into a 30 s rest |
| PlayerSession.CompleteSetIgnoresReps | app/src/main/java/com/ko/wellness/ui/workouts/WorkoutPlayerActivity.kt:157-174 | the rep box neither gates nor changes the write or the move |
| PlayerSession.NextSetIsCompleteSetWithoutWrite | app/src/main/java/com/ko/wellness/ui/workouts/WorkoutPlayerActivity.kt:210-226 | `nextSet()` makes exactly the move of `completeSet()` and never writes |
| PlayerSession.PreviousSetAtStart | app/src/main/java/com/ko/wellness/ui/workouts/WorkoutPlayerActivity.kt:189-208 | at the first set of the first exercise, outside a rest, nothing moves |
| PlayerSession.PreviousSetMovesIffHasPrevious | app/src/main/java/com/ko/wellness/ui/workouts/WorkoutPlayerActivity.kt:189-208 | outside a rest, "previous" moves exactly when its button is enabled |
| PlayerSession.NextSetStaysIffHasNext | app/src/main/java/com/ko/wellness/ui/workouts/WorkoutPlayerActivity.kt:252-256 | "next" stays within the workout exactly when its button is enabled |
| PlayerSession.PreviousUndoesNext | app/src/main/java/com/ko/wellness/ui/workouts/WorkoutPlayerActivity.kt:189-226 | "previous" after "next" returns to the same exercise and set |
| PlayerSession.SkipRestSpec | app/src/main/java/com/ko/wellness/ui/workouts/WorkoutPlayerActivity.kt:183-187 | skipping keeps the position and leaves the rest with the timer stopped |
| PlayerSession.StartExercisePastEnd | app/src/main/java/com/ko/wellness/ui/workouts/WorkoutPlayerActivity.kt:101-105 | past the last exercise only the completion dialog is shown |
| PlayerSession.StartRestSpec | app/src/main/java/com/ko/wellness/ui/workouts/WorkoutPlayerActivity.kt:127-136 | a rest starts paused at 30 000 ms and keeps the position |
| PlayerSession.PauseResumeKeepsRemaining | app/src/main/java/com/ko/wellness/ui/workouts/WorkoutPlayerActivity.kt:228-238 | pause and resume keep `remainingTime` and flip the running flag; toggling twice restores the state; `onPause` stops the timer and keeps the remaining time |
| PlayerSession.TimerFinishedOutsideRest | app/src/main/java/com/ko/wellness/ui/workouts/WorkoutPlayerActivity.kt:147-150 | the end of an exercise countdown is `completeSet()` |
| PlayerSession.RestFinishSkipsSet | app/src/main/java/com/ko/wellness/ui/workouts/WorkoutPlayerActivity.kt:147-150 | as written, the end of a rest before the second of two sets completes the exercise and moves on |
| PlayerSession.RestFinishIntended | app/src/main/java/com/ko/wellness/ui/workouts/WorkoutPlayerActivity.kt:147-150 | corrected: the end of a rest never writes and enters the set the rest preceded |
| PlayerSession.ProgressBounds | app/src/main/java/com/ko/wellness/ui/workouts/WorkoutPlayerActivity.kt:242 | the progress bar lies in 0..99 while an exercise is shown |
| PlayerSession.TimerDisplaySpec | app/src/main/java/com/ko/wellness/ui/workouts/WorkoutPlayerActivity.kt:282-285 | the seconds shown are below 60, and minutes and seconds make up the whole seconds left |
| PlayerSession.RepMinusSpec | app/src/main/java/com/ko/wellness/ui/workouts/WorkoutPlayerActivity.kt:93-98 | "-" only ever decrements a positive count and never takes a count below zero |
| PlayerSession.RepPlusMinus | app/src/main/java/com/ko/wellness/ui/workouts/WorkoutPlayerActivity.kt:88-98 | "+" gives a count of at least 1, and "+" then "-" returns to the parsed count |
| PlayerActivity.ApplyWriteMonotone | app/src/main/java/com/ko/wellness/ui/workouts/WorkoutPlayerActivity.kt:176-181 | the player's write never clears a completion and marks the written row completed |
| PlayerActivity.WorkoutPlayer.constructor | app/src/main/java/com/ko/wellness/ui/workouts/WorkoutPlayerActivity.kt:45-60 | the list is sorted by `order` and its first exercise entered |
| PlayerActivity.WorkoutPlayer.StartExercise | app/src/main/java/com/ko/wellness/ui/workouts/WorkoutPlayerActivity.kt:101-125 | performs `StartExercise` on the fields; the timer is untouched |
| PlayerActivity.WorkoutPlayer.StartRest | app/src/main/java/com/ko/wellness/ui/workouts/WorkoutPlayerActivity.kt:127-136 | performs `StartRest` on the fields |
| PlayerActivity.WorkoutPlayer.StartTimer | app/src/main/java/com/ko/wellness/ui/workouts/WorkoutPlayerActivity.kt:138-155 | cancels the previous timer, and a new one becomes the only live timer |
| PlayerActivity.WorkoutPlayer.CancelTimer | app/src/main/java/com/ko/wellness/ui/workouts/WorkoutPlayerActivity.kt:158-159 | no timer is live afterwards and the timer is marked not running |
| PlayerActivity.WorkoutPlayer.MarkExerciseComplete | app/src/main/java/com/ko/wellness/ui/workouts/WorkoutPlayerActivity.kt:176-181 | the store gets `updateCompletionStatus(id, true)` |
| PlayerActivity.WorkoutPlayer.CompleteSet | app/src/main/java/com/ko/wellness/ui/workouts/WorkoutPlayerActivity.kt:157-174 | performs `CompleteSet` on the fields, issues its write, and never clears a completion |
| PlayerActivity.WorkoutPlayer.SkipRest | app/src/main/java/com/ko/wellness/ui/workouts/WorkoutPlayerActivity.kt:183-187 | performs `SkipRest`; no timer is live |
| PlayerActivity.WorkoutPlayer.PreviousSet | app/src/main/java/com/ko/wellness/ui/workouts/WorkoutPlayerActivity.kt:189-208 | performs `PreviousSet`; no timer is live |
| PlayerActivity.WorkoutPlayer.NextSet | app/src/main/java/com/ko/wellness/ui/workouts/WorkoutPlayerActivity.kt:210-226 | performs `NextSet` and cannot write to the store |
| PlayerActivity.WorkoutPlayer.TogglePauseResume | app/src/main/java/com/ko/wellness/ui/workouts/WorkoutPlayerActivity.kt:228-238 | pausing leaves no live timer; resuming starts exactly one from `remainingTime` |
| PlayerActivity.WorkoutPlayer.OnPause | app/src/main/java/com/ko/wellness/ui/workouts/WorkoutPlayerActivity.kt:326-333 | leaving the screen stops any timer and keeps the remaining time |
| PlayerActivity.WorkoutPlayer.OnTick | app/src/main/java/com/ko/wellness/ui/workouts/WorkoutPlayerActivity.kt:142-145 | only a live timer's tick changes `remainingTime` |
| PlayerActivity.WorkoutPlayer.OnTimerFinish | app/src/main/java/com/ko/wellness/ui/workouts/WorkoutPlayerActivity.kt:147-150 | only a live timer's finish acts, and it runs `completeSet()`; a cancelled timer changes nothing |
| PlayerActivity.WorkoutPlayer.RepPlus | app/src/main/java/com/ko/wellness/ui/workouts/WorkoutPlayerActivity.kt:88-91 | only the rep box changes, to the "+" value |
| PlayerActivity.WorkoutPlayer.RepMinus | app/src/main/java/com/ko/wellness/ui/workouts/WorkoutPlayerActivity.kt:93-98 | only the rep box changes, to the "-" value |
| Today.ExerciseItems | app/src/main/java/com/ko/wellness/ui/workouts/TodayFragment.kt:178-180 | one `Exercise` item per row, in order |
| Today.GroupExercisesByCategory | app/src/main/java/com/ko/wellness/ui/workouts/TodayFragment.kt:164-185 | the loop builds the grouped list |
| Today.AddExercises | app/src/main/java/com/ko/wellness/ui/workouts/TodayFragment.kt:178-180 | the `forEach` appends one item per row |
| Today.GroupedShape | app/src/main/java/com/ko/wellness/ui/workouts/TodayFragment.kt:170-183 | the list is the Warm-Up block, then the Workout block, then the Cooldown block |
| Today.GroupedLength | app/src/main/java/com/ko/wellness/ui/workouts/TodayFragment.kt:172-183 | its length is the rows of the three categories plus one header per non-empty category |
| Today.SectionMembers | app/src/main/java/com/ko/wellness/ui/workouts/TodayFragment.kt:173-180 | a block holds exactly the rows of its category, and only its own header |
| Today.GroupedMembers | app/src/main/java/com/ko/wellness/ui/workouts/TodayFragment.kt:164-185 | a row appears exactly when its category is one of the three; a header appears exactly for a category with a row |
| Today.PercentageSpec | app/src/main/java/com/ko/wellness/ui/workouts/TodayFragment.kt:150-162 | the percentage lies in 0..100, is 0 for an empty day, and is 100 exactly when all rows are completed |
| Today.DayProgressSpec | app/src/main/java/com/ko/wellness/ui/workouts/TodayFragment.kt:150-162 | a non-empty day shows 100 exactly when every row is completed |
| Today.RowsFromPlan | app/src/main/java/com/ko/wellness/ui/workouts/TodayFragment.kt:118-135 | generated rows are new (id 0), dated, not completed, and no more than the plan exercises |
| Today.RowsFromPlanSpec | app/src/main/java/com/ko/wellness/ui/workouts/TodayFragment.kt:118-135 | the rows correspond one to one, in order, to the plan exercises that have a template, copying sets, reps, duration and order from it and name and category from the template |
| Today.InsertNewRowsKeepsRows | app/src/main/java/com/ko/wellness/ui/workouts/TodayFragment.kt:137-140 | inserting new rows changes no existing row |
| Today.GenerateOncePerDate | app/src/main/java/com/ko/wellness/ui/workouts/TodayFragment.kt:88-142 | generation writes only into an empty date, never changes an existing row, and after it has written every later call for that date is a no-op |
| Today.GenerateNoOps | app/src/main/java/com/ko/wellness/ui/workouts/TodayFragment.kt:90-116 | each early return leaves the table as it was |
| Today.GenerateDailyWorkoutsFromPlan | app/src/main/java/com/ko/wellness/ui/workouts/TodayFragment.kt:88-142 | against the stores, the table becomes the generated table for the active plan found; no plan is returned exactly when the date already has rows or no plan is active, otherwise the returned plan is the active plan as stored |
| Calendar.GenerateCalendarDays | app/src/main/java/com/ko/wellness/ui/calendar/CalendarFragment.kt:77-154 | the grid holds the previous month's tail, the month's days with today marked, then the next month's days up to 42 cells |
| Calendar.GridHas42Cells | app/src/main/java/com/ko/wellness/ui/calendar/CalendarFragment.kt:138-151 | with a first weekday in 0..6 and at most 31 days, the grid has exactly 42 cells |
| Calendar.GridFacts | app/src/main/java/com/ko/wellness/ui/calendar/CalendarFragment.kt:99-132 | only a cell of the month can be today, and at most one is; the leading cells end at the previous month's last day; the month's cells are its days in order |
| Calendar.Classify | app/src/main/java/com/ko/wellness/ui/calendar/CalendarFragment.kt:164-169 | NONE exactly without rows, NOT_STARTED exactly with rows and none completed, COMPLETE exactly when the counts agree and are positive |
| Calendar.StatusOfSpec | app/src/main/java/com/ko/wellness/ui/calendar/CalendarFragment.kt:156-176 | the colours in terms of the table: no rows, none completed, all completed, or some of each |
| Calendar.WithStatus | app/src/main/java/com/ko/wellness/ui/calendar/CalendarFragment.kt:156-176 | only cells of the month get a status, that of their own date; other cells are unchanged |
| Calendar.WithStatusKeepsGrid | app/src/main/java/com/ko/wellness/ui/calendar/CalendarFragment.kt:156-176 | loading the statuses keeps the grid's cells and order, and only colours cells of the month |
| PlanBuilder.DayForChip | app/src/main/java/com/ko/wellness/ui/workouts/PlanBuilderActivity.kt:79-88 | a chip gives a weekday constant, and no chip gives Monday |
| PlanBuilder.ChipsCoverTheWeek | app/src/main/java/com/ko/wellness/ui/workouts/PlanBuilderActivity.kt:79-88 | the seven chips select the seven weekdays, each a different one |
| PlanBuilder.WithTemplates | app/src/main/java/com/ko/wellness/ui/workouts/PlanBuilderActivity.kt:105-109 | each pair is a plan exercise with its own template |
| PlanBuilder.WithTemplatesMembers | app/src/main/java/com/ko/wellness/ui/workouts/PlanBuilderActivity.kt:105-109 | exactly the plan exercises with a template appear, each with that template |
| PlanBuilder.ExerciseRows | app/src/main/java/com/ko/wellness/ui/workouts/PlanBuilderActivity.kt:122-124 | one `Exercise` item per pair, in order |
| PlanBuilder.SectionsFromStep | app/src/main/java/com/ko/wellness/ui/workouts/PlanBuilderActivity.kt:115-126 | each pass of the loop appends one category's block |
| PlanBuilder.LoadedShape | app/src/main/java/com/ko/wellness/ui/workouts/PlanBuilderActivity.kt:113-126 | the list is the Warm-Up, Workout and Cooldown blocks in that order |
| PlanBuilder.CategorySectionEmpty | app/src/main/java/com/ko/wellness/ui/workouts/PlanBuilderActivity.kt:116-120 | a block is empty exactly when no pair has its category |
| PlanBuilder.CategorySectionShape | app/src/main/java/com/ko/wellness/ui/workouts/PlanBuilderActivity.kt:116-125 | a non-empty block is its header, then exercises of that category in ascending `order` |
| PlanBuilder.CategorySectionMembers | app/src/main/java/com/ko/wellness/ui/workouts/PlanBuilderActivity.kt:116-125 | a block holds exactly the pairs of its category |
| PlanBuilder.SectionHeaders | app/src/main/java/com/ko/wellness/ui/workouts/PlanBuilderActivity.kt:120-121 | a block's only header is its own category's |
| PlanBuilder.LoadedMembers | app/src/main/java/com/ko/wellness/ui/workouts/PlanBuilderActivity.kt:112-126 | an exercise appears exactly for a pair of the three categories; a header exactly for a category with a pair |
| PlanBuilder.SectionsGrouped | app/src/main/java/com/ko/wellness/ui/workouts/PlanBuilderActivity.kt:113-126 | blocks of distinct categories give a grouped list whose headers are those categories |
| PlanBuilder.LoadedGrouped | app/src/main/java/com/ko/wellness/ui/workouts/PlanBuilderActivity.kt:112-128 | the loaded list is grouped: one header per category, each exercise below its own category's header with only exercises between |
| PlanBuilder.MovedIndex | app/src/main/java/com/ko/wellness/ui/workouts/PlanBuilderActivity.kt:144-145 | where each element of the moved list comes from |
| PlanBuilder.MovedSpec | app/src/main/java/com/ko/wellness/ui/workouts/PlanBuilderActivity.kt:144-145 | a move is a permutation that puts the moved item at `to` and keeps the relative order of the others |
| PlanBuilder.SameCategoryBetween | app/src/main/java/com/ko/wellness/ui/workouts/PlanBuilderActivity.kt:115-126 | in a grouped list only exercises of one category lie between two exercises of it |
| PlanBuilder.MoveWithinRun | app/src/main/java/com/ko/wellness/ui/workouts/PlanBuilderActivity.kt:144-145 | moving within a run of rows of one kind and category leaves every position's kind and category unchanged |
| PlanBuilder.ForwardedMoveRun | app/src/main/java/com/ko/wellness/ui/workouts/PlanExerciseAdapter.kt:58-69 | the rows a forwarded move passes over are exercises of the moved row's category |
| PlanBuilder.ForwardedMoveKeepsGrouping | app/src/main/java/com/ko/wellness/ui/workouts/PlanExerciseAdapter.kt:58-69 | a move the adapter forwards keeps the list grouped, with the same kind and category at every position |
| PlanBuilder.ExercisesOf | app/src/main/java/com/ko/wellness/ui/workouts/PlanBuilderActivity.kt:151 | `filterIsInstance` yields exactly the plan exercises of the exercise rows, and never more elements than the list has |
| PlanBuilder.RenumberedSpec | app/src/main/java/com/ko/wellness/ui/workouts/PlanBuilderActivity.kt:151-155 | with distinct ids, the row of the i-th exercise becomes that exercise with `order` i; other rows and all ids are unchanged |
| PlanBuilder.RenumberedOrders | app/src/main/java/com/ko/wellness/ui/workouts/PlanBuilderActivity.kt:151-155 | the renumbered rows carry the orders 0, 1, ..., k-1 |
| PlanBuilder.MaxOrder | app/src/main/java/com/ko/wellness/ui/workouts/PlanBuilderActivity.kt:205 | null exactly for an empty list; otherwise an attained upper bound of the orders |
| PlanBuilder.NextOrderSpec | app/src/main/java/com/ko/wellness/ui/workouts/PlanBuilderActivity.kt:205-213 | the new order is 0 for an empty category, else one more than the largest order there, and above all of them |
| PlanBuilder.NewPlanExerciseSpec | app/src/main/java/com/ko/wellness/ui/workouts/PlanBuilderActivity.kt:194-217 | the new row belongs to the plan and day, copies the template's defaults, and comes after every exercise of the template's category that day |
| PlanBuilder.PlanBuilderScreen.constructor | app/src/main/java/com/ko/wellness/ui/workouts/PlanBuilderActivity.kt:39-50 | Monday's exercises are loaded, grouped |
| PlanBuilder.PlanBuilderScreen.LoadExercisesForDay | app/src/main/java/com/ko/wellness/ui/workouts/PlanBuilderActivity.kt:99-140 | the list becomes the day's grouped list |
| PlanBuilder.PlanBuilderScreen.SelectDay | app/src/main/java/com/ko/wellness/ui/workouts/PlanBuilderActivity.kt:77-91 | the day follows the chip and its list is loaded |
| PlanBuilder.PlanBuilderScreen.MoveExercise | app/src/main/java/com/ko/wellness/ui/workouts/PlanBuilderActivity.kt:142-157 | the list is moved in place, then the rows are renumbered by the list's exercise order |
| PlanBuilder.PlanBuilderScreen.OnItemMove | app/src/main/java/com/ko/wellness/ui/workouts/PlanExerciseAdapter.kt:58-69 | a drag moves and renumbers exactly when the adapter forwards it; otherwise nothing changes; the list stays grouped |
| PlanBuilder.PlanBuilderScreen.AddExerciseToPlan | app/src/main/java/com/ko/wellness/ui/workouts/PlanBuilderActivity.kt:194-230 | one row, the new plan exercise under the next id, is appended and the day reloaded |
| PlanBuilder.PlanBuilderScreen.DeletePlanExercise | app/src/main/java/com/ko/wellness/ui/workouts/PlanBuilderActivity.kt:232-238 | the row is deleted and the day reloaded |
| PlanBuilder.GroupByCategory | app/src/main/java/com/ko/wellness/ui/workouts/PlanBuilderActivity.kt:111-126 | the loop builds the grouped list |
| PlanBuilder.AddExerciseRows | app/src/main/java/com/ko/wellness/ui/workouts/PlanBuilderActivity.kt:122-124 | the `forEach` appends one item per pair |
| PlanExerciseAdapter.ItemViewType | app/src/main/java/com/ko/wellness/ui/workouts/PlanExerciseAdapter.kt:22-27 | TYPE_HEADER exactly for headers, TYPE_EXERCISE exactly for exercises |
| PlanExerciseAdapter.HeadersNeverMove | app/src/main/java/com/ko/wellness/ui/workouts/PlanExerciseAdapter.kt:58-69 | a move from or onto a header is never forwarded |
| PlanExerciseAdapter.DiffRulesConsistent | app/src/main/java/com/ko/wellness/ui/workouts/PlanExerciseAdapter.kt:106-126 | item identity is an equivalence that separates headers from exercises, and equal contents imply equal identity |
| PlanExerciseAdapter.ReorderedRowIsSameItem | app/src/main/java/com/ko/wellness/ui/workouts/PlanExerciseAdapter.kt:107-125 | a renumbered row is the same item with changed contents |
| PlanExerciseAdapter.DetailsTextSpec | app/src/main/java/com/ko/wellness/ui/workouts/PlanExerciseAdapter.kt:91-96 | the details line starts with the set count and ends in " reps" exactly when reps is set; otherwise it ends in the duration (or "null") and "s" |
| ExerciseLibrary.CategoryForChip | app/src/main/java/com/ko/wellness/ui/workouts/ExerciseLibraryFragment.kt:60-67 | no chip means all categories; a chip selects one of the three |
| ExerciseLibrary.ChipsSelectEachCategory | app/src/main/java/com/ko/wellness/ui/workouts/ExerciseLibraryFragment.kt:60-67 | the Warm-Up, Workout and Cooldown chips select "Warm-Up", "Workout" and "Cooldown" respectively, and no two chips select the same category |
| ExerciseLibrary.FilterTemplatesSpec | app/src/main/java/com/ko/wellness/ui/workouts/ExerciseLibraryFragment.kt:78-86 | no category keeps the list; a category keeps each of its templates as often as it occurs and drops all others |
| ExerciseLibrary.TemplateFromFormSpec | app/src/main/java/com/ko/wellness/ui/workouts/ExerciseLibraryFragment.kt:156-203 | save is refused exactly for a blank name; otherwise the type follows the reps radio, the category the category radio, the id is kept, name and description are the trimmed texts, the checked type's parsed numbers are stored as entered (unparsable ones become 3 sets, 10 reps, 30 s), and the other type's field is null |
| ExerciseLibrary.DialogTypesAccepted | app/src/main/java/com/ko/wellness/ui/workouts/ExerciseLibraryFragment.kt:175-203 | every type string the dialog stores is accepted by `ExerciseType.fromString` |
| ExerciseLibrary.PrefillRoundTrip | app/src/main/java/com/ko/wellness/ui/workouts/ExerciseLibraryFragment.kt:103-126 | corrected pre-fill: editing a template and saving it unchanged gives it back |
| ExerciseLibrary.PrefillAsWrittenLosesTimed | app/src/main/java/com/ko/wellness/ui/workouts/ExerciseLibraryFragment.kt:121-125 | as written, saving an unchanged TIMED template turns it into REPS, 3 sets of 10 |
| ExerciseLibrary.PrefillAsWrittenKeepsReps | app/src/main/java/com/ko/wellness/ui/workouts/ExerciseLibraryFragment.kt:116-120 | for REPS templates the pre-fill as written already round-trips |
| ExerciseLibrary.ExerciseLibraryScreen.LoadExercises | app/src/main/java/com/ko/wellness/ui/workouts/ExerciseLibraryFragment.kt:78-97 | the list shown is the filter of the delivered templates by the current category |
| ExerciseLibrary.ExerciseLibraryScreen.SelectCategory | app/src/main/java/com/ko/wellness/ui/workouts/ExerciseLibraryFragment.kt:60-70 | the category follows the chip and the list is reloaded |
| ExerciseLibrary.ExerciseLibraryScreen.SaveExercise | app/src/main/java/com/ko/wellness/ui/workouts/ExerciseLibraryFragment.kt:213-226 | id 0 inserts under a fresh id; any other id updates |
| ExerciseLibrary.ExerciseLibraryScreen.OnSaveClicked | app/src/main/java/com/ko/wellness/ui/workouts/ExerciseLibraryFragment.kt:156-207 | saves exactly when the trimmed name is non-empty, as a new template or an update of the edited one; otherwise the table is unchanged |
| ExerciseLibrary.ExerciseLibraryScreen.DeleteExercise | app/src/main/java/com/ko/wellness/ui/workouts/ExerciseLibraryFragment.kt:239-245 | the template's key is removed; if the template existed, the foreign-key cascade (PlanExercise.kt:17-22) removes exactly the plan exercises that use it, keeping the others in order |
| PlansList.PlanNameSpec | app/src/main/java/com/ko/wellness/ui/workouts/PlansListFragment.kt:124-128 | a name is refused exactly when the text is all whitespace; an accepted name is a non-empty trimmed piece of the text, accepted again unchanged |
| PlansList.ExerciseCountSpec | app/src/main/java/com/ko/wellness/data/dao/PlanExerciseDao.kt:39-40 | a plan's count is zero exactly when it has no exercise rows |
| PlansList.ExerciseTextSpec | app/src/main/java/com/ko/wellness/ui/workouts/WorkoutPlanAdapter.kt:56-60 | a row reads "No exercises added yet" exactly when its day count is not positive, and otherwise starts with its exercise count |
| PlansList.WriteInactive | app/src/main/java/com/ko/wellness/ui/workouts/PlansListFragment.kt:165-168 | writing an inactive plan only removes its id from the active set, so at most one plan stays active |
| PlansList.RenameOnlyChangesName | app/src/main/java/com/ko/wellness/ui/workouts/PlansListFragment.kt:155-157 | renaming the stored plan changes only its name, not the active set |
| PlansList.PlansListScreen.LoadPlans | app/src/main/java/com/ko/wellness/ui/workouts/PlansListFragment.kt:69-104 | one row per plan, in order, with its exercise count and day count 0, so every row reads "No exercises added yet" |
| PlansList.PlansListScreen.CreatePlan | app/src/main/java/com/ko/wellness/ui/workouts/PlansListFragment.kt:142-153 | adds an inactive plan under a fresh id, so the active set and the invariant are kept |
| PlansList.PlansListScreen.RenamePlan | app/src/main/java/com/ko/wellness/ui/workouts/PlansListFragment.kt:155-161 | writes the plan back with the new name; for the stored plan only the name changes (unreachable in the app: the dialog is only opened for a new plan) |
| PlansList.PlansListScreen.OnSaveClicked | app/src/main/java/com/ko/wellness/ui/workouts/PlansListFragment.kt:122-137 | nothing is written for a blank name; otherwise it creates a plan or renames the existing one with the trimmed name |
| PlansList.PlansListScreen.TogglePlanActivation | app/src/main/java/com/ko/wellness/ui/workouts/PlansListFragment.kt:163-176 | an active plan is written back inactive, touching no other row; an inactive one becomes the only active plan; at most one plan is active afterwards |

## Left out

- User interface: view binding, visibility, dialogs, Snackbars, colours and the adapters'
  view holders are not modelled. The plans list's empty state and the player's button
  labels are left out too.
- LiveData and coroutines: every `launch` is modelled as running to completion at once.
  Each LiveData emission is a parameter: the list the query delivered. Stale snapshots
  and interleavings between a write and the next emission are not modelled.
- `CountDownTimer` real time: ticks and the finish are events of a timer id. Tick
  granularity and drift are not modelled.
- `java.util.Calendar` and `SimpleDateFormat`: replaced by their results as parameters
  (weekday, month lengths, today's day, the date text of a day). `String.format` of the
  timer text is reduced to the minutes and seconds it shows.
- Kotlin `Int` and `Long` overflow is not modelled; all integers are unbounded.
  `Char.isWhitespace` is modelled for the ASCII range only.
- SQL ordering:
  - `ORDER BY category, name` for templates and `ORDER BY name` for plans are not
    modelled. Those lists are parameters in the order given.
  - `WorkoutExerciseDao.WorkoutExerciseStore.GetWorkoutsForDate` leaves the order open,
    because `ORDER BY 'order'` sorts by a constant string.
  - `getExercisesForPlanAndDay` is modelled as a stable sort on rowid order, one
    permitted order for ties in `order`.
- `WorkoutPlanDao.WorkoutPlanStore.GetActivePlan`: `LIMIT 1` without `ORDER BY` may
  return any active row. The model picks one nondeterministically.
- `ExerciseTemplateDao.getTemplateById` is a map parameter. The queries
  `getTemplatesByCategory`, `searchTemplates`, `getExercisesForPlan`,
  `deleteAllForPlan`, `deleteAllForPlanAndDay` and `getActivePlanLive` are unused by the
  modelled screens and not modelled.
- The plan builder's exercise picker and its search filter (a lower-case substring
  match) are not modelled. The template picked is a parameter of `AddExerciseToPlan`.
- The dialog's initial field values come from the layout XML, which is not part of this
  model. The form before pre-fill is a parameter.
- `deletePlan` in the plans list is not modelled. The foreign-key `CASCADE` it relies on
  to delete the plan's exercises is part of the database schema, not of the code
  modelled. `WorkoutPlanDao.WorkoutPlanStore.Delete` models the plan row's removal.
- The second, unused `getExercisesForPlanAndDay(plan.id, 0)` query in `loadPlans` is
  left out. Its result is never read.
- PlayerSession.CompleteSet requires an exercise on screen
  (`currentExerciseIndex < exercises.size`). After the last exercise the modal,
  non-cancelable completion dialog blocks every button of the player, so the indexing
  in the Kotlin code is never reached past the end.
- PlayerActivity.WorkoutPlayer.CompleteSet requires an exercise on screen, for the same
  reason.
- PlayerActivity.WorkoutPlayer.NextSet requires an exercise on screen, for the same reason.
- PlayerActivity.WorkoutPlayer.TogglePauseResume requires an exercise on screen. The
  Kotlin `togglePauseResume()` has no such guard and indexes nothing; the modal
  completion dialog is what keeps its button out of reach past the end. The model
  relies on that to keep every live timer tied to an exercise on screen.
- PlayerActivity.WorkoutPlayer.StartTimer requires an exercise on screen. Its only
  caller is `togglePauseResume()`.
- PlayerActivity.WorkoutPlayer.constructor requires a non-empty list. An empty list
  closes the player before any command.
- PlansList.PlansListScreen.RenamePlan states "only the name changes" only when the plan
  passed is the stored row. A stale row from an old list would also overwrite the flag
  with its stale value. The list is reloaded after every write, so this needs a stale
  snapshot, which is not modelled.
- Exiting the player with its confirmation dialog and `onDestroy`'s cancel are not
  modelled beyond `PlayerActivity.WorkoutPlayer.CancelTimer`.

## Findings

| source | as written | input that shows it | evidently intended | confidence | as-written member | corrected member |
|---|---|---|---|---|---|---|
| app/src/main/java/com/ko/wellness/ui/workouts/WorkoutPlayerActivity.kt:147-150 | the timer's `onFinish` always calls `completeSet()`, including when the countdown is a rest | an exercise with 2 sets; after set 1 the rest runs out: `completeSet()` sees set 2 of 2, marks the exercise completed and moves to the next exercise, so set 2 is never shown | the end of a rest starts the set it preceded, as "skip rest" does, without a write | not executed | PlayerSession.RestFinishSkipsSet | PlayerSession.RestFinishIntended |
| app/src/main/java/com/ko/wellness/ui/workouts/ExerciseLibraryFragment.kt:121-125 | pre-filling the edit dialog for a TIMED template checks `radioReps` | edit a TIMED template (3 sets, 45 s) and press Save without changes: the reps radio is checked and the reps fields are empty, so it is saved as REPS, 3 sets of 10, with no duration | a TIMED template checks the timed radio button, so saving unchanged keeps the template | not executed | ExerciseLibrary.PrefillAsWrittenLosesTimed | ExerciseLibrary.PrefillRoundTrip |
