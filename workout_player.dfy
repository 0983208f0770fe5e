/**
 * `WorkoutPlayerActivity` as an object: the session fields, the countdown timer and the
 * store it marks exercises completed in. Each command is proved to perform the
 * transition of the same name in `PlayerSession`, and to keep `Valid()`.
 *
 * The `CountDownTimer` is modelled by timer ids: `timer` is the last one created,
 * `liveTimers` those started and neither cancelled nor finished. Its ticks and its finish
 * are the events `OnTick` and `OnTimerFinish`, which a cancelled timer never delivers.
 */
module PlayerActivity {
  import opened Wrappers
  import opened Entities
  import opened Seqs
  import opened PlayerSession
  import WorkoutExerciseDao

  /** The store write `completeSet()` issues for a transition's completion, if any. */
  function ApplyWrite(rows: WorkoutExerciseDao.Rows, w: Option<int>): WorkoutExerciseDao.Rows
  {
    if w.Some? then WorkoutExerciseDao.WithCompletion(rows, w.value, true) else rows
  }

  /** The player never clears a completion: every write sets `isCompleted` to true. */
  lemma ApplyWriteMonotone(rows: WorkoutExerciseDao.Rows, w: Option<int>)
    ensures WorkoutExerciseDao.CompletedIds(rows) <= WorkoutExerciseDao.CompletedIds(ApplyWrite(rows, w))
    ensures ApplyWrite(rows, w).Keys == rows.Keys
    ensures w.Some? && w.value in rows ==> ApplyWrite(rows, w)[w.value].isCompleted
  {
    if w.Some? {
      WorkoutExerciseDao.CompletingIsMonotone(rows, w.value);
      WorkoutExerciseDao.CompletionTouchesOnlyTheFlag(rows, w.value, true);
    }
  }

  class WorkoutPlayer {
    var exercises: seq<WorkoutExercise>
    var currentExerciseIndex: int
    var currentSet: int
    var isResting: bool
    var isTimerRunning: bool
    var remainingTime: int
    var totalTime: int
    var repText: Option<int>
    var finished: bool

    var timer: Option<int>
    var timerDuration: int
    var liveTimers: set<int>
    var nextTimerId: int

    const store: WorkoutExerciseDao.WorkoutExerciseStore

    function Snapshot(): Session
      reads this
    {
      Session(exercises, currentExerciseIndex, currentSet, isResting, isTimerRunning,
              remainingTime, totalTime, repText, finished)
    }

    /** At most one live timer, the last one created; it is live exactly while running. */
    ghost predicate TimerInv()
      reads this
    {
      (timer.None? ==> liveTimers == {})
      && (timer.Some? ==> liveTimers <= {timer.value} && timer.value < nextTimerId)
      && (isTimerRunning <==> liveTimers != {})
      && (liveTimers != {} ==> currentExerciseIndex < |exercises|)
    }

    ghost predicate Valid()
      reads this, store
    {
      Inv(Snapshot()) && |exercises| > 0 && TimerInv() && store.Valid()
    }

    /**
     * The first delivery of the date's rows: they are sorted by `order` and the first
     * exercise is entered. An empty list closes the screen instead, so it never gets here.
     */
    constructor (store: WorkoutExerciseDao.WorkoutExerciseStore, workoutList: seq<WorkoutExercise>)
      requires store.Valid() && |workoutList| > 0
      ensures Valid() && this.store == store
      ensures exercises == SortByKey(workoutList, WorkoutOrder)
      ensures Snapshot() == PlayerSession.StartExercise(Initial(SortByKey(workoutList, WorkoutOrder)))
    {
      this.store := store;
      exercises := SortByKey(workoutList, WorkoutOrder);
      currentExerciseIndex := 0;
      currentSet := 1;
      isResting := false;
      isTimerRunning := false;
      remainingTime := 0;
      totalTime := 0;
      repText := None;
      finished := false;
      timer := None;
      timerDuration := 0;
      liveTimers := {};
      nextTimerId := 0;
      new;
      StartExercise();
      InitialInv(SortByKey(workoutList, WorkoutOrder));
    }

    /** `startExercise()`; called only once the timer is cancelled. */
    method StartExercise()
      requires liveTimers == {} && !isTimerRunning
      modifies this
      ensures Snapshot() == PlayerSession.StartExercise(old(Snapshot()))
      ensures unchanged(`timer, `timerDuration, `liveTimers, `nextTimerId)
      ensures !isTimerRunning && exercises == old(exercises)
    {
      if currentExerciseIndex >= |exercises| {
        finished := true;
        return;
      }
      if currentExerciseIndex < 0 {
        return;
      }
      var exercise := exercises[currentExerciseIndex];
      isResting := false;
      isTimerRunning := false;
      if exercise.duration.Some? {
        totalTime := exercise.duration.value * 1000;
        remainingTime := totalTime;
      } else {
        repText := Some(0);
      }
    }

    /** `startRest()`. */
    method StartRest()
      modifies this
      ensures Snapshot() == PlayerSession.StartRest(old(Snapshot()))
      ensures unchanged(`timer, `timerDuration, `liveTimers, `nextTimerId)
      ensures !isTimerRunning && exercises == old(exercises) && currentExerciseIndex == old(currentExerciseIndex)
    {
      isResting := true;
      isTimerRunning := false;
      totalTime := REST_DURATION;
      remainingTime := totalTime;
    }

    /** `startTimer(durationMillis)`: cancel the previous timer, then start a new one. */
    method StartTimer(durationMillis: int)
      requires TimerInv() && currentExerciseIndex < |exercises|
      modifies this
      ensures TimerInv()
      ensures Snapshot() == old(Snapshot()).(isTimerRunning := true)
      ensures timer.Some? && liveTimers == {timer.value} && timerDuration == durationMillis
      ensures old(timer).Some? ==> old(timer).value !in liveTimers
    {
      liveTimers := {};
      timer := Some(nextTimerId);
      nextTimerId := nextTimerId + 1;
      timerDuration := durationMillis;
      liveTimers := {timer.value};
      isTimerRunning := true;
    }

    /** `timer?.cancel()` followed by `isTimerRunning = false`. */
    method CancelTimer()
      requires TimerInv()
      modifies this
      ensures TimerInv() && liveTimers == {}
      ensures Snapshot() == old(Snapshot()).(isTimerRunning := false)
      ensures unchanged(`timer, `timerDuration, `nextTimerId)
    {
      liveTimers := {};
      isTimerRunning := false;
    }

    /** `markExerciseComplete(exercise)`: the one store write of the player. */
    method MarkExerciseComplete(exercise: WorkoutExercise)
      requires store.Valid()
      modifies store
      ensures store.Valid()
      ensures store.rows == WorkoutExerciseDao.WithCompletion(old(store.rows), exercise.id, true)
    {
      store.UpdateCompletionStatus(exercise.id, true);
    }

    /** `completeSet()`. */
    method CompleteSet()
      requires Valid() && currentExerciseIndex < |exercises|
      modifies this, store
      ensures Valid()
      ensures Snapshot() == PlayerSession.CompleteSet(old(Snapshot())).session
      ensures store.rows == ApplyWrite(old(store.rows), PlayerSession.CompleteSet(old(Snapshot())).completedId)
      ensures WorkoutExerciseDao.CompletedIds(old(store.rows)) <= WorkoutExerciseDao.CompletedIds(store.rows)
      ensures liveTimers == {} && unchanged(`timer, `nextTimerId)
    {
      ghost var s0 := Snapshot();
      ghost var rows0 := store.rows;
      ghost var step := PlayerSession.CompleteSet(s0);
      CancelTimer();
      ghost var stopped := Snapshot();
      var exercise := exercises[currentExerciseIndex];
      if currentSet < exercise.sets {
        assert step.completedId.None?;
        currentSet := currentSet + 1;
        ghost var before := Snapshot();
        assert before == stopped.(currentSet := stopped.currentSet + 1);
        StartRest();
      } else {
        assert step.completedId == Some(exercise.id);
        MarkExerciseComplete(exercise);
        assert store.rows == ApplyWrite(rows0, step.completedId);
        currentSet := 1;
        currentExerciseIndex := currentExerciseIndex + 1;
        ghost var before := Snapshot();
        assert before == stopped.(currentSet := 1, currentExerciseIndex := stopped.currentExerciseIndex + 1);
        StartExercise();
      }
      CompleteSetKeepsInv(s0);
      ApplyWriteMonotone(rows0, step.completedId);
    }

    /** `skipRest()`. */
    method SkipRest()
      requires Valid()
      modifies this
      ensures Valid()
      ensures Snapshot() == PlayerSession.SkipRest(old(Snapshot()))
      ensures liveTimers == {}
    {
      CancelTimer();
      StartExercise();
      SkipRestKeepsInv(old(Snapshot()));
    }

    /** `previousSet()`. */
    method PreviousSet()
      requires Valid()
      modifies this
      ensures Valid()
      ensures Snapshot() == PlayerSession.PreviousSet(old(Snapshot()))
      ensures liveTimers == {}
    {
      ghost var s0 := Snapshot();
      CancelTimer();
      ghost var stopped := Snapshot();
      if isResting || currentSet > 1 {
        currentSet := currentSet - 1;
        ghost var before := Snapshot();
        assert before == stopped.(currentSet := stopped.currentSet - 1);
        StartExercise();
        assert Snapshot() == PlayerSession.PreviousSet(s0);
      } else if currentExerciseIndex > 0 {
        currentExerciseIndex := currentExerciseIndex - 1;
        var prevExercise := exercises[currentExerciseIndex];
        currentSet := prevExercise.sets;
        ghost var before := Snapshot();
        assert before == stopped.(currentExerciseIndex := stopped.currentExerciseIndex - 1, currentSet := prevExercise.sets);
        StartExercise();
        assert Snapshot() == PlayerSession.PreviousSet(s0);
      }
      PreviousSetKeepsInv(s0);
    }

    /** `nextSet()`: the store is outside its frame, so it cannot write. */
    method NextSet()
      requires Valid() && currentExerciseIndex < |exercises|
      modifies this
      ensures Valid()
      ensures Snapshot() == PlayerSession.NextSet(old(Snapshot()))
      ensures liveTimers == {}
    {
      ghost var s0 := Snapshot();
      CancelTimer();
      ghost var stopped := Snapshot();
      var exercise := exercises[currentExerciseIndex];
      if currentSet < exercise.sets {
        currentSet := currentSet + 1;
        ghost var before := Snapshot();
        assert before == stopped.(currentSet := stopped.currentSet + 1);
        StartRest();
      } else {
        currentSet := 1;
        currentExerciseIndex := currentExerciseIndex + 1;
        ghost var before := Snapshot();
        assert before == stopped.(currentSet := 1, currentExerciseIndex := stopped.currentExerciseIndex + 1);
        StartExercise();
      }
      CompleteSetKeepsInv(s0);
    }

    /**
     * `togglePauseResume()`: pausing cancels the timer and keeps `remainingTime`; resuming
     * starts a new timer from `remainingTime`. The button is only reachable before the
     * modal completion dialog, so while an exercise is shown.
     */
    method TogglePauseResume()
      requires Valid() && currentExerciseIndex < |exercises|
      modifies this
      ensures Valid()
      ensures Snapshot() == PlayerSession.TogglePauseResume(old(Snapshot()))
      ensures old(isTimerRunning) ==> liveTimers == {}
      ensures !old(isTimerRunning) ==> timer.Some? && liveTimers == {timer.value}
                                       && timerDuration == old(remainingTime)
    {
      if isTimerRunning {
        CancelTimer();
      } else {
        StartTimer(remainingTime);
      }
      CommandsPreserveInv(old(Snapshot()));
    }

    /** `onPause()`. */
    method OnPause()
      requires Valid()
      modifies this
      ensures Valid()
      ensures Snapshot() == PlayerSession.Pause(old(Snapshot()))
      ensures liveTimers == {}
    {
      if isTimerRunning {
        CancelTimer();
      }
      CommandsPreserveInv(old(Snapshot()));
    }

    /** A tick of timer `t`; only a live timer ticks. */
    method OnTick(t: int, millisUntilFinished: int)
      requires Valid()
      modifies this
      ensures Valid()
      ensures t in old(liveTimers) ==> Snapshot() == Tick(old(Snapshot()), millisUntilFinished)
      ensures t !in old(liveTimers) ==> Snapshot() == old(Snapshot())
      ensures unchanged(`timer, `liveTimers)
    {
      if t in liveTimers {
        remainingTime := millisUntilFinished;
      }
      CommandsPreserveInv(old(Snapshot()));
    }

    /**
     * The finish of timer `t`, exercise countdown or rest alike: it stops and runs
     * `completeSet()`. A cancelled timer never finishes.
     */
    method OnTimerFinish(t: int)
      requires Valid()
      modifies this, store
      ensures Valid()
      ensures t in old(liveTimers) ==> Snapshot() == TimerFinished(old(Snapshot())).session
                                       && store.rows == ApplyWrite(old(store.rows), TimerFinished(old(Snapshot())).completedId)
      ensures t !in old(liveTimers) ==> Snapshot() == old(Snapshot()) && store.rows == old(store.rows)
      ensures WorkoutExerciseDao.CompletedIds(old(store.rows)) <= WorkoutExerciseDao.CompletedIds(store.rows)
    {
      if t in liveTimers {
        liveTimers := liveTimers - {t};
        isTimerRunning := false;
        CompleteSet();
      }
    }

    /** The "+" button of the rep box. */
    method RepPlus()
      requires Valid()
      modifies this
      ensures Valid()
      ensures Snapshot() == old(Snapshot()).(repText := PlayerSession.RepPlus(old(repText)))
    {
      var current := repText.GetOr(0);
      repText := Some(current + 1);
    }

    /** The "-" button of the rep box. */
    method RepMinus()
      requires Valid()
      modifies this
      ensures Valid()
      ensures Snapshot() == old(Snapshot()).(repText := PlayerSession.RepMinus(old(repText)))
    {
      var current := repText.GetOr(0);
      if current > 0 {
        repText := Some(current - 1);
      }
    }
  }
}
