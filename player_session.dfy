/**
 * The workout player's state and its transitions, as pure functions on a snapshot of
 * the fields of `WorkoutPlayerActivity`. The class `PlayerActivity.WorkoutPlayer` keeps
 * these fields and runs the same transitions in place, adding the countdown timer.
 */
module PlayerSession {
  import opened Wrappers
  import opened Entities

  /** The length of a rest between two sets, in milliseconds. */
  const REST_DURATION: int := 30000

  /**
   * The player's fields. `repText` is the number in the rep entry box (`None` when its
   * text does not parse); `finished` is set once the "Workout Complete!" dialog is shown.
   */
  datatype Session = Session(
    exercises: seq<WorkoutExercise>,
    currentExerciseIndex: int,
    currentSet: int,
    isResting: bool,
    isTimerRunning: bool,
    remainingTime: int,
    totalTime: int,
    repText: Option<int>,
    finished: bool)

  /** A transition's new snapshot and the id it marks completed in the store, if any. */
  datatype Step = Step(session: Session, completedId: Option<int>)

  /** The field values before the list is loaded. */
  function Initial(exercises: seq<WorkoutExercise>): (s: Session)
    ensures s.currentExerciseIndex == 0 && s.currentSet == 1 && !s.isResting && !s.isTimerRunning
  {
    Session(exercises, 0, 1, false, false, 0, 0, None, false)
  }

  function Count(s: Session): int
  {
    |s.exercises|
  }

  function SetsOf(s: Session, i: int): int
    requires 0 <= i < |s.exercises|
  {
    s.exercises[i].sets
  }

  /**
   * Where `currentSet` may stand on an exercise with `sets` sets: within 1..sets, or at
   * 1 (the set an exercise is entered at), or at `sets` (where `previousSet` puts it).
   * The last two only differ from the first when a template was saved with `sets < 1`.
   */
  predicate SetInRange(set_: int, sets: int)
  {
    (1 <= set_ <= sets) || set_ == 1 || set_ == sets
  }

  /** The invariant every transition keeps. */
  predicate Inv(s: Session)
  {
    0 <= s.currentExerciseIndex <= Count(s)
    && (s.currentExerciseIndex < Count(s) ==>
          SetInRange(s.currentSet, SetsOf(s, s.currentExerciseIndex))
          && (s.isResting ==> 2 <= s.currentSet <= SetsOf(s, s.currentExerciseIndex)))
  }

  /**
   * `startExercise()`: past the last exercise the completion dialog is shown and nothing
   * else changes; otherwise the current exercise is entered at `currentSet`, with its
   * countdown loaded (paused) for a timed exercise, or the rep box reset to 0.
   */
  function StartExercise(s: Session): (r: Session)
    ensures r.exercises == s.exercises && r.currentExerciseIndex == s.currentExerciseIndex
    ensures r.currentSet == s.currentSet
    ensures s.currentExerciseIndex >= Count(s) ==> r == s.(finished := true)
    ensures 0 <= s.currentExerciseIndex < Count(s) ==>
              !r.isResting && !r.isTimerRunning && r.finished == s.finished
    ensures 0 <= s.currentExerciseIndex < Count(s) && s.exercises[s.currentExerciseIndex].duration.Some? ==>
              r.totalTime == r.remainingTime == s.exercises[s.currentExerciseIndex].duration.value * 1000
              && r.repText == s.repText
    ensures 0 <= s.currentExerciseIndex < Count(s) && s.exercises[s.currentExerciseIndex].duration.None? ==>
              r.repText == Some(0) && r.totalTime == s.totalTime && r.remainingTime == s.remainingTime
  {
    if s.currentExerciseIndex >= Count(s) || s.currentExerciseIndex < 0 then
      if s.currentExerciseIndex >= Count(s) then s.(finished := true)
      else s
    else
      var e := s.exercises[s.currentExerciseIndex];
      var entered := s.(isResting := false, isTimerRunning := false);
      if e.duration.Some? then
        entered.(totalTime := e.duration.value * 1000, remainingTime := e.duration.value * 1000)
      else
        entered.(repText := Some(0))
  }

  /** `startRest()`: a paused 30-second rest countdown. */
  function StartRest(s: Session): Session
  {
    s.(isResting := true, isTimerRunning := false, totalTime := REST_DURATION, remainingTime := REST_DURATION)
  }

  /**
   * `completeSet()`: with sets left, move to the next set through a rest; on the last set,
   * mark the exercise completed, go to set 1 of the next exercise and enter it. Neither
   * `isResting` nor the rep box is consulted.
   */
  function CompleteSet(s: Session): Step
    requires 0 <= s.currentExerciseIndex < Count(s)
  {
    var e := s.exercises[s.currentExerciseIndex];
    var stopped := s.(isTimerRunning := false);
    if s.currentSet < e.sets then
      Step(StartRest(stopped.(currentSet := s.currentSet + 1)), None)
    else
      Step(StartExercise(stopped.(currentSet := 1, currentExerciseIndex := s.currentExerciseIndex + 1)), Some(e.id))
  }

  /** `nextSet()`: the same moves as `completeSet()`, without the store write. */
  function NextSet(s: Session): Session
    requires 0 <= s.currentExerciseIndex < Count(s)
  {
    var e := s.exercises[s.currentExerciseIndex];
    var stopped := s.(isTimerRunning := false);
    if s.currentSet < e.sets then
      StartRest(stopped.(currentSet := s.currentSet + 1))
    else
      StartExercise(stopped.(currentSet := 1, currentExerciseIndex := s.currentExerciseIndex + 1))
  }

  /**
   * `previousSet()`: from a rest, back to the set before it; otherwise one set back, or to
   * the last set of the previous exercise; at the very first set nothing moves.
   */
  function PreviousSet(s: Session): Session
    requires 0 <= s.currentExerciseIndex <= Count(s)
  {
    var stopped := s.(isTimerRunning := false);
    if s.isResting then
      StartExercise(stopped.(currentSet := s.currentSet - 1))
    else if s.currentSet > 1 then
      StartExercise(stopped.(currentSet := s.currentSet - 1))
    else if s.currentExerciseIndex > 0 then
      var i := s.currentExerciseIndex - 1;
      StartExercise(stopped.(currentExerciseIndex := i, currentSet := s.exercises[i].sets))
    else
      stopped
  }

  /** `skipRest()`: re-enter the current set without waiting. */
  function SkipRest(s: Session): Session
  {
    StartExercise(s.(isTimerRunning := false))
  }

  /** `togglePauseResume()`: pause a running timer, or start one from `remainingTime`. */
  function TogglePauseResume(s: Session): Session
  {
    s.(isTimerRunning := !s.isTimerRunning)
  }

  /** `onPause()`: the screen leaves the foreground; a running timer is stopped. */
  function Pause(s: Session): Session
  {
    s.(isTimerRunning := false)
  }

  /** A timer tick reports the milliseconds left. */
  function Tick(s: Session, millisUntilFinished: int): Session
  {
    s.(remainingTime := millisUntilFinished)
  }

  /** The timer's `onFinish`, as written: stop, then `completeSet()`, resting or not. */
  function TimerFinished(s: Session): Step
    requires 0 <= s.currentExerciseIndex < Count(s)
  {
    CompleteSet(s.(isTimerRunning := false))
  }

  /**
   * The corrected `onFinish`: the end of a rest starts the set it preceded, as
   * `skipRest()` does; only an exercise countdown completes a set.
   */
  function TimerFinishedIntended(s: Session): Step
    requires 0 <= s.currentExerciseIndex < Count(s)
  {
    if s.isResting then Step(SkipRest(s), None)
    else CompleteSet(s.(isTimerRunning := false))
  }

  /** The "+" button: the parsed count (0 when unparsable) plus one. */
  function RepPlus(text: Option<int>): Option<int>
  {
    Some(text.GetOr(0) + 1)
  }

  /** The "-" button: one less, only when the parsed count is positive. */
  function RepMinus(text: Option<int>): Option<int>
  {
    if text.GetOr(0) > 0 then Some(text.GetOr(0) - 1) else text
  }

  /** `(currentExerciseIndex * 100) / exercises.size` in `updateUI`. */
  function ProgressPercent(index: int, n: int): int
    requires n > 0 && index >= 0
  {
    (index * 100) / n
  }

  /** The enabled state of the "previous" button. */
  predicate HasPrevious(s: Session)
  {
    s.currentExerciseIndex > 0 || s.currentSet > 1
  }

  /** The enabled state of the "next" button. */
  predicate HasNext(s: Session)
    requires 0 <= s.currentExerciseIndex < Count(s)
  {
    s.currentExerciseIndex < Count(s) - 1 || s.currentSet < SetsOf(s, s.currentExerciseIndex)
  }

  /** Kotlin's `/` on integers, which truncates toward zero. */
  function TruncDiv(a: int, b: int): int
    requires b > 0
  {
    if a >= 0 then a / b else -((-a) / b)
  }

  /** Kotlin's `%` on integers: the remainder takes the sign of the dividend. */
  function TruncRem(a: int, b: int): int
    requires b > 0
  {
    a - b * TruncDiv(a, b)
  }

  /** `updateTimerDisplay`: the minutes and the seconds shown as "m:ss". */
  function TimerDisplay(millis: int): (int, int)
  {
    var seconds := TruncDiv(millis, 1000);
    (TruncDiv(seconds, 60), TruncRem(seconds, 60))
  }

  /** The position a transition moves: which exercise and which set. */
  function Position(s: Session): (int, int)
  {
    (s.currentExerciseIndex, s.currentSet)
  }

  // ---- invariant ----

  /** Loading a list and entering its first exercise establishes the invariant. */
  lemma InitialInv(exercises: seq<WorkoutExercise>)
    ensures Inv(StartExercise(Initial(exercises)))
  {
  }

  /** Entering an exercise at a set within its range gives a state satisfying the invariant. */
  lemma EnterKeepsInv(s: Session)
    requires 0 <= s.currentExerciseIndex <= Count(s)
    requires s.currentExerciseIndex < Count(s) ==> SetInRange(s.currentSet, SetsOf(s, s.currentExerciseIndex))
    ensures Inv(StartExercise(s))
  {
  }

  /** `completeSet()`, `nextSet()` and the timer's finish as written keep the invariant. */
  lemma CompleteSetKeepsInv(s: Session)
    requires Inv(s) && s.currentExerciseIndex < Count(s)
    ensures Inv(CompleteSet(s).session) && Inv(NextSet(s)) && Inv(TimerFinished(s).session)
  {
    var i := s.currentExerciseIndex;
    if s.currentSet < SetsOf(s, i) {
      assert 1 <= s.currentSet;
    } else {
      EnterKeepsInv(s.(isTimerRunning := false, currentSet := 1, currentExerciseIndex := i + 1));
    }
  }

  /** `previousSet()` keeps the invariant. */
  lemma PreviousSetKeepsInv(s: Session)
    requires Inv(s)
    ensures Inv(PreviousSet(s))
  {
    var stopped := s.(isTimerRunning := false);
    if s.isResting || s.currentSet > 1 {
      EnterKeepsInv(stopped.(currentSet := s.currentSet - 1));
    } else if s.currentExerciseIndex > 0 {
      var i := s.currentExerciseIndex - 1;
      EnterKeepsInv(stopped.(currentExerciseIndex := i, currentSet := s.exercises[i].sets));
    }
  }

  /** `skipRest()` and the intended timer finish keep the invariant. */
  lemma SkipRestKeepsInv(s: Session)
    requires Inv(s)
    ensures Inv(SkipRest(s))
    ensures s.currentExerciseIndex < Count(s) ==> Inv(TimerFinishedIntended(s).session)
  {
    EnterKeepsInv(s.(isTimerRunning := false));
    if s.currentExerciseIndex < Count(s) {
      CompleteSetKeepsInv(s);
    }
  }

  /** Every user command and timer event keeps the invariant. */
  lemma {:induction false} CommandsPreserveInv(s: Session)
    requires Inv(s)
    ensures Inv(PreviousSet(s))
    ensures Inv(SkipRest(s))
    ensures Inv(TogglePauseResume(s)) && Inv(Pause(s))
    ensures forall ms :: Inv(Tick(s, ms))
    ensures s.currentExerciseIndex < Count(s) ==> Inv(CompleteSet(s).session) && Inv(NextSet(s))
    ensures s.currentExerciseIndex < Count(s) ==> Inv(TimerFinished(s).session)
    ensures s.currentExerciseIndex < Count(s) ==> Inv(TimerFinishedIntended(s).session)
  {
    PreviousSetKeepsInv(s);
    SkipRestKeepsInv(s);
    if s.currentExerciseIndex < Count(s) {
      CompleteSetKeepsInv(s);
    }
  }

  /** For exercises with at least one set, the current set lies in 1..sets. */
  lemma SetBounds(s: Session)
    requires Inv(s) && s.currentExerciseIndex < Count(s)
    requires SetsOf(s, s.currentExerciseIndex) >= 1
    ensures 1 <= s.currentSet <= SetsOf(s, s.currentExerciseIndex)
  {
  }

  // ---- completeSet, nextSet, previousSet, skipRest ----

  /**
   * `completeSet()` writes exactly when the current set is the last one, and then it
   * writes the current exercise's id and moves to set 1 of the next exercise; otherwise
   * it moves one set on and rests.
   */
  lemma CompleteSetSpec(s: Session)
    requires 0 <= s.currentExerciseIndex < Count(s)
    ensures var r := CompleteSet(s);
      && (r.completedId.Some? <==> s.currentSet >= SetsOf(s, s.currentExerciseIndex))
      && (r.completedId.Some? ==>
            r.completedId.value == s.exercises[s.currentExerciseIndex].id
            && Position(r.session) == (s.currentExerciseIndex + 1, 1))
      && (r.completedId.None? ==>
            Position(r.session) == (s.currentExerciseIndex, s.currentSet + 1) && r.session.isResting
            && r.session.remainingTime == REST_DURATION)
      && !r.session.isTimerRunning
  {
  }

  /** The rep box plays no part in `completeSet()`: it neither gates nor changes the write. */
  lemma CompleteSetIgnoresReps(s: Session, a: Option<int>, b: Option<int>)
    requires 0 <= s.currentExerciseIndex < Count(s)
    ensures CompleteSet(s.(repText := a)).completedId == CompleteSet(s.(repText := b)).completedId
    ensures Position(CompleteSet(s.(repText := a)).session) == Position(CompleteSet(s.(repText := b)).session)
  {
  }

  /** `nextSet()` makes exactly the move `completeSet()` makes, and never writes. */
  lemma NextSetIsCompleteSetWithoutWrite(s: Session)
    requires 0 <= s.currentExerciseIndex < Count(s)
    ensures NextSet(s) == CompleteSet(s).session
  {
  }

  /** At the first set of the first exercise, outside a rest, `previousSet()` moves nothing. */
  lemma PreviousSetAtStart(s: Session)
    requires 0 <= Count(s) && s.currentExerciseIndex == 0 && s.currentSet == 1 && !s.isResting
    ensures PreviousSet(s) == s.(isTimerRunning := false)
  {
  }

  /** Outside a rest, `previousSet()` moves exactly when the "previous" button is enabled. */
  lemma PreviousSetMovesIffHasPrevious(s: Session)
    requires Inv(s) && !s.isResting
    ensures Position(PreviousSet(s)) != Position(s) <==> HasPrevious(s)
  {
  }

  /** "next" stays within the workout exactly when the "next" button is enabled. */
  lemma NextSetStaysIffHasNext(s: Session)
    requires 0 <= s.currentExerciseIndex < Count(s)
    ensures NextSet(s).currentExerciseIndex < Count(s) <==> HasNext(s)
  {
  }

  /** `previousSet()` takes back the move of `nextSet()`. */
  lemma PreviousUndoesNext(s: Session)
    requires Inv(s) && s.currentExerciseIndex < Count(s)
    requires s.currentSet <= SetsOf(s, s.currentExerciseIndex)
    requires !s.isResting
    ensures Position(PreviousSet(NextSet(s))) == Position(s)
  {
  }

  /** `skipRest()` keeps the position and, within the workout, leaves the rest. */
  lemma SkipRestSpec(s: Session)
    ensures Position(SkipRest(s)) == Position(s)
    ensures 0 <= s.currentExerciseIndex < Count(s) ==> !SkipRest(s).isResting && !SkipRest(s).isTimerRunning
  {
  }

  /** Entering an exercise past the end changes nothing but the completion dialog. */
  lemma StartExercisePastEnd(s: Session)
    requires s.currentExerciseIndex >= Count(s)
    ensures StartExercise(s) == s.(finished := true)
  {
  }

  /** A rest is always a paused 30-second countdown when it starts. */
  lemma StartRestSpec(s: Session)
    ensures StartRest(s).isResting && !StartRest(s).isTimerRunning
    ensures StartRest(s).totalTime == StartRest(s).remainingTime == REST_DURATION
    ensures Position(StartRest(s)) == Position(s)
  {
  }

  // ---- timer ----

  /**
   * Pausing keeps `remainingTime`; resuming a paused timer keeps it too, so the next
   * countdown starts from it rather than from `totalTime`.
   */
  lemma PauseResumeKeepsRemaining(s: Session)
    ensures TogglePauseResume(s).remainingTime == s.remainingTime
    ensures TogglePauseResume(s).isTimerRunning != s.isTimerRunning
    ensures !Pause(s).isTimerRunning && Pause(s).remainingTime == s.remainingTime
    ensures TogglePauseResume(TogglePauseResume(s)) == s
  {
  }

  /** The finish of an exercise countdown is `completeSet()`. */
  lemma TimerFinishedOutsideRest(s: Session)
    requires 0 <= s.currentExerciseIndex < Count(s) && !s.isResting
    ensures TimerFinished(s) == TimerFinishedIntended(s)
    ensures TimerFinished(s).completedId == CompleteSet(s).completedId
  {
  }

  /**
   * As written, the finish of a rest is `completeSet()`: a rest before the second of two
   * sets ends by marking the exercise completed and moving on, the second set never shown.
   */
  lemma RestFinishSkipsSet(e: WorkoutExercise)
    requires e.sets == 2
    ensures var s := Session([e], 0, 2, true, true, 0, REST_DURATION, Some(0), false);
      && Inv(s)
      && TimerFinished(s).completedId == Some(e.id)
      && TimerFinished(s).session.currentExerciseIndex == 1
      && TimerFinishedIntended(s).completedId == None
      && Position(TimerFinishedIntended(s).session) == (0, 2)
  {
  }

  /** Corrected: the end of a rest never writes, and enters the set the rest preceded. */
  lemma RestFinishIntended(s: Session)
    requires Inv(s) && s.currentExerciseIndex < Count(s) && s.isResting
    ensures TimerFinishedIntended(s).completedId.None?
    ensures Position(TimerFinishedIntended(s).session) == Position(s)
    ensures !TimerFinishedIntended(s).session.isResting
  {
  }

  // ---- display arithmetic ----

  /** The progress bar lies in 0..99 while an exercise is shown. */
  lemma ProgressBounds(index: int, n: int)
    requires 0 <= index < n
    ensures 0 <= ProgressPercent(index, n) <= 99
  {
    assert index * 100 < n * 100;
  }

  /** The timer text: seconds below 60, and minutes and seconds adding up to the whole seconds. */
  lemma TimerDisplaySpec(millis: int)
    ensures var (m, sec) := TimerDisplay(millis);
      && -60 < sec < 60
      && m * 60 + sec == TruncDiv(millis, 1000)
      && (millis >= 0 ==> 0 <= sec && 0 <= m && m * 60000 <= millis)
  {
  }

  /** The "-" button never takes a non-negative count below zero, and only ever decrements. */
  lemma RepMinusSpec(text: Option<int>)
    ensures RepMinus(text).GetOr(0) >= 0 || RepMinus(text) == text
    ensures RepMinus(text) != text ==> RepMinus(text) == Some(text.GetOr(0) - 1) && text.GetOr(0) >= 1
    ensures text.GetOr(0) >= 0 ==> RepMinus(text).GetOr(0) >= 0
  {
  }

  /** "+" gives a positive count, and "+" then "-" returns to the parsed count. */
  lemma RepPlusMinus(text: Option<int>)
    requires text.GetOr(0) >= 0
    ensures RepPlus(text).Some? && RepPlus(text).value >= 1
    ensures RepMinus(RepPlus(text)) == Some(text.GetOr(0))
  {
  }
}
