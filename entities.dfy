/**
 * The rows of the app's four tables. Kotlin `Long` ids and `Int` fields are unbounded
 * integers here; a nullable column is an `Option`.
 */
module Entities {
  import opened Wrappers

  /** One exercise scheduled on one date ("yyyy-MM-dd"); the row the workout player completes. */
  datatype WorkoutExercise = WorkoutExercise(
    id: int,
    date: string,
    name: string,
    category: string,
    sets: int,
    reps: Option<int>,
    duration: Option<int>,
    isCompleted: bool,
    order: int)

  /** One exercise of a plan, on one weekday (a `java.util.Calendar` day constant). */
  datatype PlanExercise = PlanExercise(
    id: int,
    planId: int,
    exerciseTemplateId: int,
    dayOfWeek: int,
    order: int,
    sets: int,
    reps: Option<int>,
    duration: Option<int>)

  /** An entry of the exercise library. `exerciseType` is "REPS" or "TIMED". */
  datatype ExerciseTemplate = ExerciseTemplate(
    id: int,
    name: string,
    description: string,
    category: string,
    exerciseType: string,
    defaultSets: int,
    defaultReps: Option<int>,
    defaultDuration: Option<int>)

  /** A named plan; the app keeps at most one plan active. */
  datatype WorkoutPlan = WorkoutPlan(id: int, name: string, isActive: bool)

  const WARM_UP: string := "Warm-Up"
  const WORKOUT: string := "Workout"
  const COOLDOWN: string := "Cooldown"

  /** The fixed display order of the categories. */
  const CATEGORIES: seq<string> := [WARM_UP, WORKOUT, COOLDOWN]

  /** The `java.util.Calendar` DAY_OF_WEEK constants. */
  const SUNDAY: int := 1
  const MONDAY: int := 2
  const TUESDAY: int := 3
  const WEDNESDAY: int := 4
  const THURSDAY: int := 5
  const FRIDAY: int := 6
  const SATURDAY: int := 7

  /** `sortedBy { it.order }` key of a workout row. */
  function WorkoutOrder(e: WorkoutExercise): int
  {
    e.order
  }

  /** `sortedBy { it.order }` key of a plan row. */
  function PlanOrder(pe: PlanExercise): int
  {
    pe.order
  }
}
