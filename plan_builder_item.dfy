/** The rows of the plan builder's list: a category header, or a plan exercise with its template. */
module PlanBuilderItems {
  import opened Entities

  datatype PlanBuilderItem =
    | Header(category: string)
    | Exercise(planExercise: PlanExercise, template: ExerciseTemplate)
}
