/**
 * `PlanExerciseAdapter`: the view type of a row, the guard on drag moves, the identity
 * rules the list differ uses, and the details line of an exercise row.
 */
module PlanExerciseAdapter {
  import opened Wrappers
  import opened Entities
  import opened Text
  import opened PlanBuilderItems

  const TYPE_HEADER: int := 0
  const TYPE_EXERCISE: int := 1

  /** `getItemViewType`. */
  function ItemViewType(item: PlanBuilderItem): (r: int)
    ensures r == TYPE_HEADER <==> item.Header?
    ensures r == TYPE_EXERCISE <==> item.Exercise?
  {
    match item
    case Header(_) => TYPE_HEADER
    case Exercise(_, _) => TYPE_EXERCISE
  }

  /**
   * `onItemMove(from, to)` forwards the move exactly when both rows are exercises whose
   * templates share a category.
   */
  predicate MoveForwarded(items: seq<PlanBuilderItem>, fromPosition: int, toPosition: int)
    requires 0 <= fromPosition < |items| && 0 <= toPosition < |items|
  {
    && items[fromPosition].Exercise?
    && items[toPosition].Exercise?
    && items[fromPosition].template.category == items[toPosition].template.category
  }

  /** A header is never moved, from or onto. */
  lemma HeadersNeverMove(items: seq<PlanBuilderItem>, fromPosition: int, toPosition: int)
    requires 0 <= fromPosition < |items| && 0 <= toPosition < |items|
    requires items[fromPosition].Header? || items[toPosition].Header?
    ensures !MoveForwarded(items, fromPosition, toPosition)
  {
  }

  /** `DiffCallback.areItemsTheSame`. */
  predicate AreItemsTheSame(oldItem: PlanBuilderItem, newItem: PlanBuilderItem)
  {
    if oldItem.Header? && newItem.Header? then oldItem.category == newItem.category
    else if oldItem.Exercise? && newItem.Exercise? then oldItem.planExercise.id == newItem.planExercise.id
    else false
  }

  /** `DiffCallback.areContentsTheSame`: data-class equality. */
  predicate AreContentsTheSame(oldItem: PlanBuilderItem, newItem: PlanBuilderItem)
  {
    oldItem == newItem
  }

  /**
   * Identity is an equivalence that separates headers from exercises, and equal contents
   * imply the same identity, as `DiffUtil` requires.
   */
  lemma DiffRulesConsistent(a: PlanBuilderItem, b: PlanBuilderItem, c: PlanBuilderItem)
    ensures AreItemsTheSame(a, a)
    ensures AreItemsTheSame(a, b) ==> AreItemsTheSame(b, a)
    ensures AreItemsTheSame(a, b) && AreItemsTheSame(b, c) ==> AreItemsTheSame(a, c)
    ensures a.Header? != b.Header? ==> !AreItemsTheSame(a, b)
    ensures AreContentsTheSame(a, b) ==> AreItemsTheSame(a, b)
  {
  }

  /** The same exercise row moved or re-ordered keeps its identity. */
  lemma ReorderedRowIsSameItem(pe: PlanExercise, t: ExerciseTemplate, order: int)
    ensures AreItemsTheSame(Exercise(pe, t), Exercise(pe.(order := order), t))
    ensures pe.order != order ==> !AreContentsTheSame(Exercise(pe, t), Exercise(pe.(order := order), t))
  {
  }

  const SETS_TIMES: string := " sets \U{D7} "

  /** The details line: "S sets × R reps", or "S sets × Ds" when reps is null. */
  function DetailsText(pe: PlanExercise): string
  {
    if pe.reps.Some? then Decimal(pe.sets) + SETS_TIMES + NullableDecimal(pe.reps) + " reps"
    else Decimal(pe.sets) + SETS_TIMES + NullableDecimal(pe.duration) + "s"
  }

  predicate EndsWith(s: string, suffix: string)
  {
    |suffix| <= |s| && s[|s| - |suffix|..] == suffix
  }

  /**
   * The line starts with the set count, and ends in " reps" exactly when the plan exercise
   * has a rep count; otherwise it ends in the duration (or "null") followed by "s".
   */
  lemma DetailsTextSpec(pe: PlanExercise)
    ensures var d := DetailsText(pe);
      && d[..|Decimal(pe.sets) + SETS_TIMES|] == Decimal(pe.sets) + SETS_TIMES
      && (EndsWith(d, " reps") <==> pe.reps.Some?)
      && (pe.reps.None? ==> EndsWith(d, NullableDecimal(pe.duration) + "s"))
  {
    var d := DetailsText(pe);
    var head := Decimal(pe.sets) + SETS_TIMES;
    if pe.reps.Some? {
      assert d == head + NullableDecimal(pe.reps) + " reps";
      assert d[|d| - 5..] == " reps";
    } else {
      var tail := NullableDecimal(pe.duration) + "s";
      assert d == head + tail;
      assert d[|d| - |tail|..] == tail;
      var n := NullableDecimal(pe.duration);
      assert d[|d| - 2] == n[|n| - 1];
      assert n[|n| - 1] != 'p' by {
        if pe.duration.Some? {
          assert IsDigit(n[|n| - 1]);
        } else {
          assert n == "null";
        }
      }
      assert d[|d| - 5..][3] != " reps"[3];
    }
  }
}
