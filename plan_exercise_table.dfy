/**
 * The `plan_exercises` table, as far as the plan builder and the daily generation use
 * it: rows in rowid order (ascending id), the per-plan-and-day query, and the writes
 * `update`, `delete` and the insert of a new row.
 */
module PlanExerciseTable {
  import opened Entities
  import opened Seqs

  /** Ids are positive, ascending (rowid order) and below the next AUTOINCREMENT id. */
  ghost predicate WellFormed(rows: seq<PlanExercise>, nextId: int)
  {
    nextId >= 1
    && (forall i :: 0 <= i < |rows| ==> 1 <= rows[i].id < nextId)
    && (forall i, j :: 0 <= i < j < |rows| ==> rows[i].id < rows[j].id)
  }

  function OnPlanDay(planId: int, dayOfWeek: int): PlanExercise -> bool
  {
    (pe: PlanExercise) => pe.planId == planId && pe.dayOfWeek == dayOfWeek
  }

  /**
   * `getExercisesForPlanAndDay(planId, dayOfWeek)`: `WHERE planId AND dayOfWeek ORDER BY
   * order`, rows with equal `order` kept in rowid order.
   */
  function ForPlanAndDay(rows: seq<PlanExercise>, planId: int, dayOfWeek: int): seq<PlanExercise>
  {
    SortByKey(Filter(rows, OnPlanDay(planId, dayOfWeek)), PlanOrder)
  }

  /** The query returns exactly that plan's rows for that day, ordered by `order`. */
  lemma ForPlanAndDaySpec(rows: seq<PlanExercise>, planId: int, dayOfWeek: int)
    ensures var r := ForPlanAndDay(rows, planId, dayOfWeek);
      && SortedByKey(r, PlanOrder)
      && (forall pe :: pe in r <==> pe in rows && pe.planId == planId && pe.dayOfWeek == dayOfWeek)
      && |r| <= |rows|
  {
    var f := Filter(rows, OnPlanDay(planId, dayOfWeek));
    SortByKeySorted(f, PlanOrder);
    assert forall pe :: pe in ForPlanAndDay(rows, planId, dayOfWeek) <==> pe in multiset(f);
  }

  /** `@Update`: the row with the same id, if any, is overwritten in place. */
  function UpdateRows(rows: seq<PlanExercise>, pe: PlanExercise): (r: seq<PlanExercise>)
    ensures |r| == |rows|
    ensures forall i :: 0 <= i < |r| ==> r[i].id == rows[i].id
    ensures forall i :: 0 <= i < |r| ==> r[i] == (if rows[i].id == pe.id then pe else rows[i])
  {
    if rows == [] then []
    else [if rows[0].id == pe.id then pe else rows[0]] + UpdateRows(rows[1..], pe)
  }

  /** `@Delete`: the row with the same id, if any, is removed. */
  function DeleteRows(rows: seq<PlanExercise>, pe: PlanExercise): seq<PlanExercise>
  {
    Filter(rows, (r: PlanExercise) => r.id != pe.id)
  }

  lemma UpdateKeepsWellFormed(rows: seq<PlanExercise>, nextId: int, pe: PlanExercise)
    requires WellFormed(rows, nextId)
    ensures WellFormed(UpdateRows(rows, pe), nextId)
  {
  }

  lemma {:induction false} DeleteKeepsWellFormed(rows: seq<PlanExercise>, nextId: int, pe: PlanExercise)
    requires WellFormed(rows, nextId)
    ensures WellFormed(DeleteRows(rows, pe), nextId)
    ensures forall r :: r in DeleteRows(rows, pe) <==> r in rows && r.id != pe.id
  {
    if rows != [] {
      DeleteKeepsWellFormed(rows[1..], nextId, pe);
      var tail := DeleteRows(rows[1..], pe);
      assert forall k :: 0 <= k < |tail| ==> tail[k] in rows[1..];
    }
  }

  /**
   * The `ON DELETE CASCADE` of the `exerciseTemplateId` foreign key: the rows that use
   * the deleted template go, the others stay in rowid order.
   */
  function WithoutTemplate(rows: seq<PlanExercise>, templateId: int): seq<PlanExercise>
  {
    Filter(rows, (pe: PlanExercise) => pe.exerciseTemplateId != templateId)
  }

  /**
   * The cascade keeps the table well formed, removes exactly the rows that use the
   * template, and keeps the order of the others.
   */
  lemma {:induction false} WithoutTemplateSpec(rows: seq<PlanExercise>, nextId: int, templateId: int)
    requires WellFormed(rows, nextId)
    ensures WellFormed(WithoutTemplate(rows, templateId), nextId)
    ensures forall pe :: pe in WithoutTemplate(rows, templateId) <==> pe in rows && pe.exerciseTemplateId != templateId
  {
    if rows != [] {
      WithoutTemplateSpec(rows[1..], nextId, templateId);
      var tail := WithoutTemplate(rows[1..], templateId);
      assert forall k :: 0 <= k < |tail| ==> tail[k] in rows[1..];
    }
  }

  /** When no row uses the template, the cascade removes nothing. */
  lemma {:induction false} WithoutUnusedTemplate(rows: seq<PlanExercise>, templateId: int)
    requires forall i :: 0 <= i < |rows| ==> rows[i].exerciseTemplateId != templateId
    ensures WithoutTemplate(rows, templateId) == rows
  {
    if rows != [] {
      WithoutUnusedTemplate(rows[1..], templateId);
      assert rows == [rows[0]] + rows[1..];
    }
  }

  class PlanExerciseStore {
    var rows: seq<PlanExercise>
    var nextId: int

    ghost predicate Valid()
      reads this
    {
      WellFormed(rows, nextId)
    }

    constructor ()
      ensures Valid() && rows == []
    {
      rows := [];
      nextId := 1;
    }

    /**
     * `insert(planExercise)` of a new row (id 0): AUTOINCREMENT gives it the next id,
     * which is above every id in the table, so it goes last in rowid order.
     */
    method InsertNew(pe: PlanExercise) returns (id: int)
      requires Valid() && pe.id == 0
      modifies this
      ensures Valid()
      ensures id == old(nextId) && rows == old(rows) + [pe.(id := id)]
    {
      id := nextId;
      rows := rows + [pe.(id := id)];
      nextId := nextId + 1;
    }

    /** `update(planExercise)`. */
    method Update(pe: PlanExercise)
      requires Valid()
      modifies this
      ensures Valid()
      ensures rows == UpdateRows(old(rows), pe) && nextId == old(nextId)
    {
      UpdateKeepsWellFormed(rows, nextId, pe);
      rows := UpdateRows(rows, pe);
    }

    /** `delete(planExercise)`. */
    method Delete(pe: PlanExercise)
      requires Valid()
      modifies this
      ensures Valid()
      ensures rows == DeleteRows(old(rows), pe) && nextId == old(nextId)
    {
      DeleteKeepsWellFormed(rows, nextId, pe);
      rows := DeleteRows(rows, pe);
    }

    /** The cascade that deleting the template `templateId` triggers. */
    method DeleteForTemplate(templateId: int)
      requires Valid()
      modifies this
      ensures Valid()
      ensures rows == WithoutTemplate(old(rows), templateId) && nextId == old(nextId)
    {
      WithoutTemplateSpec(rows, nextId, templateId);
      rows := WithoutTemplate(rows, templateId);
    }
  }
}
