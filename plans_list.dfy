/**
 * The list of workout plans: the plan-name dialog (create or rename), the
 * activate/deactivate button of each row, and the rows themselves with their
 * exercise summary. Every write goes to the plan store, whose invariant is that at
 * most one plan is active.
 */
module PlansList {
  import opened Wrappers
  import opened Entities
  import opened Seqs
  import opened Text
  import opened WorkoutPlanDao
  import opened PlanExerciseTable

  /** One row of the list: the plan with the two counts the adapter shows. */
  datatype WorkoutPlanWithDetails = WorkoutPlanWithDetails(plan: WorkoutPlan, exerciseCount: int, dayCount: int)

  const NO_EXERCISES := "No exercises added yet"

  /**
   * The Save button of the plan-name dialog: the text is trimmed, and an empty name is
   * refused ("Name is required") instead of being written.
   */
  function PlanName(text: string): Option<string>
  {
    var name := Trim(text);
    if name == [] then None else Some(name)
  }

  /**
   * A name is refused exactly when the text is all whitespace; an accepted name is a
   * non-empty piece of the text with no whitespace at either end, and accepting it
   * again gives the same name.
   */
  lemma PlanNameSpec(text: string)
    ensures PlanName(text).None? <==> forall k :: 0 <= k < |text| ==> IsWhitespace(text[k])
    ensures PlanName(text).Some? ==>
              var name := PlanName(text).value;
              && name != [] && Trimmed(name)
              && (exists i, j :: 0 <= i <= j <= |text| && name == text[i..j])
              && PlanName(name) == PlanName(text)
  {
    TrimEmpty(text);
    TrimSpec(text);
    TrimOfTrimmed(Trim(text));
  }

  /** `getExerciseCountForPlan(planId)`: `SELECT COUNT(*) ... WHERE planId = :planId`. */
  function ExerciseCountForPlan(rows: seq<PlanExercise>, planId: int): nat
  {
    |Filter(rows, (pe: PlanExercise) => pe.planId == planId)|
  }

  /** The count is zero exactly when the plan has no exercise rows. */
  lemma ExerciseCountSpec(rows: seq<PlanExercise>, planId: int)
    ensures ExerciseCountForPlan(rows, planId) == 0 <==> forall pe :: pe in rows ==> pe.planId != planId
    ensures ExerciseCountForPlan(rows, planId) <= |rows|
  {
    var f := Filter(rows, (pe: PlanExercise) => pe.planId == planId);
    if |f| > 0 {
      assert f[0] in f;
    }
  }

  /** The summary line of a row in the list. */
  function ExerciseText(d: WorkoutPlanWithDetails): string
  {
    if d.dayCount > 0 then
      Decimal(d.exerciseCount) + " exercises across " + Decimal(d.dayCount) + " days"
    else
      NO_EXERCISES
  }

  /**
   * The row reads "No exercises added yet" exactly when its day count is not positive,
   * whatever its exercise count; otherwise it starts with the exercise count.
   */
  lemma ExerciseTextSpec(d: WorkoutPlanWithDetails)
    ensures ExerciseText(d) == NO_EXERCISES <==> d.dayCount <= 0
    ensures d.dayCount > 0 ==> Decimal(d.exerciseCount) <= ExerciseText(d)
  {
    if d.dayCount > 0 {
      var n := Decimal(d.exerciseCount);
      var t := ExerciseText(d);
      assert t[0] == n[0];
      assert n[0] != 'N' by {
        if d.exerciseCount < 0 {
          assert n[0] == '-';
        }
      }
    }
  }

  /** Writing a row whose flag is clear takes its id out of the active set and nothing else. */
  lemma WriteInactive(plans: Plans, p: WorkoutPlan)
    requires !p.isActive
    ensures ActiveIds(plans[p.id := p]) == ActiveIds(plans) - {p.id}
    ensures ActiveIds(UpdatePlan(plans, p)) == ActiveIds(plans) - {p.id}
    ensures AtMostOneActive(plans) ==> AtMostOneActive(UpdatePlan(plans, p)) && AtMostOneActive(plans[p.id := p])
  {
    assert forall id :: id in ActiveIds(plans[p.id := p]) <==> id in ActiveIds(plans) && id != p.id;
  }

  /**
   * Renaming the stored row keeps every key, every other row, the row's id and flag,
   * and so the set of active plans.
   */
  lemma RenameOnlyChangesName(plans: Plans, p: WorkoutPlan, newName: string)
    requires p.id in plans && plans[p.id] == p
    ensures var after := UpdatePlan(plans, p.(name := newName));
      && after.Keys == plans.Keys
      && (forall id :: id in plans && id != p.id ==> after[id] == plans[id])
      && after[p.id] == plans[p.id].(name := newName)
      && ActiveIds(after) == ActiveIds(plans)
  {
    var after := UpdatePlan(plans, p.(name := newName));
    assert forall id :: id in ActiveIds(after) <==> id in ActiveIds(plans);
  }

  class PlansListScreen {
    const store: WorkoutPlanStore
    const planExercises: PlanExerciseStore
    /** What the adapter was last given. */
    var plansWithDetails: seq<WorkoutPlanWithDetails>

    ghost predicate Valid()
      reads this, store, planExercises
    {
      store.Valid() && planExercises.Valid()
    }

    constructor (store: WorkoutPlanStore, planExercises: PlanExerciseStore)
      requires store.Valid() && planExercises.Valid()
      ensures Valid() && this.store == store && this.planExercises == planExercises
      ensures plansWithDetails == []
    {
      this.store := store;
      this.planExercises := planExercises;
      plansWithDetails := [];
    }

    /**
     * `loadPlans()` for one emission of `getAllPlans()`: a row per plan, in the order
     * given, with the plan's exercise count and a day count of 0, so that every row
     * reads "No exercises added yet".
     */
    method LoadPlans(plans: seq<WorkoutPlan>)
      modifies this
      ensures |plansWithDetails| == |plans|
      ensures forall i :: 0 <= i < |plans| ==>
                plansWithDetails[i] == WorkoutPlanWithDetails(plans[i], ExerciseCountForPlan(planExercises.rows, plans[i].id), 0)
      ensures forall i :: 0 <= i < |plans| ==> ExerciseText(plansWithDetails[i]) == NO_EXERCISES
    {
      var details: seq<WorkoutPlanWithDetails> := [];
      for k := 0 to |plans|
        invariant |details| == k
        invariant forall i :: 0 <= i < k ==>
                    details[i] == WorkoutPlanWithDetails(plans[i], ExerciseCountForPlan(planExercises.rows, plans[i].id), 0)
      {
        var exerciseCount := ExerciseCountForPlan(planExercises.rows, plans[k].id);
        var dayCount := 0;
        details := details + [WorkoutPlanWithDetails(plans[k], exerciseCount, dayCount)];
      }
      plansWithDetails := details;
      forall i | 0 <= i < |plans| ensures ExerciseText(plansWithDetails[i]) == NO_EXERCISES {
        ExerciseTextSpec(plansWithDetails[i]);
      }
    }

    /** `createPlan(name)`: a new row under a fresh id, never active. */
    method CreatePlan(name: string) returns (id: int)
      requires Valid()
      modifies store
      ensures Valid()
      ensures id !in old(store.plans) && store.plans == old(store.plans)[id := WorkoutPlan(id, name, false)]
      ensures ActiveIds(store.plans) == ActiveIds(old(store.plans))
      ensures old(AtMostOneActive(store.plans)) ==> AtMostOneActive(store.plans)
    {
      id := store.Insert(WorkoutPlan(0, name, false));
      WriteInactive(old(store.plans), WorkoutPlan(id, name, false));
    }

    /**
     * `renamePlan(plan, newName)`: writes the row back with the new name. When `plan` is
     * the stored row, only its name changes. The app never reaches it: the plan-name
     * dialog is only opened with no existing plan.
     */
    method RenamePlan(plan: WorkoutPlan, newName: string)
      requires Valid()
      modifies store
      ensures Valid()
      ensures store.plans == UpdatePlan(old(store.plans), plan.(name := newName))
      ensures old(plan.id in store.plans && store.plans[plan.id] == plan) ==>
                && store.plans == old(store.plans)[plan.id := plan.(name := newName)]
                && ActiveIds(store.plans) == ActiveIds(old(store.plans))
    {
      if plan.id in store.plans && store.plans[plan.id] == plan {
        RenameOnlyChangesName(store.plans, plan, newName);
      }
      store.Update(plan.(name := newName));
    }

    /**
     * The Save button of the plan-name dialog: nothing is written for a blank name;
     * otherwise a new plan is created, or `existing` is renamed.
     */
    method OnSaveClicked(text: string, existing: Option<WorkoutPlan>) returns (saved: bool)
      requires Valid()
      modifies store
      ensures Valid()
      ensures saved <==> exists k :: 0 <= k < |text| && !IsWhitespace(text[k])
      ensures !saved ==> store.plans == old(store.plans) && store.nextId == old(store.nextId)
      ensures saved && existing.None? ==>
                (exists id :: id !in old(store.plans)
                              && store.plans == old(store.plans)[id := WorkoutPlan(id, Trim(text), false)])
      ensures saved && existing.Some? ==>
                store.plans == UpdatePlan(old(store.plans), existing.value.(name := Trim(text)))
      ensures old(AtMostOneActive(store.plans)) && existing.None? ==> AtMostOneActive(store.plans)
    {
      PlanNameSpec(text);
      var name := PlanName(text);
      if name.None? {
        saved := false;
        return;
      }
      saved := true;
      match existing
      case None =>
        var id := CreatePlan(name.value);
      case Some(plan) =>
        RenamePlan(plan, name.value);
    }

    /**
     * `togglePlanActivation(plan)`: an active plan is written back inactive, touching no
     * other row; an inactive one goes through `activatePlan`, which leaves it the only
     * active plan (none, if it has been deleted meanwhile).
     */
    method TogglePlanActivation(plan: WorkoutPlan)
      requires Valid()
      modifies store
      ensures Valid()
      ensures plan.isActive ==>
                && store.plans == UpdatePlan(old(store.plans), plan.(isActive := false))
                && ActiveIds(store.plans) == ActiveIds(old(store.plans)) - {plan.id}
      ensures !plan.isActive ==>
                && store.plans == Activated(old(store.plans), plan.id)
                && ActiveIds(store.plans) == (if plan.id in old(store.plans) then {plan.id} else {})
      ensures !plan.isActive ==> AtMostOneActive(store.plans)
      ensures old(AtMostOneActive(store.plans)) ==> AtMostOneActive(store.plans)
    {
      if plan.isActive {
        WriteInactive(store.plans, plan.(isActive := false));
        store.Update(plan.(isActive := false));
      } else {
        if plan.id in store.plans {
          ActivateExisting(store.plans, plan.id);
        } else {
          ActivateAbsent(store.plans, plan.id);
        }
        store.ActivatePlan(plan.id);
      }
    }
  }
}
