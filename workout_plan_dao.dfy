/**
 * The `workout_plans` table behind `WorkoutPlanDao`, and the transaction `activatePlan`
 * that keeps at most one plan active.
 */
module WorkoutPlanDao {
  import opened Wrappers
  import opened Entities
  import opened Seqs

  type Plans = map<int, WorkoutPlan>

  /** Every plan is stored under its own id; ids are never 0 and stay below `nextId`. */
  ghost predicate WellKeyed(plans: Plans, nextId: int)
  {
    nextId >= 1
    && forall id :: id in plans ==> plans[id].id == id && id != 0 && id < nextId
  }

  /** The invariant `activatePlan` maintains: no two plans are active at once. */
  predicate AtMostOneActive(plans: Plans)
  {
    forall i, j :: i in plans && j in plans && plans[i].isActive && plans[j].isActive ==> i == j
  }

  function ActiveIds(plans: Plans): set<int>
  {
    set id | id in plans && plans[id].isActive
  }

  /** `UPDATE workout_plans SET isActive = 0`. */
  function Deactivated(plans: Plans): Plans
  {
    map id | id in plans :: plans[id].(isActive := false)
  }

  /** `@Update`: overwrites the row with the same primary key, if there is one. */
  function UpdatePlan(plans: Plans, p: WorkoutPlan): Plans
  {
    if p.id in plans then plans[p.id := p] else plans
  }

  /**
   * `activatePlan(planId)`: deactivate all, read the plan back, and if it exists write it
   * again with `isActive = true`.
   */
  function Activated(plans: Plans, planId: int): Plans
  {
    var off := Deactivated(plans);
    if planId in off then UpdatePlan(off, off[planId].(isActive := true)) else off
  }

  /** Two plans that differ at most in the active flag. */
  predicate SameButActive(a: WorkoutPlan, b: WorkoutPlan)
  {
    a.(isActive := b.isActive) == b
  }

  /** `deactivateAllPlans` clears every flag, keeps every key and changes nothing else. */
  lemma DeactivatedSpec(plans: Plans)
    ensures Deactivated(plans).Keys == plans.Keys
    ensures forall id :: id in plans ==> (!Deactivated(plans)[id].isActive
                                          && SameButActive(plans[id], Deactivated(plans)[id]))
    ensures ActiveIds(Deactivated(plans)) == {}
  {
  }

  /** Every plan is stored under its own id. */
  predicate KeyedById(plans: Plans)
  {
    forall id :: id in plans ==> plans[id].id == id
  }

  /** Activating an existing plan leaves exactly that plan active. */
  lemma ActivateExisting(plans: Plans, planId: int)
    requires KeyedById(plans) && planId in plans
    ensures ActiveIds(Activated(plans, planId)) == {planId}
    ensures Activated(plans, planId)[planId].isActive
  {
    var after := Activated(plans, planId);
    assert forall id :: id in ActiveIds(after) <==> id == planId;
  }

  /** Activating an absent id leaves no plan active. */
  lemma ActivateAbsent(plans: Plans, planId: int)
    requires planId !in plans
    ensures ActiveIds(Activated(plans, planId)) == {}
  {
  }

  /** Activation keeps the set of ids and every plan's name. */
  lemma ActivatedKeepsIdsAndNames(plans: Plans, planId: int)
    requires KeyedById(plans)
    ensures Activated(plans, planId).Keys == plans.Keys
    ensures forall id :: id in plans ==> SameButActive(plans[id], Activated(plans, planId)[id])
  {
  }

  /** Whatever the table held before, at most one plan is active afterwards. */
  lemma ActivatedAtMostOne(plans: Plans, planId: int)
    ensures AtMostOneActive(Activated(plans, planId))
  {
  }

  /** A well-keyed table stays well keyed under activation. */
  lemma ActivatedWellKeyed(plans: Plans, nextId: int, planId: int)
    requires WellKeyed(plans, nextId)
    ensures WellKeyed(Activated(plans, planId), nextId)
  {
  }

  /** Under the invariant there is at most one active id. */
  lemma AtMostOneActiveIds(plans: Plans)
    requires AtMostOneActive(plans)
    ensures forall id :: id in ActiveIds(plans) ==> ActiveIds(plans) == {id}
  {
    forall id | id in ActiveIds(plans) ensures ActiveIds(plans) == {id} {
      assert forall k :: k in ActiveIds(plans) <==> k == id;
    }
  }

  /** The plan store, updated in place by each DAO statement. */
  class WorkoutPlanStore {
    var plans: Plans
    var nextId: int

    ghost predicate Valid()
      reads this
    {
      WellKeyed(plans, nextId)
    }

    constructor ()
      ensures Valid() && plans == map[]
    {
      plans := map[];
      nextId := 1;
    }

    /** `insert(plan)` with REPLACE: id 0 asks for a fresh id, which is returned. */
    method Insert(p: WorkoutPlan) returns (id: int)
      requires Valid()
      modifies this
      ensures Valid()
      ensures id != 0 && (p.id != 0 ==> id == p.id) && (p.id == 0 ==> id !in old(plans))
      ensures plans == old(plans)[id := p.(id := id)]
    {
      if p.id == 0 {
        id := nextId;
        nextId := nextId + 1;
      } else {
        id := p.id;
        if id >= nextId {
          nextId := id + 1;
        }
      }
      plans := plans[id := p.(id := id)];
    }

    /** `update(plan)`. */
    method Update(p: WorkoutPlan)
      requires Valid()
      modifies this
      ensures Valid()
      ensures plans == UpdatePlan(old(plans), p) && nextId == old(nextId)
    {
      if p.id in plans {
        plans := plans[p.id := p];
      }
    }

    /** `delete(plan)`. */
    method Delete(p: WorkoutPlan)
      requires Valid()
      modifies this
      ensures Valid()
      ensures plans == old(plans) - {p.id} && nextId == old(nextId)
    {
      plans := plans - {p.id};
    }

    /** `getPlanById(id)`. */
    method GetPlanById(id: int) returns (r: Option<WorkoutPlan>)
      ensures r.Some? <==> id in plans
      ensures r.Some? ==> r.value == plans[id]
    {
      if id in plans {
        r := Some(plans[id]);
      } else {
        r := None;
      }
    }

    /** `deactivateAllPlans()`. */
    method DeactivateAllPlans()
      requires Valid()
      modifies this
      ensures Valid()
      ensures plans == Deactivated(old(plans)) && nextId == old(nextId)
    {
      plans := map id | id in plans :: plans[id].(isActive := false);
    }

    /** The `@Transaction activatePlan(planId)`. */
    method ActivatePlan(planId: int)
      requires Valid()
      modifies this
      ensures Valid()
      ensures plans == Activated(old(plans), planId) && nextId == old(nextId)
      ensures AtMostOneActive(plans)
    {
      DeactivateAllPlans();
      var plan := GetPlanById(planId);
      if plan.Some? {
        Update(plan.value.(isActive := true));
      }
      ActivatedAtMostOne(old(plans), planId);
    }

    /**
     * `getActivePlan()`: `WHERE isActive = 1 LIMIT 1` without an ORDER BY, so which
     * active row comes back is not fixed; the loop visits the ids in an arbitrary order.
     * Null exactly when no plan is active.
     */
    method GetActivePlan() returns (r: Option<WorkoutPlan>)
      requires Valid()
      ensures r.None? <==> ActiveIds(plans) == {}
      ensures r.Some? ==> r.value.id in plans && plans[r.value.id] == r.value && r.value.isActive
    {
      r := None;
      var todo := plans.Keys;
      while |todo| > 0 && r.None?
        invariant todo <= plans.Keys
        invariant r.None? ==> forall id :: id in plans && id !in todo ==> !plans[id].isActive
        invariant r.Some? ==> r.value.id in plans && plans[r.value.id] == r.value && r.value.isActive
        decreases |todo|
      {
        NonEmptyHasElement(todo);
        var id :| id in todo;
        if plans[id].isActive {
          r := Some(plans[id]);
        }
        todo := todo - {id};
      }
      if r.Some? {
        assert r.value.id in ActiveIds(plans);
      } else {
        assert forall id :: id !in ActiveIds(plans);
      }
    }
  }
}
