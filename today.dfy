/**
 * The "Today" screen: the day's rows grouped under category headers, the progress
 * figure, and the generation of the day's rows from the active plan.
 */
module Today {
  import opened Wrappers
  import opened Entities
  import opened Seqs
  import WorkoutExerciseDao
  import WorkoutPlanDao
  import PlanExerciseTable

  /** A row of the Today list. */
  datatype WorkoutItem = Header(category: string) | Exercise(exercise: WorkoutExercise)

  function InCategory(category: string): WorkoutExercise -> bool
  {
    (e: WorkoutExercise) => e.category == category
  }

  /** One `Exercise` item per row, in order. */
  function ExerciseItems(es: seq<WorkoutExercise>): (r: seq<WorkoutItem>)
    ensures |r| == |es|
    ensures forall i :: 0 <= i < |es| ==> r[i] == Exercise(es[i])
  {
    if es == [] then [] else [Exercise(es[0])] + ExerciseItems(es[1..])
  }

  /** The exercise items hold exactly the rows, and no header. */
  lemma ExerciseItemsMembers(es: seq<WorkoutExercise>)
    ensures forall e :: Exercise(e) in ExerciseItems(es) <==> e in es
    ensures forall c :: Header(c) !in ExerciseItems(es)
  {
    var r := ExerciseItems(es);
    forall e ensures Exercise(e) in r <==> e in es {
      if e in es {
        var i :| 0 <= i < |es| && es[i] == e;
        assert r[i] == Exercise(e);
      }
    }
  }

  /** The block of one category: nothing when it has no rows, else its header and its rows. */
  function Section(category: string, es: seq<WorkoutExercise>): seq<WorkoutItem>
  {
    var rows := Filter(es, InCategory(category));
    if rows == [] then [] else [Header(category)] + ExerciseItems(rows)
  }

  /** The blocks of `categories`, in that order. */
  function GroupedFrom(categories: seq<string>, es: seq<WorkoutExercise>): seq<WorkoutItem>
    decreases |categories|
  {
    if categories == [] then []
    else GroupedFrom(categories[..|categories| - 1], es) + Section(categories[|categories| - 1], es)
  }

  /** What `groupExercisesByCategory` returns. */
  function Grouped(es: seq<WorkoutExercise>): seq<WorkoutItem>
  {
    GroupedFrom(CATEGORIES, es)
  }

  /** One more pass of the loop appends the next category's block. */
  lemma GroupedFromStep(categories: seq<string>, c: int, es: seq<WorkoutExercise>)
    requires 0 <= c < |categories|
    ensures GroupedFrom(categories[..c + 1], es) == GroupedFrom(categories[..c], es) + Section(categories[c], es)
  {
    assert categories[..c + 1][..c] == categories[..c];
  }

  /** `groupExercisesByCategory(exercises)`. */
  method GroupExercisesByCategory(exercises: seq<WorkoutExercise>) returns (items: seq<WorkoutItem>)
    ensures items == Grouped(exercises)
  {
    items := [];
    var categories := CATEGORIES;
    for c := 0 to |categories|
      invariant items == GroupedFrom(categories[..c], exercises)
    {
      GroupedFromStep(categories, c, exercises);
      ghost var before := items;
      var category := categories[c];
      var categoryExercises := Filter(exercises, InCategory(category));
      LoopSection(before, category, exercises);
      if categoryExercises != [] {
        items := items + [Header(category)];
        items := AddExercises(items, categoryExercises);
      }
    }
    assert categories[..|categories|] == categories;
  }

  /** One pass of the grouping loop appends the category's block, or nothing when it is empty. */
  lemma LoopSection(before: seq<WorkoutItem>, category: string, es: seq<WorkoutExercise>)
    ensures var rows := Filter(es, InCategory(category));
      && (rows == [] ==> before + Section(category, es) == before)
      && (rows != [] ==> before + [Header(category)] + ExerciseItems(rows) == before + Section(category, es))
  {
    var rows := Filter(es, InCategory(category));
    if rows == [] {
      assert before + [] == before;
    } else {
      assert before + [Header(category)] + ExerciseItems(rows) == before + ([Header(category)] + ExerciseItems(rows));
    }
  }

  /** The `forEach` that appends one `Exercise` item per row. */
  method AddExercises(items: seq<WorkoutItem>, es: seq<WorkoutExercise>) returns (r: seq<WorkoutItem>)
    ensures r == items + ExerciseItems(es)
  {
    r := items;
    for k := 0 to |es|
      invariant r == items + ExerciseItems(es[..k])
    {
      assert ExerciseItems(es[..k + 1]) == ExerciseItems(es[..k]) + [Exercise(es[k])];
      r := r + [Exercise(es[k])];
    }
    assert es[..|es|] == es;
  }

  /** The list is the Warm-Up block, then the Workout block, then the Cooldown block. */
  lemma GroupedShape(es: seq<WorkoutExercise>)
    ensures Grouped(es) == Section(WARM_UP, es) + Section(WORKOUT, es) + Section(COOLDOWN, es)
  {
    var cs := CATEGORIES;
    assert cs[..2] == [WARM_UP, WORKOUT] && cs[..2][..1] == [WARM_UP] && [WARM_UP][..0] == [];
    assert GroupedFrom([WARM_UP], es) == Section(WARM_UP, es);
    assert GroupedFrom([WARM_UP, WORKOUT], es) == Section(WARM_UP, es) + Section(WORKOUT, es);
  }

  /** Its length: each category's rows, plus one header per non-empty category. */
  lemma GroupedLength(es: seq<WorkoutExercise>)
    ensures |Grouped(es)|
         == |Filter(es, InCategory(WARM_UP))| + |Filter(es, InCategory(WORKOUT))| + |Filter(es, InCategory(COOLDOWN))|
          + (if Filter(es, InCategory(WARM_UP)) != [] then 1 else 0)
          + (if Filter(es, InCategory(WORKOUT)) != [] then 1 else 0)
          + (if Filter(es, InCategory(COOLDOWN)) != [] then 1 else 0)
  {
    GroupedShape(es);
  }

  /** A block holds exactly the rows of its category, and no header but its own. */
  lemma SectionMembers(category: string, es: seq<WorkoutExercise>)
    ensures forall e :: Exercise(e) in Section(category, es) <==> e in es && e.category == category
    ensures forall c :: Header(c) in Section(category, es)
                        <==> c == category && exists e :: e in es && e.category == category
  {
    var rows := Filter(es, InCategory(category));
    ExerciseItemsMembers(rows);
    var sec := Section(category, es);
    if rows != [] {
      assert sec == [Header(category)] + ExerciseItems(rows);
      assert forall x :: x in sec <==> x == Header(category) || x in ExerciseItems(rows);
      assert rows[0] in es && rows[0].category == category;
    } else {
      assert forall e :: e in es && e.category == category ==> e in rows;
    }
  }

  /**
   * A row appears exactly when its category is one of the three; a header appears exactly
   * for a category with at least one row. Rows of any other category are dropped.
   */
  lemma GroupedMembers(es: seq<WorkoutExercise>)
    ensures forall e :: Exercise(e) in Grouped(es) <==> e in es && e.category in CATEGORIES
    ensures forall c :: Header(c) in Grouped(es)
                        <==> c in CATEGORIES && exists e :: e in es && e.category == c
  {
    GroupedShape(es);
    SectionMembers(WARM_UP, es);
    SectionMembers(WORKOUT, es);
    SectionMembers(COOLDOWN, es);
  }

  // ---- progress ----

  function IsDone(): WorkoutExercise -> bool
  {
    (e: WorkoutExercise) => e.isCompleted
  }

  /** `updateProgress`: 0 for an empty day, else `completed * 100 / total`. */
  function Percentage(completed: int, total: int): int
  {
    if total == 0 then 0 else (completed * 100) / total
  }

  /** The figure `updateProgress` shows for a day's rows. */
  function DayProgress(es: seq<WorkoutExercise>): int
  {
    Percentage(|Filter(es, IsDone())|, |es|)
  }

  /** The percentage lies in 0..100 and is 100 exactly when every row is completed. */
  lemma PercentageSpec(completed: int, total: int)
    requires 0 <= completed <= total
    ensures 0 <= Percentage(completed, total) <= 100
    ensures total == 0 ==> Percentage(completed, total) == 0
    ensures total > 0 ==> (Percentage(completed, total) == 100 <==> completed == total)
  {
    if total > 0 {
      var p := Percentage(completed, total);
      assert p * total <= completed * 100 < (p + 1) * total;
      if completed < total {
        assert completed * 100 <= total * 100 - 100;
        assert p < 100;
      } else {
        assert completed * 100 == 100 * total;
      }
    }
  }

  /** The day's progress is 100 exactly when every row of the (non-empty) day is completed. */
  lemma DayProgressSpec(es: seq<WorkoutExercise>)
    ensures 0 <= DayProgress(es) <= 100
    ensures es != [] ==> (DayProgress(es) == 100 <==> forall e :: e in es ==> e.isCompleted)
  {
    var done := Filter(es, IsDone());
    PercentageSpec(|done|, |es|);
    if es != [] {
      FilterAllIffSameLength(es, IsDone());
    }
  }

  lemma {:induction false} FilterAllIffSameLength<T(!new)>(s: seq<T>, p: T -> bool)
    ensures |Filter(s, p)| == |s| <==> forall x :: x in s ==> p(x)
  {
    if s != [] {
      FilterAllIffSameLength(s[1..], p);
      assert s == [s[0]] + s[1..];
    }
  }

  // ---- generation from the active plan ----

  /** The row generated for one plan exercise and its template. */
  function ToWorkoutRow(date: string, pe: PlanExercise, t: ExerciseTemplate): WorkoutExercise
  {
    WorkoutExercise(0, date, t.name, t.category, pe.sets, pe.reps, pe.duration, false, pe.order)
  }

  function HasTemplate(templates: map<int, ExerciseTemplate>): PlanExercise -> bool
  {
    (pe: PlanExercise) => pe.exerciseTemplateId in templates
  }

  /** The `mapNotNull`: plan exercises whose template is missing produce no row. */
  function RowsFromPlan(date: string, pes: seq<PlanExercise>, templates: map<int, ExerciseTemplate>)
    : (r: seq<WorkoutExercise>)
    ensures |r| <= |pes|
    ensures forall i :: 0 <= i < |r| ==> r[i].id == 0 && r[i].date == date && !r[i].isCompleted
  {
    if pes == [] then []
    else if pes[0].exerciseTemplateId in templates then
      [ToWorkoutRow(date, pes[0], templates[pes[0].exerciseTemplateId])] + RowsFromPlan(date, pes[1..], templates)
    else RowsFromPlan(date, pes[1..], templates)
  }

  /** A generated row copies the plan exercise's numbers and its template's name and category. */
  ghost predicate CopiedFrom(w: WorkoutExercise, pe: PlanExercise, t: ExerciseTemplate)
  {
    && w.sets == pe.sets && w.reps == pe.reps && w.duration == pe.duration
    && w.order == pe.order && w.name == t.name && w.category == t.category
  }

  /** One more plan exercise with a template puts its row in front, keeping the correspondence. */
  lemma RowsFromPlanCons(date: string, pe: PlanExercise, templates: map<int, ExerciseTemplate>,
                         rRest: seq<WorkoutExercise>, keptRest: seq<PlanExercise>)
    requires pe.exerciseTemplateId in templates
    requires |rRest| == |keptRest|
    requires forall i :: 0 <= i < |rRest| ==>
               keptRest[i].exerciseTemplateId in templates
               && CopiedFrom(rRest[i], keptRest[i], templates[keptRest[i].exerciseTemplateId])
    ensures var kept := [pe] + keptRest;
      var r := [ToWorkoutRow(date, pe, templates[pe.exerciseTemplateId])] + rRest;
      && |r| == |kept|
      && forall i :: 0 <= i < |r| ==>
           kept[i].exerciseTemplateId in templates
           && CopiedFrom(r[i], kept[i], templates[kept[i].exerciseTemplateId])
  {
    var kept := [pe] + keptRest;
    var r := [ToWorkoutRow(date, pe, templates[pe.exerciseTemplateId])] + rRest;
    forall i | 0 <= i < |r|
      ensures kept[i].exerciseTemplateId in templates
      ensures CopiedFrom(r[i], kept[i], templates[kept[i].exerciseTemplateId])
    {
      if i > 0 {
        assert r[i] == rRest[i - 1] && kept[i] == keptRest[i - 1];
      }
    }
  }

  /**
   * The generated rows correspond one to one, in order, to the plan exercises that have
   * a template: each copies sets, reps, duration and order from its plan exercise and
   * name and category from its template.
   */
  lemma {:induction false} RowsFromPlanSpec(date: string, pes: seq<PlanExercise>, templates: map<int, ExerciseTemplate>)
    ensures var kept := Filter(pes, HasTemplate(templates));
      var r := RowsFromPlan(date, pes, templates);
      && |r| == |kept|
      && forall i :: 0 <= i < |r| ==>
           kept[i].exerciseTemplateId in templates
           && CopiedFrom(r[i], kept[i], templates[kept[i].exerciseTemplateId])
  {
    if pes != [] {
      var p := HasTemplate(templates);
      var rest := pes[1..];
      RowsFromPlanSpec(date, rest, templates);
      var keptRest := Filter(rest, p);
      var rRest := RowsFromPlan(date, rest, templates);
      var kept := Filter(pes, p);
      var r := RowsFromPlan(date, pes, templates);
      if p(pes[0]) {
        assert kept == [pes[0]] + keptRest;
        assert r == [ToWorkoutRow(date, pes[0], templates[pes[0].exerciseTemplateId])] + rRest;
        RowsFromPlanCons(date, pes[0], templates, rRest, keptRest);
      } else {
        assert kept == keptRest;
        assert r == rRest;
      }
    }
  }

  /**
   * `generateDailyWorkoutsFromPlan(date)`, given what its queries return: `activePlan` is
   * the result of `getActivePlan()`, `dayOfWeek` today's weekday.
   */
  function Generate(t: WorkoutExerciseDao.Table, date: string, activePlan: Option<WorkoutPlan>,
                    planRows: seq<PlanExercise>, templates: map<int, ExerciseTemplate>, dayOfWeek: int)
    : WorkoutExerciseDao.Table
    requires WorkoutExerciseDao.WellKeyed(t)
  {
    if WorkoutExerciseDao.CountForDate(t.rows, date) > 0 then t
    else if activePlan.None? then t
    else
      var pes := PlanExerciseTable.ForPlanAndDay(planRows, activePlan.value.id, dayOfWeek);
      if pes == [] then t
      else
        var ws := RowsFromPlan(date, pes, templates);
        if ws == [] then t else WorkoutExerciseDao.InsertAll(t, ws)
  }

  /** Inserting rows with id 0 adds rows and changes none of those already there. */
  lemma {:induction false} InsertNewRowsKeepsRows(t: WorkoutExerciseDao.Table, es: seq<WorkoutExercise>)
    requires WorkoutExerciseDao.WellKeyed(t)
    requires forall i :: 0 <= i < |es| ==> es[i].id == 0
    ensures var r := WorkoutExerciseDao.InsertAll(t, es);
      forall id :: id in t.rows ==> id in r.rows && r.rows[id] == t.rows[id]
    decreases |es|
  {
    if es != [] {
      InsertNewRowsKeepsRows(t, es[..|es| - 1]);
    }
  }

  /**
   * Generation writes only into an empty date, never changes an existing row, and once
   * it has written, every later call for that date is a no-op: the date is filled at
   * most once.
   */
  lemma GenerateOncePerDate(t: WorkoutExerciseDao.Table, date: string, activePlan: Option<WorkoutPlan>,
                            planRows: seq<PlanExercise>, templates: map<int, ExerciseTemplate>, dayOfWeek: int,
                            activePlan2: Option<WorkoutPlan>, planRows2: seq<PlanExercise>,
                            templates2: map<int, ExerciseTemplate>, dayOfWeek2: int)
    requires WorkoutExerciseDao.WellKeyed(t)
    ensures var t1 := Generate(t, date, activePlan, planRows, templates, dayOfWeek);
      && WorkoutExerciseDao.WellKeyed(t1)
      && (t1 != t ==> WorkoutExerciseDao.CountForDate(t.rows, date) == 0)
      && (forall id :: id in t.rows ==> id in t1.rows && t1.rows[id] == t.rows[id])
      && (t1 != t ==> Generate(t1, date, activePlan2, planRows2, templates2, dayOfWeek2) == t1)
  {
    var t1 := Generate(t, date, activePlan, planRows, templates, dayOfWeek);
    if t1 != t {
      var pes := PlanExerciseTable.ForPlanAndDay(planRows, activePlan.value.id, dayOfWeek);
      var ws := RowsFromPlan(date, pes, templates);
      InsertNewRowsKeepsRows(t, ws);
      WorkoutExerciseDao.InsertAllKeepsLast(t, ws);
      var id :| id in t1.rows && t1.rows[id] == ws[|ws| - 1].(id := id);
      WorkoutExerciseDao.CountPositive(t1.rows, id);
    }
  }

  /** Each step at which generation gives up leaves the table as it was. */
  lemma GenerateNoOps(t: WorkoutExerciseDao.Table, date: string, activePlan: Option<WorkoutPlan>,
                      planRows: seq<PlanExercise>, templates: map<int, ExerciseTemplate>, dayOfWeek: int)
    requires WorkoutExerciseDao.WellKeyed(t)
    requires || WorkoutExerciseDao.CountForDate(t.rows, date) > 0
             || activePlan.None?
             || PlanExerciseTable.ForPlanAndDay(planRows, activePlan.value.id, dayOfWeek) == []
             || RowsFromPlan(date, PlanExerciseTable.ForPlanAndDay(planRows, activePlan.value.id, dayOfWeek), templates) == []
    ensures Generate(t, date, activePlan, planRows, templates, dayOfWeek) == t
  {
  }

  /**
   * `generateDailyWorkoutsFromPlan(date)` against the stores; `templates` is what
   * `getTemplateById` finds. Returns the plan `getActivePlan()` chose.
   */
  method GenerateDailyWorkoutsFromPlan(store: WorkoutExerciseDao.WorkoutExerciseStore,
                                       plans: WorkoutPlanDao.WorkoutPlanStore,
                                       planExercises: PlanExerciseTable.PlanExerciseStore,
                                       templates: map<int, ExerciseTemplate>,
                                       date: string, dayOfWeek: int)
    returns (activePlan: Option<WorkoutPlan>)
    requires store.Valid() && plans.Valid()
    modifies store
    ensures store.Valid()
    ensures activePlan.None? <==> WorkoutExerciseDao.CountForDate(old(store.rows), date) > 0
                                  || WorkoutPlanDao.ActiveIds(plans.plans) == {}
    ensures activePlan.Some? ==> && activePlan.value.id in plans.plans
                                 && plans.plans[activePlan.value.id] == activePlan.value
                                 && activePlan.value.isActive
    ensures store.State() == Generate(old(store.State()), date, activePlan, planExercises.rows, templates, dayOfWeek)
  {
    activePlan := None;
    var existingCount := store.GetWorkoutCountForDate(date);
    if existingCount > 0 {
      return;
    }
    activePlan := plans.GetActivePlan();
    if activePlan.None? {
      return;
    }
    var pes := PlanExerciseTable.ForPlanAndDay(planExercises.rows, activePlan.value.id, dayOfWeek);
    if pes == [] {
      return;
    }
    var workoutExercises := RowsFromPlan(date, pes, templates);
    if workoutExercises != [] {
      store.Insert(workoutExercises);
    }
  }
}
