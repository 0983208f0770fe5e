/**
 * `ExerciseLibraryFragment`: the category filter over the library, the add/edit dialog
 * and the template it builds, and the writes of save and delete.
 */
module ExerciseLibrary {
  import opened Wrappers
  import opened Entities
  import opened Seqs
  import opened Text
  import ExerciseTypes
  import opened ExerciseTemplateTable
  import opened PlanExerciseTable

  // ---- category filter ----

  datatype CategoryChip = ChipWarmUp | ChipWorkout | ChipCooldown

  /** The chip listener: a category chip selects its category; no chip (None) means all. */
  function CategoryForChip(checked: Option<CategoryChip>): (r: Option<string>)
    ensures r.None? <==> checked.None?
    ensures r.Some? ==> r.value in CATEGORIES
  {
    match checked
    case None => None
    case Some(ChipWarmUp) => Some(WARM_UP)
    case Some(ChipWorkout) => Some(WORKOUT)
    case Some(ChipCooldown) => Some(COOLDOWN)
  }

  /** The category chips, in the order of the layout. */
  const CATEGORY_CHIPS: seq<CategoryChip> := [ChipWarmUp, ChipWorkout, ChipCooldown]

  /**
   * The chips select the three categories one to one: the i-th chip selects the i-th
   * category of the category list, and no two chips select the same category.
   */
  lemma ChipsSelectEachCategory()
    ensures |CATEGORY_CHIPS| == |CATEGORIES|
    ensures forall i :: 0 <= i < |CATEGORY_CHIPS| ==> CategoryForChip(Some(CATEGORY_CHIPS[i])) == Some(CATEGORIES[i])
    ensures forall a: CategoryChip, b: CategoryChip :: CategoryForChip(Some(a)) == CategoryForChip(Some(b)) ==> a == b
  {
    assert CategoryForChip(Some(CATEGORY_CHIPS[0])) == Some(CATEGORIES[0]);
    assert CategoryForChip(Some(CATEGORY_CHIPS[1])) == Some(CATEGORIES[1]);
    assert CategoryForChip(Some(CATEGORY_CHIPS[2])) == Some(CATEGORIES[2]);
  }

  function HasCategory(category: string): ExerciseTemplate -> bool
  {
    (t: ExerciseTemplate) => t.category == category
  }

  /** The list `loadExercises` submits for the templates the query delivered. */
  function FilterTemplates(allExercises: seq<ExerciseTemplate>, currentCategory: Option<string>): seq<ExerciseTemplate>
  {
    if currentCategory.None? then allExercises else Filter(allExercises, HasCategory(currentCategory.value))
  }

  /**
   * With no category the list is unchanged; with one, each template of that category is
   * kept as often as it occurs and every other template is dropped.
   */
  lemma FilterTemplatesSpec(allExercises: seq<ExerciseTemplate>, currentCategory: Option<string>)
    ensures currentCategory.None? ==> FilterTemplates(allExercises, currentCategory) == allExercises
    ensures currentCategory.Some? ==>
      forall t :: multiset(FilterTemplates(allExercises, currentCategory))[t]
               == if t.category == currentCategory.value then multiset(allExercises)[t] else 0
  {
    if currentCategory.Some? {
      forall t
        ensures multiset(FilterTemplates(allExercises, currentCategory))[t]
             == if t.category == currentCategory.value then multiset(allExercises)[t] else 0
      {
        FilterMultiset(allExercises, HasCategory(currentCategory.value), t);
      }
    }
  }

  // ---- the add/edit dialog ----

  datatype CategoryRadio = RadioWarmUp | RadioWorkout | RadioCooldown

  /**
   * The dialog's inputs. `category` is the checked category radio button, if any;
   * `repsChecked` is `radioReps.isChecked`. The four number fields are kept as what
   * `toIntOrNull()` makes of their text: `None` when the text does not parse.
   */
  datatype ExerciseForm = ExerciseForm(
    name: string,
    description: string,
    category: Option<CategoryRadio>,
    repsChecked: bool,
    sets: Option<int>,
    reps: Option<int>,
    setsTimed: Option<int>,
    duration: Option<int>)

  /** The category radio of a stored category; other strings check none. */
  function RadioFor(category: string): Option<CategoryRadio>
  {
    if category == WARM_UP then Some(RadioWarmUp)
    else if category == WORKOUT then Some(RadioWorkout)
    else if category == COOLDOWN then Some(RadioCooldown)
    else None
  }

  /** Name, description and category radio pre-filled from the template being edited. */
  function PrefillCommon(form: ExerciseForm, t: ExerciseTemplate): ExerciseForm
  {
    var f := form.(name := t.name, description := t.description);
    var radio := RadioFor(t.category);
    if radio.Some? then f.(category := radio) else f
  }

  /**
   * The pre-fill of `showExerciseDialog(existingTemplate)` as written: the "TIMED" branch
   * also checks `radioReps`.
   */
  function PrefillAsWritten(form: ExerciseForm, t: ExerciseTemplate): ExerciseForm
  {
    var f := PrefillCommon(form, t);
    if t.exerciseType == "REPS" then f.(repsChecked := true, sets := Some(t.defaultSets), reps := t.defaultReps)
    else if t.exerciseType == "TIMED" then f.(repsChecked := true, setsTimed := Some(t.defaultSets), duration := t.defaultDuration)
    else f
  }

  /** The pre-fill as evidently intended: a "TIMED" template checks the timed radio button. */
  function Prefill(form: ExerciseForm, t: ExerciseTemplate): ExerciseForm
  {
    var f := PrefillCommon(form, t);
    if t.exerciseType == "REPS" then f.(repsChecked := true, sets := Some(t.defaultSets), reps := t.defaultReps)
    else if t.exerciseType == "TIMED" then f.(repsChecked := false, setsTimed := Some(t.defaultSets), duration := t.defaultDuration)
    else f
  }

  /** The category the checked radio stands for; none checked means "Workout". */
  function CategoryOf(radio: Option<CategoryRadio>): string
  {
    match radio
    case Some(RadioWarmUp) => WARM_UP
    case Some(RadioCooldown) => COOLDOWN
    case _ => WORKOUT
  }

  /**
   * The save button: `None` when the trimmed name is empty (the dialog shows "Name is
   * required" and stays open), else the template to save, keeping the edited template's
   * id or 0 for a new one.
   */
  function TemplateFromForm(form: ExerciseForm, existing: Option<ExerciseTemplate>): Option<ExerciseTemplate>
  {
    var name := Trim(form.name);
    if name == [] then None
    else
      var description := Trim(form.description);
      var category := CategoryOf(form.category);
      var id := if existing.Some? then existing.value.id else 0;
      if form.repsChecked then
        Some(ExerciseTemplate(id, name, description, category, "REPS",
                              form.sets.GetOr(3), Some(form.reps.GetOr(10)), None))
      else
        Some(ExerciseTemplate(id, name, description, category, "TIMED",
                              form.setsTimed.GetOr(3), None, Some(form.duration.GetOr(30))))
  }

  /**
   * The templates the dialog can save: trimmed non-empty name, trimmed description, one
   * of the three categories, and either a REPS template with reps and no duration or a
   * TIMED one with a duration and no reps.
   */
  ghost predicate DialogTemplate(t: ExerciseTemplate)
  {
    && t.name != [] && Trimmed(t.name) && Trimmed(t.description)
    && t.category in CATEGORIES
    && ((t.exerciseType == "REPS" && t.defaultReps.Some? && t.defaultDuration.None?)
        || (t.exerciseType == "TIMED" && t.defaultReps.None? && t.defaultDuration.Some?))
  }

  /**
   * Save is refused exactly when the name is blank. Otherwise the template is a dialog
   * template whose type follows the reps radio button, whose category follows the
   * category radio buttons, whose id is kept, whose name and description are the
   * trimmed texts, and whose numbers are the ones entered for the checked type, with
   * unparsable ones taking the defaults 3 sets, 10 reps and 30 seconds; the other
   * type's field is left null.
   */
  lemma TemplateFromFormSpec(form: ExerciseForm, existing: Option<ExerciseTemplate>)
    ensures var r := TemplateFromForm(form, existing);
      && (r.None? <==> forall k :: 0 <= k < |form.name| ==> IsWhitespace(form.name[k]))
      && (r.Some? ==>
            var t := r.value;
            && DialogTemplate(t)
            && t.name == Trim(form.name)
            && t.id == (if existing.Some? then existing.value.id else 0)
            && (t.exerciseType == "REPS" <==> form.repsChecked)
            && (t.category == WARM_UP <==> form.category == Some(RadioWarmUp))
            && (t.category == COOLDOWN <==> form.category == Some(RadioCooldown))
            && t.description == Trim(form.description)
            && (form.repsChecked ==>
                  && t.defaultSets == (if form.sets.Some? then form.sets.value else 3)
                  && t.defaultReps == Some(if form.reps.Some? then form.reps.value else 10)
                  && t.defaultDuration.None?)
            && (!form.repsChecked ==>
                  && t.defaultSets == (if form.setsTimed.Some? then form.setsTimed.value else 3)
                  && t.defaultDuration == Some(if form.duration.Some? then form.duration.value else 30)
                  && t.defaultReps.None?))
  {
    TrimEmpty(form.name);
    TrimSpec(form.name);
    TrimSpec(form.description);
  }

  /** Every type string the dialog stores is accepted by `ExerciseType.fromString`. */
  lemma DialogTypesAccepted(form: ExerciseForm, existing: Option<ExerciseTemplate>)
    ensures var r := TemplateFromForm(form, existing);
      r.Some? ==> ExerciseTypes.FromString(r.value.exerciseType).Some?
  {
  }

  /**
   * Editing a dialog template and saving it unchanged gives back the same template: the
   * intended pre-fill round-trips, whatever the dialog's fields held before.
   */
  lemma PrefillRoundTrip(form: ExerciseForm, t: ExerciseTemplate)
    requires DialogTemplate(t)
    ensures TemplateFromForm(Prefill(form, t), Some(t)) == Some(t)
  {
    TrimOfTrimmed(t.name);
    TrimOfTrimmed(t.description);
  }

  /**
   * As written, editing a TIMED template and saving it unchanged turns it into a REPS
   * template of 3 sets of 10 when the reps fields were left empty, as they are in a
   * freshly inflated dialog.
   */
  lemma PrefillAsWrittenLosesTimed(form: ExerciseForm, t: ExerciseTemplate)
    requires DialogTemplate(t) && t.exerciseType == "TIMED"
    requires form.sets.None? && form.reps.None?
    ensures TemplateFromForm(PrefillAsWritten(form, t), Some(t))
         == Some(t.(exerciseType := "REPS", defaultSets := 3, defaultReps := Some(10), defaultDuration := None))
    ensures TemplateFromForm(PrefillAsWritten(form, t), Some(t)) != Some(t)
  {
    TrimOfTrimmed(t.name);
    TrimOfTrimmed(t.description);
  }

  /** For REPS templates the pre-fill as written already round-trips. */
  lemma PrefillAsWrittenKeepsReps(form: ExerciseForm, t: ExerciseTemplate)
    requires DialogTemplate(t) && t.exerciseType == "REPS"
    ensures PrefillAsWritten(form, t) == Prefill(form, t)
    ensures TemplateFromForm(PrefillAsWritten(form, t), Some(t)) == Some(t)
  {
    PrefillRoundTrip(form, t);
  }

  // ---- the screen ----

  /** The fragment's state: the selected category, the list shown, and the template table. */
  class ExerciseLibraryScreen {
    var currentCategory: Option<string>
    var exercises: seq<ExerciseTemplate>
    const table: TemplateTable
    /** The `plan_exercises` table, whose rows reference templates with `ON DELETE CASCADE`. */
    const planExercises: PlanExerciseStore

    ghost predicate Valid()
      reads this, table, planExercises
    {
      table.Valid() && planExercises.Valid()
    }

    constructor (table: TemplateTable, planExercises: PlanExerciseStore, allExercises: seq<ExerciseTemplate>)
      requires table.Valid() && planExercises.Valid()
      ensures this.table == table && this.planExercises == planExercises && Valid()
      ensures currentCategory.None? && exercises == allExercises
    {
      this.table := table;
      this.planExercises := planExercises;
      currentCategory := None;
      exercises := allExercises;
    }

    /**
     * `loadExercises()`: the observer's filter over `allExercises`, the templates the
     * query `ORDER BY category, name` delivered.
     */
    method LoadExercises(allExercises: seq<ExerciseTemplate>)
      modifies this
      ensures exercises == FilterTemplates(allExercises, currentCategory)
      ensures currentCategory == old(currentCategory)
    {
      if currentCategory.None? {
        exercises := allExercises;
      } else {
        exercises := Filter(allExercises, HasCategory(currentCategory.value));
      }
    }

    /** The chip listener: the category is set, then the list reloaded. */
    method SelectCategory(checked: Option<CategoryChip>, allExercises: seq<ExerciseTemplate>)
      modifies this
      ensures currentCategory == CategoryForChip(checked)
      ensures exercises == FilterTemplates(allExercises, currentCategory)
    {
      currentCategory := CategoryForChip(checked);
      LoadExercises(allExercises);
    }

    /** `saveExercise(template)`: a template with id 0 is inserted, any other updated. */
    method SaveExercise(template: ExerciseTemplate)
      requires Valid()
      modifies table
      ensures Valid()
      ensures template.id == 0 ==>
                exists id :: (id !in old(table.templates) && id != 0
                              && table.templates == old(table.templates)[id := template.(id := id)])
      ensures template.id != 0 ==> table.templates == UpdateTemplate(old(table.templates), template)
    {
      if template.id == 0 {
        var id := table.Insert(template);
      } else {
        table.Update(template);
      }
    }

    /**
     * The save button of the dialog opened for `existing` (None for a new exercise):
     * nothing is written when the trimmed name is empty; otherwise the built template is
     * saved.
     */
    method OnSaveClicked(form: ExerciseForm, existing: Option<ExerciseTemplate>) returns (saved: bool)
      requires Valid()
      modifies table
      ensures Valid()
      ensures saved <==> Trim(form.name) != []
      ensures !saved ==> table.templates == old(table.templates)
      ensures saved && existing.None? ==>
                exists id :: (id !in old(table.templates) && id != 0
                              && table.templates == old(table.templates)[id := TemplateFromForm(form, existing).value.(id := id)])
      ensures saved && existing.Some? && existing.value.id != 0 ==>
                table.templates == UpdateTemplate(old(table.templates), TemplateFromForm(form, existing).value)
    {
      var template := TemplateFromForm(form, existing);
      if template.None? {
        saved := false;
        return;
      }
      saved := true;
      SaveExercise(template.value);
    }

    /**
     * `deleteExercise(template)`: the template's row is deleted, and when there was one
     * the foreign key's cascade deletes every plan exercise that uses it, so none is left.
     */
    method DeleteExercise(template: ExerciseTemplate)
      requires Valid()
      modifies table, planExercises
      ensures Valid()
      ensures table.templates == old(table.templates) - {template.id}
      ensures planExercises.rows == (if template.id in old(table.templates)
                                     then WithoutTemplate(old(planExercises.rows), template.id)
                                     else old(planExercises.rows))
      ensures planExercises.nextId == old(planExercises.nextId)
      ensures template.id in old(table.templates) ==>
                forall pe :: pe in planExercises.rows <==> pe in old(planExercises.rows) && pe.exerciseTemplateId != template.id
    {
      var existed := template.id in table.templates;
      table.Delete(template);
      if existed {
        WithoutTemplateSpec(planExercises.rows, planExercises.nextId, template.id);
        planExercises.DeleteForTemplate(template.id);
      }
    }
  }
}
