/**
 * The `ExerciseTemplate` table behind `ExerciseTemplateDao`, as far as the library screen
 * writes it: templates keyed by their auto-generated id.
 */
module ExerciseTemplateTable {
  import opened Entities

  type Templates = map<int, ExerciseTemplate>

  /** Every template is stored under its own id; ids are never 0 and stay below `nextId`. */
  ghost predicate WellKeyed(templates: Templates, nextId: int)
  {
    nextId >= 1
    && forall id :: id in templates ==> templates[id].id == id && id != 0 && id < nextId
  }

  /** `@Update`: the template with the same primary key is overwritten; without one nothing happens. */
  function UpdateTemplate(templates: Templates, t: ExerciseTemplate): Templates
  {
    if t.id in templates then templates[t.id := t] else templates
  }

  class TemplateTable {
    var templates: Templates
    var nextId: int

    ghost predicate Valid()
      reads this
    {
      WellKeyed(templates, nextId)
    }

    constructor ()
      ensures Valid() && templates == map[]
    {
      templates := map[];
      nextId := 1;
    }

    /** `insert(template)` with REPLACE: id 0 asks for a fresh id, which is returned. */
    method Insert(t: ExerciseTemplate) returns (id: int)
      requires Valid()
      modifies this
      ensures Valid()
      ensures id != 0 && (t.id != 0 ==> id == t.id) && (t.id == 0 ==> id !in old(templates))
      ensures templates == old(templates)[id := t.(id := id)]
    {
      if t.id == 0 {
        id := nextId;
        nextId := nextId + 1;
      } else {
        id := t.id;
        if id >= nextId {
          nextId := id + 1;
        }
      }
      templates := templates[id := t.(id := id)];
    }

    /** `update(template)`. */
    method Update(t: ExerciseTemplate)
      requires Valid()
      modifies this
      ensures Valid()
      ensures templates == UpdateTemplate(old(templates), t) && nextId == old(nextId)
    {
      if t.id in templates {
        templates := templates[t.id := t];
      }
    }

    /** `delete(template)`. */
    method Delete(t: ExerciseTemplate)
      requires Valid()
      modifies this
      ensures Valid()
      ensures templates == old(templates) - {t.id} && nextId == old(nextId)
    {
      templates := templates - {t.id};
    }
  }
}
