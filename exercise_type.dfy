/** The two kinds of exercise, and the lookup from the type string stored in a template. */
module ExerciseTypes {
  import opened Wrappers

  datatype ExerciseType = REPS | TIMED

  /** The enum constant's `name`. */
  function Name(t: ExerciseType): string
  {
    match t
    case REPS => "REPS"
    case TIMED => "TIMED"
  }

  /**
   * `ExerciseType.fromString`, which is `valueOf`: a case-sensitive match on the constant
   * names. `valueOf` throws on any other string; that failure is `None` here.
   */
  function FromString(value: string): (r: Option<ExerciseType>)
    ensures r.Some? <==> value == "REPS" || value == "TIMED"
    ensures r.Some? ==> Name(r.value) == value
  {
    if value == "REPS" then Some(REPS)
    else if value == "TIMED" then Some(TIMED)
    else None
  }

  /** Round trip: every constant is found again from its name. */
  lemma FromStringOfName(t: ExerciseType)
    ensures FromString(Name(t)) == Some(t)
  {
  }

  /** Names are distinct, so the lookup is a bijection between constants and their names. */
  lemma NameInjective(t: ExerciseType, u: ExerciseType)
    ensures Name(t) == Name(u) <==> t == u
  {
  }

  /** The lookup is case-sensitive: lower-case names are rejected. */
  lemma LowerCaseRejected()
    ensures FromString("reps") == None && FromString("timed") == None
  {
  }
}
