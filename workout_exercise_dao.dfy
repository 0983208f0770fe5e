/**
 * The `workout_exercises` table behind `WorkoutExerciseDao`: rows keyed by their
 * auto-generated id. The pure functions say what each statement does to the table;
 * the class `WorkoutExerciseStore` performs the statements in place.
 */
module WorkoutExerciseDao {
  import opened Wrappers
  import opened Entities
  import opened Seqs

  type Rows = map<int, WorkoutExercise>

  /** The table's contents and the next id AUTOINCREMENT hands out. */
  datatype Table = Table(rows: Rows, nextId: int)

  /** Every row is stored under its own id; ids are never 0 and stay below `nextId`. */
  ghost predicate WellKeyed(t: Table)
  {
    t.nextId >= 1
    && forall id :: id in t.rows ==> t.rows[id].id == id && id != 0 && id < t.nextId
  }

  /**
   * One row of `@Insert(onConflict = REPLACE)`: id 0 asks for a fresh id; any other id
   * replaces the row with that id, if there is one.
   */
  function InsertOne(t: Table, e: WorkoutExercise): (r: Table)
    requires WellKeyed(t)
    ensures WellKeyed(r)
    ensures e.id == 0 ==> t.nextId !in t.rows && r.rows == t.rows[t.nextId := e.(id := t.nextId)]
    ensures e.id != 0 ==> r.rows == t.rows[e.id := e]
  {
    if e.id == 0 then Table(t.rows[t.nextId := e.(id := t.nextId)], t.nextId + 1)
    else Table(t.rows[e.id := e], if e.id >= t.nextId then e.id + 1 else t.nextId)
  }

  /** The vararg `insert(vararg exercises)`: the rows are inserted one after the other. */
  function InsertAll(t: Table, es: seq<WorkoutExercise>): (r: Table)
    requires WellKeyed(t)
    ensures WellKeyed(r)
    decreases |es|
  {
    if es == [] then t else InsertOne(InsertAll(t, es[..|es| - 1]), es[|es| - 1])
  }

  /** `UPDATE workout_exercises SET isCompleted = :isCompleted WHERE id = :id`. */
  function WithCompletion(rows: Rows, id: int, isCompleted: bool): Rows
  {
    if id in rows then rows[id := rows[id].(isCompleted := isCompleted)] else rows
  }

  /** `@Update`: the row with the same primary key is overwritten; without one nothing happens. */
  function UpdateRow(rows: Rows, e: WorkoutExercise): Rows
  {
    if e.id in rows then rows[e.id := e] else rows
  }

  /** `@Delete`: the row with the same primary key is removed. */
  function DeleteRow(rows: Rows, e: WorkoutExercise): Rows
  {
    rows - {e.id}
  }

  /** `DELETE FROM workout_exercises WHERE date = :date`. */
  function WithoutDate(rows: Rows, date: string): Rows
  {
    map id | id in rows && rows[id].date != date :: rows[id]
  }

  /** The ids of the rows that `WHERE date = :date` selects. */
  function IdsOnDate(rows: Rows, date: string): set<int>
  {
    set id | id in rows && rows[id].date == date
  }

  /** The ids of the rows that `WHERE date = :date AND isCompleted` selects. */
  function CompletedIdsOnDate(rows: Rows, date: string): set<int>
  {
    set id | id in rows && rows[id].date == date && rows[id].isCompleted
  }

  /** `getWorkoutCountForDate`. */
  function CountForDate(rows: Rows, date: string): nat
  {
    |IdsOnDate(rows, date)|
  }

  /** `getCompletedCountForDate`. */
  function CompletedCountForDate(rows: Rows, date: string): nat
  {
    |CompletedIdsOnDate(rows, date)|
  }

  /** The ids whose row is marked completed, whatever its date. */
  function CompletedIds(rows: Rows): set<int>
  {
    set id | id in rows && rows[id].isCompleted
  }

  /**
   * What `getWorkoutsForDate` has gathered once the ids in `todo` are still to visit:
   * `list` holds each visited row on `date` exactly once, and `seen` is their ids.
   */
  ghost predicate Collected(rows: Rows, date: string, todo: set<int>, seen: set<int>, list: seq<WorkoutExercise>)
  {
    && todo <= rows.Keys
    && seen == (set id | id in rows && id !in todo && rows[id].date == date)
    && (forall e :: e in list <==> e.id in seen && rows[e.id] == e)
    && (forall i, j :: 0 <= i < j < |list| ==> list[i].id != list[j].id)
    && (forall i :: 0 <= i < |list| ==> list[i].id in seen)
    && |list| == |seen|
  }

  /** Visiting one more id keeps the gathered rows in step with the ids seen. */
  lemma CollectStep(rows: Rows, date: string, todo: set<int>, seen: set<int>, list: seq<WorkoutExercise>, id: int)
    requires forall k :: k in rows ==> rows[k].id == k
    requires Collected(rows, date, todo, seen, list) && id in todo
    ensures rows[id].date == date ==> Collected(rows, date, todo - {id}, seen + {id}, list + [rows[id]])
    ensures rows[id].date != date ==> Collected(rows, date, todo - {id}, seen, list)
  {
    var todo' := todo - {id};
    if rows[id].date == date {
      var list' := list + [rows[id]];
      var seen' := seen + {id};
      assert id !in seen;
      assert seen' == (set k | k in rows && k !in todo' && rows[k].date == date);
      assert forall e :: e in list' <==> e in list || e == rows[id];
      assert |seen'| == |seen| + 1;
      forall i, j | 0 <= i < j < |list'|
        ensures list'[i].id != list'[j].id
      {
        if j == |list| {
          assert list'[i] == list[i] && list'[j] == rows[id];
        }
      }
    } else {
      assert seen == (set k | k in rows && k !in todo' && rows[k].date == date);
    }
  }

  /** Two rows that differ at most in their completion flag. */
  predicate SameButCompletion(a: WorkoutExercise, b: WorkoutExercise)
  {
    a.(isCompleted := b.isCompleted) == b
  }

  /**
   * `updateCompletionStatus(id, b)` keeps every key, changes no field but `isCompleted`,
   * and changes it only in the row with that id, which then carries `b`.
   */
  lemma CompletionTouchesOnlyTheFlag(rows: Rows, id: int, b: bool)
    ensures WithCompletion(rows, id, b).Keys == rows.Keys
    ensures forall k :: k in rows ==> SameButCompletion(rows[k], WithCompletion(rows, id, b)[k])
    ensures forall k :: k in rows && k != id ==> WithCompletion(rows, id, b)[k] == rows[k]
    ensures id in rows ==> WithCompletion(rows, id, b)[id].isCompleted == b
  {
  }

  /** Applying the same completion update twice is the same as applying it once. */
  lemma CompletionIdempotent(rows: Rows, id: int, b: bool)
    ensures WithCompletion(WithCompletion(rows, id, b), id, b) == WithCompletion(rows, id, b)
  {
  }

  /** Writing `true` never un-completes a row. */
  lemma CompletingIsMonotone(rows: Rows, id: int)
    ensures CompletedIds(rows) <= CompletedIds(WithCompletion(rows, id, true))
  {
  }

  /** The completed rows of a date are among that date's rows, so the counts are ordered. */
  lemma CompletedCountAtMostCount(rows: Rows, date: string)
    ensures CompletedIdsOnDate(rows, date) <= IdsOnDate(rows, date)
    ensures CompletedCountForDate(rows, date) <= CountForDate(rows, date)
  {
    var c, a := CompletedIdsOnDate(rows, date), IdsOnDate(rows, date);
    assert a == c + (a - c);
  }

  /** Both counts agree exactly when every row of the date is completed. */
  lemma AllCompletedIffCountsEqual(rows: Rows, date: string)
    ensures CompletedCountForDate(rows, date) == CountForDate(rows, date)
        <==> forall id :: id in rows && rows[id].date == date ==> rows[id].isCompleted
  {
    var c, a := CompletedIdsOnDate(rows, date), IdsOnDate(rows, date);
    if !(forall id :: id in rows && rows[id].date == date ==> rows[id].isCompleted) {
      var id :| id in rows && rows[id].date == date && !rows[id].isCompleted;
      assert a - {id} == c + ((a - {id}) - c);
      assert a == (a - {id}) + {id};
    } else {
      assert c == a;
    }
  }

  /** `deleteAllForDate(d)` empties date `d` and leaves every other row as it was. */
  lemma DeleteAllForDateSpec(rows: Rows, date: string)
    ensures CountForDate(WithoutDate(rows, date), date) == 0
    ensures forall id :: id in rows && rows[id].date != date
                         ==> id in WithoutDate(rows, date) && WithoutDate(rows, date)[id] == rows[id]
    ensures WithoutDate(rows, date).Keys <= rows.Keys
  {
    assert IdsOnDate(WithoutDate(rows, date), date) == {};
  }

  /**
   * REPLACE semantics: after inserting a row with a non-zero id, that id holds exactly the
   * new row; with id 0 the row gets a fresh id, and no existing row is touched.
   */
  lemma InsertOneReplaces(t: Table, e: WorkoutExercise)
    requires WellKeyed(t)
    ensures e.id != 0 ==> InsertOne(t, e).rows[e.id] == e
    ensures e.id != 0 ==> forall k :: k in t.rows && k != e.id ==> InsertOne(t, e).rows[k] == t.rows[k]
    ensures e.id == 0 ==> t.rows.Keys < InsertOne(t, e).rows.Keys
    ensures e.id == 0 ==> forall k :: k in t.rows ==> InsertOne(t, e).rows[k] == t.rows[k]
  {
  }

  /** Inserting keeps every key, and the last row inserted is present afterwards. */
  lemma {:induction false} InsertAllKeepsLast(t: Table, es: seq<WorkoutExercise>)
    requires WellKeyed(t) && es != []
    ensures t.rows.Keys <= InsertAll(t, es).rows.Keys
    ensures exists id :: id in InsertAll(t, es).rows
                         && InsertAll(t, es).rows[id] == es[|es| - 1].(id := id)
  {
    var last := es[|es| - 1];
    var before := InsertAll(t, es[..|es| - 1]);
    InsertAllKeepsKeys(t, es[..|es| - 1]);
    if last.id == 0 {
      assert InsertAll(t, es).rows[before.nextId] == last.(id := before.nextId);
    } else {
      assert InsertAll(t, es).rows[last.id] == last.(id := last.id);
    }
  }

  lemma {:induction false} InsertAllKeepsKeys(t: Table, es: seq<WorkoutExercise>)
    requires WellKeyed(t)
    ensures t.rows.Keys <= InsertAll(t, es).rows.Keys
    decreases |es|
  {
    if es != [] {
      InsertAllKeepsKeys(t, es[..|es| - 1]);
    }
  }

  /** A date with at least one row has a positive count. */
  lemma CountPositive(rows: Rows, id: int)
    requires id in rows
    ensures CountForDate(rows, rows[id].date) > 0
  {
    assert id in IdsOnDate(rows, rows[id].date);
  }

  /** The store object: the table, updated in place by each DAO statement. */
  class WorkoutExerciseStore {
    var rows: Rows
    var nextId: int

    function State(): Table
      reads this
    {
      Table(rows, nextId)
    }

    ghost predicate Valid()
      reads this
    {
      WellKeyed(State())
    }

    constructor ()
      ensures Valid() && rows == map[]
    {
      rows := map[];
      nextId := 1;
    }

    /** `insert(vararg exercises)`. */
    method Insert(es: seq<WorkoutExercise>)
      requires Valid()
      modifies this
      ensures Valid()
      ensures State() == InsertAll(old(State()), es)
    {
      var i := 0;
      while i < |es|
        invariant 0 <= i <= |es|
        invariant WellKeyed(State())
        invariant State() == InsertAll(old(State()), es[..i])
      {
        assert es[..i + 1][..i] == es[..i];
        var e := es[i];
        if e.id == 0 {
          rows := rows[nextId := e.(id := nextId)];
          nextId := nextId + 1;
        } else {
          rows := rows[e.id := e];
          if e.id >= nextId {
            nextId := e.id + 1;
          }
        }
        i := i + 1;
      }
      assert es[..|es|] == es;
    }

    /** `update(exercise)`. */
    method Update(e: WorkoutExercise)
      requires Valid()
      modifies this
      ensures Valid()
      ensures rows == UpdateRow(old(rows), e) && nextId == old(nextId)
    {
      if e.id in rows {
        rows := rows[e.id := e];
      }
    }

    /** `delete(exercise)`. */
    method Delete(e: WorkoutExercise)
      requires Valid()
      modifies this
      ensures Valid()
      ensures rows == DeleteRow(old(rows), e) && nextId == old(nextId)
    {
      rows := rows - {e.id};
    }

    /** `deleteAllForDate(date)`. */
    method DeleteAllForDate(date: string)
      requires Valid()
      modifies this
      ensures Valid()
      ensures rows == WithoutDate(old(rows), date) && nextId == old(nextId)
    {
      rows := map id | id in rows && rows[id].date != date :: rows[id];
    }

    /** `updateCompletionStatus(id, isCompleted)`. */
    method UpdateCompletionStatus(id: int, isCompleted: bool)
      requires Valid()
      modifies this
      ensures Valid()
      ensures rows == WithCompletion(old(rows), id, isCompleted) && nextId == old(nextId)
    {
      if id in rows {
        rows := rows[id := rows[id].(isCompleted := isCompleted)];
      }
    }

    /**
     * `getWorkoutsForDate(date)`: every row of that date, each exactly once. The query's
     * `ORDER BY 'order'` sorts by a string constant, so the order of the list is left
     * open: the loop takes the ids in an arbitrary order.
     */
    method GetWorkoutsForDate(date: string) returns (list: seq<WorkoutExercise>)
      requires Valid()
      ensures forall e :: e in list <==> e.id in rows && rows[e.id] == e && e.date == date
      ensures forall i, j :: 0 <= i < j < |list| ==> list[i].id != list[j].id
      ensures |list| == CountForDate(rows, date)
    {
      list := [];
      var todo := rows.Keys;
      ghost var seen: set<int> := {};
      while |todo| > 0
        invariant Collected(rows, date, todo, seen, list)
        decreases todo
      {
        NonEmptyHasElement(todo);
        var id :| id in todo;
        CollectStep(rows, date, todo, seen, list, id);
        if rows[id].date == date {
          list := list + [rows[id]];
          seen := seen + {id};
        }
        todo := todo - {id};
      }
      assert seen == IdsOnDate(rows, date);
    }

    /** `getWorkoutCountForDate(date)`. */
    method GetWorkoutCountForDate(date: string) returns (n: int)
      requires Valid()
      ensures n == CountForDate(rows, date)
      ensures n == 0 <==> forall id :: id in rows ==> rows[id].date != date
    {
      n := |set id | id in rows && rows[id].date == date|;
      if forall id :: id in rows ==> rows[id].date != date {
        assert IdsOnDate(rows, date) == {};
      } else {
        var id :| id in rows && rows[id].date == date;
        CountPositive(rows, id);
      }
    }

    /** `getCompletedCountForDate(date)`. */
    method GetCompletedCountForDate(date: string) returns (n: int)
      requires Valid()
      ensures n == CompletedCountForDate(rows, date)
      ensures n <= CountForDate(rows, date)
    {
      n := |set id | id in rows && rows[id].date == date && rows[id].isCompleted|;
      CompletedCountAtMostCount(rows, date);
    }
  }
}
