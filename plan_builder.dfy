/**
 * `PlanBuilderActivity`: the day's plan exercises grouped under category headers, the
 * drag move with its renumbering of `order`, the order given to a newly added exercise,
 * and the day chips.
 */
module PlanBuilder {
  import opened Wrappers
  import opened Entities
  import opened Seqs
  import opened PlanBuilderItems
  import opened PlanExerciseTable
  import PlanExerciseAdapter

  // ---- day chips ----

  datatype DayChip =
    ChipMonday | ChipTuesday | ChipWednesday | ChipThursday | ChipFriday | ChipSaturday | ChipSunday

  /** The `when` over the first checked chip; no chip checked means Monday. */
  function DayForChip(checked: Option<DayChip>): (day: int)
    ensures SUNDAY <= day <= SATURDAY
    ensures checked.None? ==> day == MONDAY
  {
    match checked
    case None => MONDAY
    case Some(ChipMonday) => MONDAY
    case Some(ChipTuesday) => TUESDAY
    case Some(ChipWednesday) => WEDNESDAY
    case Some(ChipThursday) => THURSDAY
    case Some(ChipFriday) => FRIDAY
    case Some(ChipSaturday) => SATURDAY
    case Some(ChipSunday) => SUNDAY
  }

  const ALL_CHIPS: seq<DayChip> :=
    [ChipMonday, ChipTuesday, ChipWednesday, ChipThursday, ChipFriday, ChipSaturday, ChipSunday]

  /** The seven chips select the seven weekdays, each a different one. */
  lemma ChipsCoverTheWeek()
    ensures forall a: DayChip, b: DayChip :: DayForChip(Some(a)) == DayForChip(Some(b)) ==> a == b
    ensures (set i | 0 <= i < |ALL_CHIPS| :: DayForChip(Some(ALL_CHIPS[i]))) == {SUNDAY, MONDAY, TUESDAY, WEDNESDAY, THURSDAY, FRIDAY, SATURDAY}
  {
    var days := set i | 0 <= i < |ALL_CHIPS| :: DayForChip(Some(ALL_CHIPS[i]));
    assert DayForChip(Some(ALL_CHIPS[0])) == MONDAY;
    assert DayForChip(Some(ALL_CHIPS[1])) == TUESDAY;
    assert DayForChip(Some(ALL_CHIPS[2])) == WEDNESDAY;
    assert DayForChip(Some(ALL_CHIPS[3])) == THURSDAY;
    assert DayForChip(Some(ALL_CHIPS[4])) == FRIDAY;
    assert DayForChip(Some(ALL_CHIPS[5])) == SATURDAY;
    assert DayForChip(Some(ALL_CHIPS[6])) == SUNDAY;
    assert days == {SUNDAY, MONDAY, TUESDAY, WEDNESDAY, THURSDAY, FRIDAY, SATURDAY};
  }

  // ---- loading a day ----

  /** A plan exercise paired with its template, as `exercisesWithTemplates` holds them. */
  type WithTemplate = (PlanExercise, ExerciseTemplate)

  /** The `mapNotNull` that pairs each plan exercise with its template, dropping those without one. */
  function WithTemplates(pes: seq<PlanExercise>, templates: map<int, ExerciseTemplate>): (r: seq<WithTemplate>)
    ensures |r| <= |pes|
    ensures forall i :: 0 <= i < |r| ==>
              r[i].0 in pes && r[i].0.exerciseTemplateId in templates && r[i].1 == templates[r[i].0.exerciseTemplateId]
  {
    if pes == [] then []
    else if pes[0].exerciseTemplateId in templates then
      [(pes[0], templates[pes[0].exerciseTemplateId])] + WithTemplates(pes[1..], templates)
    else WithTemplates(pes[1..], templates)
  }

  /** Exactly the plan exercises that have a template appear, each with that template. */
  lemma {:induction false} WithTemplatesMembers(pes: seq<PlanExercise>, templates: map<int, ExerciseTemplate>)
    ensures forall pe, t :: (pe, t) in WithTemplates(pes, templates)
              <==> pe in pes && pe.exerciseTemplateId in templates && t == templates[pe.exerciseTemplateId]
  {
    if pes != [] {
      WithTemplatesMembers(pes[1..], templates);
      assert pes == [pes[0]] + pes[1..];
    }
  }

  function PairOrder(p: WithTemplate): int
  {
    p.0.order
  }

  function PairInCategory(category: string): WithTemplate -> bool
  {
    (p: WithTemplate) => p.1.category == category
  }

  /** One `Exercise` item per pair, in order. */
  function ExerciseRows(ps: seq<WithTemplate>): (r: seq<PlanBuilderItem>)
    ensures |r| == |ps|
    ensures forall i :: 0 <= i < |ps| ==> r[i] == Exercise(ps[i].0, ps[i].1)
  {
    if ps == [] then [] else [Exercise(ps[0].0, ps[0].1)] + ExerciseRows(ps[1..])
  }

  /** The exercise rows hold exactly the pairs, and no header. */
  lemma ExerciseRowsMembers(ps: seq<WithTemplate>)
    ensures forall pe, t :: Exercise(pe, t) in ExerciseRows(ps) <==> (pe, t) in ps
    ensures forall c :: Header(c) !in ExerciseRows(ps)
  {
    var r := ExerciseRows(ps);
    forall pe, t ensures Exercise(pe, t) in r <==> (pe, t) in ps {
      if (pe, t) in ps {
        var i :| 0 <= i < |ps| && ps[i] == (pe, t);
        assert r[i] == Exercise(pe, t);
      }
    }
  }

  /** One category's block: its pairs sorted by `order`, under a header when there are any. */
  function CategorySection(category: string, ps: seq<WithTemplate>): seq<PlanBuilderItem>
  {
    var rows := SortByKey(Filter(ps, PairInCategory(category)), PairOrder);
    if rows == [] then [] else [Header(category)] + ExerciseRows(rows)
  }

  function SectionsFrom(categories: seq<string>, ps: seq<WithTemplate>): seq<PlanBuilderItem>
    decreases |categories|
  {
    if categories == [] then []
    else SectionsFrom(categories[..|categories| - 1], ps) + CategorySection(categories[|categories| - 1], ps)
  }

  lemma SectionsFromStep(categories: seq<string>, c: int, ps: seq<WithTemplate>)
    requires 0 <= c < |categories|
    ensures SectionsFrom(categories[..c + 1], ps) == SectionsFrom(categories[..c], ps) + CategorySection(categories[c], ps)
  {
    assert categories[..c + 1][..c] == categories[..c];
  }

  /** The list `loadExercisesForDay` shows for the pairs it loaded. */
  function LoadedItems(ps: seq<WithTemplate>): seq<PlanBuilderItem>
  {
    SectionsFrom(CATEGORIES, ps)
  }

  lemma LoadedShape(ps: seq<WithTemplate>)
    ensures LoadedItems(ps) == CategorySection(WARM_UP, ps) + CategorySection(WORKOUT, ps) + CategorySection(COOLDOWN, ps)
  {
    var cs := CATEGORIES;
    assert cs[..2] == [WARM_UP, WORKOUT] && cs[..2][..1] == [WARM_UP] && [WARM_UP][..0] == [];
    assert SectionsFrom([WARM_UP], ps) == CategorySection(WARM_UP, ps);
    assert SectionsFrom([WARM_UP, WORKOUT], ps) == CategorySection(WARM_UP, ps) + CategorySection(WORKOUT, ps);
  }

  /** A category's block is empty exactly when no loaded pair has that category. */
  lemma CategorySectionEmpty(category: string, ps: seq<WithTemplate>)
    ensures CategorySection(category, ps) == [] <==> forall p :: p in ps ==> p.1.category != category
  {
    if exists p :: p in ps && p.1.category == category {
      var p :| p in ps && p.1.category == category;
      var f := Filter(ps, PairInCategory(category));
      assert p in f;
      assert p in multiset(SortByKey(f, PairOrder));
    }
  }

  /** Rows made from pairs of one category all carry that category. */
  lemma ExerciseRowsCategory(rows: seq<WithTemplate>, category: string)
    requires forall x :: x in rows ==> x.1.category == category
    ensures forall k :: 0 <= k < |ExerciseRows(rows)| ==>
              ExerciseRows(rows)[k].Exercise? && ExerciseRows(rows)[k].template.category == category
  {
    var r := ExerciseRows(rows);
    forall k | 0 <= k < |r|
      ensures r[k].Exercise? && r[k].template.category == category
    {
      assert rows[k] in rows;
    }
  }

  /** Rows made from pairs sorted by `order` are in ascending `order`. */
  lemma ExerciseRowsOrdered(rows: seq<WithTemplate>)
    requires SortedByKey(rows, PairOrder)
    ensures forall k, l :: 0 <= k < l < |ExerciseRows(rows)| ==>
              ExerciseRows(rows)[k].planExercise.order <= ExerciseRows(rows)[l].planExercise.order
  {
    var r := ExerciseRows(rows);
    forall k, l | 0 <= k < l < |r|
      ensures r[k].planExercise.order <= r[l].planExercise.order
    {
      assert PairOrder(rows[k]) <= PairOrder(rows[l]);
    }
  }

  /** A non-empty block is its header, then rows of that category in ascending `order`. */
  lemma CategorySectionShape(category: string, ps: seq<WithTemplate>)
    ensures var sec := CategorySection(category, ps);
      && (sec != [] ==> sec[0] == Header(category))
      && (forall k :: 1 <= k < |sec| ==> sec[k].Exercise? && sec[k].template.category == category)
      && (forall k, l :: 1 <= k < l < |sec| ==> sec[k].planExercise.order <= sec[l].planExercise.order)
  {
    var f := Filter(ps, PairInCategory(category));
    var rows := SortByKey(f, PairOrder);
    if rows != [] {
      assert CategorySection(category, ps) == [Header(category)] + ExerciseRows(rows);
      SortByKeySorted(f, PairOrder);
      SortByKeyMembers(f, PairOrder);
      assert forall x :: x in rows ==> x in f;
      HeaderAndRows(category, rows);
    }
  }

  /** A header followed by the rows of sorted pairs of its category. */
  lemma HeaderAndRows(category: string, rows: seq<WithTemplate>)
    requires forall x :: x in rows ==> x.1.category == category
    requires SortedByKey(rows, PairOrder)
    ensures var sec := [Header(category)] + ExerciseRows(rows);
      && sec[0] == Header(category)
      && (forall k :: 1 <= k < |sec| ==> sec[k].Exercise? && sec[k].template.category == category)
      && (forall k, l :: 1 <= k < l < |sec| ==> sec[k].planExercise.order <= sec[l].planExercise.order)
  {
    var er := ExerciseRows(rows);
    var sec := [Header(category)] + er;
    ExerciseRowsCategory(rows, category);
    ExerciseRowsOrdered(rows);
    assert forall k :: 1 <= k < |sec| ==> sec[k] == er[k - 1];
  }

  /** A block holds exactly the loaded pairs of its category. */
  lemma CategorySectionMembers(category: string, ps: seq<WithTemplate>)
    ensures forall pe, t :: Exercise(pe, t) in CategorySection(category, ps) <==> (pe, t) in ps && t.category == category
  {
    var f := Filter(ps, PairInCategory(category));
    var rows := SortByKey(f, PairOrder);
    SortByKeyMembers(f, PairOrder);
    ExerciseRowsMembers(rows);
    var sec := CategorySection(category, ps);
    forall pe, t
      ensures Exercise(pe, t) in sec <==> (pe, t) in ps && t.category == category
    {
      assert (pe, t) in f <==> (pe, t) in ps && t.category == category;
      if rows != [] {
        assert Exercise(pe, t) in sec <==> Exercise(pe, t) in ExerciseRows(rows);
      }
    }
  }

  /**
   * An exercise row appears exactly for a loaded pair of one of the three categories; a
   * header appears exactly for a category with at least one pair.
   */
  lemma LoadedMembers(ps: seq<WithTemplate>)
    ensures forall pe, t :: Exercise(pe, t) in LoadedItems(ps) <==> (pe, t) in ps && t.category in CATEGORIES
    ensures forall c :: Header(c) in LoadedItems(ps) <==> c in CATEGORIES && exists p :: p in ps && p.1.category == c
  {
    LoadedExercises(ps);
    LoadedHeaders(ps);
  }

  lemma LoadedExercises(ps: seq<WithTemplate>)
    ensures forall pe, t :: Exercise(pe, t) in LoadedItems(ps) <==> (pe, t) in ps && t.category in CATEGORIES
  {
    LoadedShape(ps);
    CategorySectionMembers(WARM_UP, ps);
    CategorySectionMembers(WORKOUT, ps);
    CategorySectionMembers(COOLDOWN, ps);
  }

  lemma LoadedHeaders(ps: seq<WithTemplate>)
    ensures forall c :: Header(c) in LoadedItems(ps) <==> c in CATEGORIES && exists p :: p in ps && p.1.category == c
  {
    LoadedShape(ps);
    SectionHeaders(WARM_UP, ps);
    SectionHeaders(WORKOUT, ps);
    SectionHeaders(COOLDOWN, ps);
  }

  lemma SectionHeaders(category: string, ps: seq<WithTemplate>)
    ensures forall c :: Header(c) in CategorySection(category, ps)
              <==> c == category && exists p :: p in ps && p.1.category == category
  {
    CategorySectionEmpty(category, ps);
    CategorySectionShape(category, ps);
    var sec := CategorySection(category, ps);
    forall c | Header(c) in sec
      ensures c == category
    {
      var k :| 0 <= k < |sec| && sec[k] == Header(c);
    }
  }

  // ---- grouping shape ----

  /** What a row contributes to the grouping: header or exercise, and its category. */
  datatype Shape = HeaderShape(category: string) | ExerciseShape(category: string)

  function ShapeOf(item: PlanBuilderItem): Shape
  {
    match item
    case Header(c) => HeaderShape(c)
    case Exercise(_, t) => ExerciseShape(t.category)
  }

  function Shapes(items: seq<PlanBuilderItem>): (r: seq<Shape>)
    ensures |r| == |items|
    ensures forall i :: 0 <= i < |items| ==> r[i] == ShapeOf(items[i])
  {
    if items == [] then [] else [ShapeOf(items[0])] + Shapes(items[1..])
  }

  /** The index of the nearest header strictly above position `i`, if any. */
  function HeaderAbove(sh: seq<Shape>, i: int): (r: Option<int>)
    requires 0 <= i <= |sh|
    ensures r.Some? ==> 0 <= r.value < i && sh[r.value].HeaderShape?
                        && forall k :: r.value < k < i ==> sh[k].ExerciseShape?
    ensures r.None? ==> forall k :: 0 <= k < i ==> sh[k].ExerciseShape?
    decreases i
  {
    if i == 0 then None
    else if sh[i - 1].HeaderShape? then Some(i - 1)
    else HeaderAbove(sh, i - 1)
  }

  /** The row at `i`, if an exercise, has its own category's header as the nearest one above. */
  ghost predicate GroupedAt(sh: seq<Shape>, i: int)
    requires 0 <= i < |sh|
  {
    sh[i].ExerciseShape? ==>
      var h := HeaderAbove(sh, i);
      h.Some? && sh[h.value].category == sh[i].category
  }

  /** Every exercise row sits below the header of its own category, with only exercises between. */
  ghost predicate WellGrouped(sh: seq<Shape>)
  {
    forall i :: 0 <= i < |sh| ==> GroupedAt(sh, i)
  }

  /** No category has two headers. */
  ghost predicate DistinctHeaders(sh: seq<Shape>)
  {
    forall i, j :: 0 <= i < j < |sh| && sh[i].HeaderShape? && sh[j].HeaderShape? ==> sh[i].category != sh[j].category
  }

  lemma HeaderAboveUnique(sh: seq<Shape>, i: int, j: int)
    requires 0 <= j < i <= |sh| && sh[j].HeaderShape?
    requires forall k :: j < k < i ==> sh[k].ExerciseShape?
    ensures HeaderAbove(sh, i) == Some(j)
  {
  }

  lemma {:induction false} HeaderAbovePrefix(a: seq<Shape>, x: seq<Shape>, i: int)
    requires 0 <= i <= |a|
    ensures HeaderAbove(a + x, i) == HeaderAbove(a, i)
    decreases i
  {
    if i > 0 {
      assert (a + x)[i - 1] == a[i - 1];
      HeaderAbovePrefix(a, x, i - 1);
    }
  }

  /** A header of a new category followed by its exercises. */
  ghost predicate Block(blk: seq<Shape>, category: string)
  {
    |blk| >= 1 && blk[0] == HeaderShape(category)
    && forall k :: 1 <= k < |blk| ==> blk[k] == ExerciseShape(category)
  }

  ghost predicate HeadersIn(sh: seq<Shape>, categories: seq<string>)
  {
    forall k :: 0 <= k < |sh| && sh[k].HeaderShape? ==> sh[k].category in categories
  }

  /** Appending the block of a category without a header yet keeps the list grouped. */
  lemma AppendBlock(a: seq<Shape>, blk: seq<Shape>, category: string, seen: seq<string>)
    requires WellGrouped(a) && DistinctHeaders(a) && HeadersIn(a, seen) && category !in seen
    requires Block(blk, category)
    ensures WellGrouped(a + blk) && DistinctHeaders(a + blk) && HeadersIn(a + blk, seen + [category])
  {
    var b := a + blk;
    forall i | 0 <= i < |b|
      ensures GroupedAt(b, i)
    {
      if b[i].HeaderShape? {
      } else if i < |a| {
        assert GroupedAt(a, i);
        HeaderAbovePrefix(a, blk, i);
        assert b[i] == a[i];
        assert b[HeaderAbove(a, i).value] == a[HeaderAbove(a, i).value];
      } else {
        assert b[|a|] == HeaderShape(category);
        assert i > |a|;
        HeaderAboveUnique(b, i, |a|);
      }
    }
  }

  lemma ShapesAppend(x: seq<PlanBuilderItem>, y: seq<PlanBuilderItem>)
    ensures Shapes(x + y) == Shapes(x) + Shapes(y)
  {
    var l, r := Shapes(x + y), Shapes(x) + Shapes(y);
    forall i | 0 <= i < |x + y|
      ensures l[i] == r[i]
    {
      if i < |x| {
        assert (x + y)[i] == x[i];
      } else {
        assert (x + y)[i] == y[i - |x|];
      }
    }
  }

  lemma {:induction false} SectionsGrouped(categories: seq<string>, ps: seq<WithTemplate>)
    requires forall i, j :: 0 <= i < j < |categories| ==> categories[i] != categories[j]
    ensures var sh := Shapes(SectionsFrom(categories, ps));
      WellGrouped(sh) && DistinctHeaders(sh) && HeadersIn(sh, categories)
    decreases |categories|
  {
    if categories != [] {
      var init := categories[..|categories| - 1];
      var c := categories[|categories| - 1];
      LastNotInInit(categories);
      SectionsGrouped(init, ps);
      AppendSection(SectionsFrom(init, ps), c, ps, init);
      assert categories == init + [c];
    }
  }

  /** Splitting off the last of distinct categories: the rest stay distinct and lack it. */
  lemma LastNotInInit(categories: seq<string>)
    requires categories != []
    requires forall i, j :: 0 <= i < j < |categories| ==> categories[i] != categories[j]
    ensures var init := categories[..|categories| - 1];
      && categories[|categories| - 1] !in init
      && forall i, j :: 0 <= i < j < |init| ==> init[i] != init[j]
  {
    var init := categories[..|categories| - 1];
    assert forall i :: 0 <= i < |init| ==> init[i] == categories[i];
  }

  lemma AppendSection(a: seq<PlanBuilderItem>, category: string, ps: seq<WithTemplate>, seen: seq<string>)
    requires WellGrouped(Shapes(a)) && DistinctHeaders(Shapes(a)) && HeadersIn(Shapes(a), seen)
    requires category !in seen
    ensures var sh := Shapes(a + CategorySection(category, ps));
      WellGrouped(sh) && DistinctHeaders(sh) && HeadersIn(sh, seen + [category])
  {
    var sec := CategorySection(category, ps);
    ShapesAppend(a, sec);
    if sec == [] {
      assert a + sec == a;
    } else {
      CategorySectionShape(category, ps);
      assert Block(Shapes(sec), category);
      AppendBlock(Shapes(a), Shapes(sec), category, seen);
    }
  }

  /** The loaded list is grouped: one header per category, each above exactly its exercises. */
  lemma LoadedGrouped(ps: seq<WithTemplate>)
    ensures WellGrouped(Shapes(LoadedItems(ps))) && DistinctHeaders(Shapes(LoadedItems(ps)))
  {
    SectionsGrouped(CATEGORIES, ps);
  }

  // ---- moving a row ----

  /** `removeAt(i)`. */
  function RemoveAt<T>(s: seq<T>, i: int): (r: seq<T>)
    requires 0 <= i < |s|
    ensures |r| == |s| - 1
  {
    s[..i] + s[i + 1..]
  }

  /** `add(i, x)`. */
  function InsertAt<T>(s: seq<T>, i: int, x: T): (r: seq<T>)
    requires 0 <= i <= |s|
    ensures |r| == |s| + 1
  {
    s[..i] + [x] + s[i..]
  }

  /** `val item = removeAt(from); add(to, item)`. */
  function Moved<T>(s: seq<T>, from: int, to: int): seq<T>
    requires 0 <= from < |s| && 0 <= to < |s|
  {
    InsertAt(RemoveAt(s, from), to, s[from])
  }

  /** Where each element of the moved list comes from. */
  lemma MovedIndex<T>(s: seq<T>, from: int, to: int)
    requires 0 <= from < |s| && 0 <= to < |s|
    ensures var r := Moved(s, from, to);
      && |r| == |s| && r[to] == s[from]
      && (forall k :: 0 <= k < |s| && k < from && k < to ==> r[k] == s[k])
      && (forall k :: 0 <= k < |s| && k > from && k > to ==> r[k] == s[k])
      && (forall k :: from <= k < to ==> r[k] == s[k + 1])
      && (forall k :: to < k <= from ==> r[k] == s[k - 1])
  {
  }

  /**
   * A move is a permutation that puts the moved element at `to` and keeps the relative
   * order of all the others.
   */
  lemma MovedSpec<T>(s: seq<T>, from: int, to: int)
    requires 0 <= from < |s| && 0 <= to < |s|
    ensures var r := Moved(s, from, to);
      && |r| == |s|
      && multiset(r) == multiset(s)
      && r[to] == s[from]
      && RemoveAt(r, to) == RemoveAt(s, from)
  {
    var t := RemoveAt(s, from);
    var r := Moved(s, from, to);
    calc {
      multiset(s);
      { assert s == s[..from] + [s[from]] + s[from + 1..]; }
      multiset(s[..from]) + multiset{s[from]} + multiset(s[from + 1..]);
      multiset(t) + multiset{s[from]};
      { assert t == t[..to] + t[to..]; }
      multiset(t[..to]) + multiset(t[to..]) + multiset{s[from]};
      multiset(t[..to] + [s[from]] + t[to..]);
      multiset(r);
    }
    assert r[..to] == t[..to] && r[to + 1..] == t[to..];
  }

  /**
   * Between two exercise rows of one category in a grouped list there are only exercise
   * rows of that category.
   */
  lemma SameCategoryBetween(sh: seq<Shape>, lo: int, hi: int, category: string)
    requires WellGrouped(sh) && DistinctHeaders(sh)
    requires 0 <= lo <= hi < |sh|
    requires sh[lo] == ExerciseShape(category) && sh[hi] == ExerciseShape(category)
    ensures forall k :: lo <= k <= hi ==> sh[k] == ExerciseShape(category)
  {
    assert GroupedAt(sh, lo) && GroupedAt(sh, hi);
    var jl := HeaderAbove(sh, lo).value;
    var jh := HeaderAbove(sh, hi).value;
    assert jl == jh;
    forall k | lo <= k <= hi
      ensures sh[k] == ExerciseShape(category)
    {
      assert sh[k].ExerciseShape?;
      HeaderAboveUnique(sh, k, jl);
      assert GroupedAt(sh, k);
    }
  }

  /** In a grouped list, two exercise rows of one category enclose a run of such rows. */
  lemma RunBetween(sh: seq<Shape>, from: int, to: int, category: string)
    requires WellGrouped(sh) && DistinctHeaders(sh)
    requires 0 <= from < |sh| && 0 <= to < |sh|
    requires sh[from] == ExerciseShape(category) && sh[to] == ExerciseShape(category)
    ensures forall k :: (from <= k <= to || to <= k <= from) ==> sh[k] == sh[from]
  {
    if from <= to {
      SameCategoryBetween(sh, from, to, category);
    } else {
      SameCategoryBetween(sh, to, from, category);
    }
  }

  lemma ShapesPrefix(items: seq<PlanBuilderItem>, i: int)
    requires 0 <= i <= |items|
    ensures Shapes(items[..i]) == Shapes(items)[..i]
  {
    var sh, p := Shapes(items), Shapes(items[..i]);
    forall k | 0 <= k < i ensures p[k] == sh[k] {
      assert items[..i][k] == items[k];
    }
  }

  lemma ShapesSuffix(items: seq<PlanBuilderItem>, i: int)
    requires 0 <= i <= |items|
    ensures Shapes(items[i..]) == Shapes(items)[i..]
  {
    assert items == items[..i] + items[i..];
    ShapesAppend(items[..i], items[i..]);
    assert |Shapes(items[..i])| == i;
  }

  /** Taking the shapes commutes with moving a row. */
  lemma ShapesMoved(items: seq<PlanBuilderItem>, from: int, to: int)
    requires 0 <= from < |items| && 0 <= to < |items|
    ensures Shapes(Moved(items, from, to)) == Moved(Shapes(items), from, to)
  {
    var sh := Shapes(items);
    var t := RemoveAt(items, from);
    ShapesAppend(items[..from], items[from + 1..]);
    ShapesPrefix(items, from);
    ShapesSuffix(items, from + 1);
    assert Shapes(t) == RemoveAt(sh, from);
    var x := items[from];
    ShapesAppend(t[..to], [x]);
    ShapesAppend(t[..to] + [x], t[to..]);
    ShapesPrefix(t, to);
    ShapesSuffix(t, to);
    assert Shapes([x]) == [sh[from]];
    assert Shapes(Moved(items, from, to)) == Shapes(t)[..to] + [sh[from]] + Shapes(t)[to..];
  }

  /** Moving within a run of equal elements changes nothing. */
  lemma MovedRun<T>(s: seq<T>, from: int, to: int)
    requires 0 <= from < |s| && 0 <= to < |s|
    requires forall k :: (from <= k <= to || to <= k <= from) ==> s[k] == s[from]
    ensures Moved(s, from, to) == s
  {
    MovedIndex(s, from, to);
    var r := Moved(s, from, to);
    forall k | 0 <= k < |s|
      ensures r[k] == s[k]
    {
      if from <= k < to {
        assert s[k + 1] == s[from];
      } else if to < k <= from {
        assert s[k - 1] == s[from];
      }
    }
  }

  /** Moving within a run of rows of one shape leaves the shapes as they were. */
  lemma MoveWithinRun(items: seq<PlanBuilderItem>, from: int, to: int)
    requires 0 <= from < |items| && 0 <= to < |items|
    requires forall k :: (from <= k <= to || to <= k <= from) ==> Shapes(items)[k] == Shapes(items)[from]
    ensures Shapes(Moved(items, from, to)) == Shapes(items)
  {
    ShapesMoved(items, from, to);
    MovedRun(Shapes(items), from, to);
  }

  /**
   * A move the adapter forwards leaves every row's kind and category where it was: each
   * category's exercises stay contiguous under their header.
   */
  lemma ForwardedMoveKeepsGrouping(items: seq<PlanBuilderItem>, from: int, to: int)
    requires 0 <= from < |items| && 0 <= to < |items|
    requires WellGrouped(Shapes(items)) && DistinctHeaders(Shapes(items))
    requires PlanExerciseAdapter.MoveForwarded(items, from, to)
    ensures Shapes(Moved(items, from, to)) == Shapes(items)
    ensures WellGrouped(Shapes(Moved(items, from, to))) && DistinctHeaders(Shapes(Moved(items, from, to)))
  {
    ForwardedMoveRun(items, from, to);
    MoveWithinRun(items, from, to);
  }

  /** The rows a forwarded move passes over are exercises of the moved row's category. */
  lemma ForwardedMoveRun(items: seq<PlanBuilderItem>, from: int, to: int)
    requires 0 <= from < |items| && 0 <= to < |items|
    requires WellGrouped(Shapes(items)) && DistinctHeaders(Shapes(items))
    requires PlanExerciseAdapter.MoveForwarded(items, from, to)
    ensures forall k :: (from <= k <= to || to <= k <= from) ==> Shapes(items)[k] == Shapes(items)[from]
  {
    var category := items[from].template.category;
    RunBetween(Shapes(items), from, to, category);
  }

  // ---- renumbering ----

  /** `filterIsInstance<Exercise>()`, keeping the plan exercises. */
  function ExercisesOf(items: seq<PlanBuilderItem>): (r: seq<PlanExercise>)
    ensures |r| <= |items|
    ensures forall pe :: pe in r <==> exists t :: Exercise(pe, t) in items
  {
    if items == [] then []
    else if items[0].Exercise? then [items[0].planExercise] + ExercisesOf(items[1..])
    else ExercisesOf(items[1..])
  }

  /** The table after `update(exercises[i].copy(order = i))` for each i in turn. */
  function Renumbered(rows: seq<PlanExercise>, exercises: seq<PlanExercise>): seq<PlanExercise>
    decreases |exercises|
  {
    if exercises == [] then rows
    else
      var last := |exercises| - 1;
      UpdateRows(Renumbered(rows, exercises[..last]), exercises[last].(order := last))
  }

  ghost predicate DistinctIds(pes: seq<PlanExercise>)
  {
    forall i, j :: 0 <= i < j < |pes| ==> pes[i].id != pes[j].id
  }

  /**
   * With distinct ids, the row of the i-th exercise becomes that exercise with `order`
   * i; every other row is unchanged, and the row ids stay where they were.
   */
  lemma {:induction false} RenumberedSpec(rows: seq<PlanExercise>, exercises: seq<PlanExercise>)
    requires DistinctIds(exercises)
    ensures var r := Renumbered(rows, exercises);
      && |r| == |rows|
      && (forall k :: 0 <= k < |rows| ==> r[k].id == rows[k].id)
      && (forall k, i :: 0 <= k < |rows| && 0 <= i < |exercises| && rows[k].id == exercises[i].id
            ==> r[k] == exercises[i].(order := i))
      && (forall k :: 0 <= k < |rows| && (forall i :: 0 <= i < |exercises| ==> exercises[i].id != rows[k].id)
            ==> r[k] == rows[k])
    decreases |exercises|
  {
    if exercises != [] {
      var last := |exercises| - 1;
      var init := exercises[..last];
      RenumberedSpec(rows, init);
      var r := Renumbered(rows, exercises);
      forall k, i | 0 <= k < |rows| && 0 <= i < |exercises| && rows[k].id == exercises[i].id
        ensures r[k] == exercises[i].(order := i)
      {
        if i < last {
          assert init[i] == exercises[i];
          assert exercises[i].id != exercises[last].id;
        }
      }
      forall k | 0 <= k < |rows| && (forall i :: 0 <= i < |exercises| ==> exercises[i].id != rows[k].id)
        ensures r[k] == rows[k]
      {
        assert forall i :: 0 <= i < |init| ==> init[i] == exercises[i];
      }
    }
  }

  /** The renumbered rows of the list's exercises carry the orders 0, 1, ..., k-1. */
  lemma RenumberedOrders(rows: seq<PlanExercise>, exercises: seq<PlanExercise>)
    requires DistinctIds(exercises)
    ensures var r := Renumbered(rows, exercises);
      |r| == |rows| && forall k, i :: 0 <= k < |rows| && 0 <= i < |exercises| && rows[k].id == exercises[i].id ==> r[k].order == i
  {
    RenumberedSpec(rows, exercises);
  }

  // ---- adding an exercise ----

  /** `maxOfOrNull { it.order }`. */
  function MaxOrder(pes: seq<PlanExercise>): (r: Option<int>)
    ensures r.None? <==> pes == []
    ensures r.Some? ==> (forall pe :: pe in pes ==> pe.order <= r.value) && exists pe :: pe in pes && pe.order == r.value
  {
    if pes == [] then None
    else
      var rest := MaxOrder(pes[1..]);
      assert pes == [pes[0]] + pes[1..];
      if rest.None? || rest.value <= pes[0].order then Some(pes[0].order) else rest
  }

  /** `(maxOfOrNull { it.order } ?: -1) + 1`. */
  function NextOrder(pes: seq<PlanExercise>): int
  {
    MaxOrder(pes).GetOr(-1) + 1
  }

  /**
   * The new order is 0 for a category without exercises, and otherwise one more than the
   * largest order there: strictly above all of them.
   */
  lemma NextOrderSpec(pes: seq<PlanExercise>)
    ensures pes == [] ==> NextOrder(pes) == 0
    ensures forall pe :: pe in pes ==> pe.order < NextOrder(pes)
    ensures pes != [] ==> exists pe :: pe in pes && pe.order + 1 == NextOrder(pes)
  {
    if pes != [] {
      var m := MaxOrder(pes).value;
      var pe :| pe in pes && pe.order == m;
      assert pe.order + 1 == NextOrder(pes);
    }
  }

  /** The `mapNotNull` keeping the day's plan exercises whose template has the category. */
  function InTemplateCategory(templates: map<int, ExerciseTemplate>, category: string): PlanExercise -> bool
  {
    (pe: PlanExercise) => pe.exerciseTemplateId in templates && templates[pe.exerciseTemplateId].category == category
  }

  function SameCategory(pes: seq<PlanExercise>, templates: map<int, ExerciseTemplate>, category: string)
    : seq<PlanExercise>
  {
    Filter(pes, InTemplateCategory(templates, category))
  }

  /**
   * The row `addExerciseToPlan` inserts, given the day's plan exercises: id 0 (so the
   * table assigns one), the order after the category's largest, the template's defaults.
   */
  function NewPlanExercise(planId: int, dayOfWeek: int, template: ExerciseTemplate,
                           existing: seq<PlanExercise>, templates: map<int, ExerciseTemplate>): PlanExercise
  {
    var sameCategory := SameCategory(existing, templates, template.category);
    var maxOrder := MaxOrder(sameCategory).GetOr(-1);
    PlanExercise(0, planId, template.id, dayOfWeek, maxOrder + 1,
                 template.defaultSets, template.defaultReps, template.defaultDuration)
  }

  /**
   * The new row belongs to the plan and day, copies the template's defaults, and comes
   * after every exercise of the template's category that day (order 0 if there is none).
   */
  lemma NewPlanExerciseSpec(planId: int, dayOfWeek: int, template: ExerciseTemplate,
                            existing: seq<PlanExercise>, templates: map<int, ExerciseTemplate>)
    ensures var pe := NewPlanExercise(planId, dayOfWeek, template, existing, templates);
      && pe.id == 0 && pe.planId == planId && pe.dayOfWeek == dayOfWeek && pe.exerciseTemplateId == template.id
      && pe.sets == template.defaultSets && pe.reps == template.defaultReps && pe.duration == template.defaultDuration
      && (forall e :: e in SameCategory(existing, templates, template.category) <==>
            e in existing && e.exerciseTemplateId in templates && templates[e.exerciseTemplateId].category == template.category)
      && (forall e :: e in SameCategory(existing, templates, template.category) ==> e.order < pe.order)
      && (SameCategory(existing, templates, template.category) == [] ==> pe.order == 0)
  {
    var sameCategory := SameCategory(existing, templates, template.category);
    NextOrderSpec(sameCategory);
    if sameCategory != [] {
      assert sameCategory[0] in existing;
    }
  }

  // ---- the screen ----

  /**
   * The activity's state: the plan, the selected day, the list shown, and the two tables
   * it reads (`templates` stands for `ExerciseTemplateDao.getTemplateById`).
   */
  class PlanBuilderScreen {
    const planId: int
    const table: PlanExerciseStore
    const templates: map<int, ExerciseTemplate>
    var currentDay: int
    var currentExercises: seq<PlanBuilderItem>

    ghost predicate Valid()
      reads this, table
    {
      table.Valid()
    }

    /** The list shown keeps each category's exercises under its one header. */
    ghost predicate Grouped()
      reads this
    {
      WellGrouped(Shapes(currentExercises)) && DistinctHeaders(Shapes(currentExercises))
    }

    /** What `loadExercisesForDay(day)` shows for the table as it is. */
    ghost function Loaded(day: int): seq<PlanBuilderItem>
      reads this, table
    {
      LoadedItems(WithTemplates(ForPlanAndDay(table.rows, planId, day), templates))
    }

    /** `onCreate`: Monday's exercises are loaded. */
    constructor (planId: int, table: PlanExerciseStore, templates: map<int, ExerciseTemplate>)
      requires table.Valid()
      ensures this.planId == planId && this.table == table && this.templates == templates
      ensures currentDay == MONDAY && currentExercises == Loaded(MONDAY)
      ensures Valid() && Grouped()
    {
      this.planId := planId;
      this.table := table;
      this.templates := templates;
      currentDay := MONDAY;
      new;
      LoadExercisesForDay(MONDAY);
    }

    /** `loadExercisesForDay(dayOfWeek)`. */
    method LoadExercisesForDay(dayOfWeek: int)
      requires Valid()
      modifies this
      ensures currentExercises == Loaded(dayOfWeek) && currentDay == old(currentDay)
      ensures Valid() && Grouped()
    {
      var planExercises := ForPlanAndDay(table.rows, planId, dayOfWeek);
      var exercisesWithTemplates := WithTemplates(planExercises, templates);
      var items := GroupByCategory(exercisesWithTemplates);
      currentExercises := items;
      LoadedGrouped(exercisesWithTemplates);
    }

    /** A chip change: the day is set from the checked chip and its exercises loaded. */
    method SelectDay(checked: Option<DayChip>)
      requires Valid()
      modifies this
      ensures currentDay == DayForChip(checked) && currentExercises == Loaded(currentDay)
      ensures Valid() && Grouped()
    {
      currentDay := DayForChip(checked);
      LoadExercisesForDay(currentDay);
    }

    /**
     * `moveExercise(from, to)`: the list is moved in place, then every exercise row is
     * written back with `order` equal to its index among the exercise rows.
     */
    method MoveExercise(fromPosition: int, toPosition: int)
      requires Valid()
      requires 0 <= fromPosition < |currentExercises| && 0 <= toPosition < |currentExercises|
      modifies this, table
      ensures currentExercises == Moved(old(currentExercises), fromPosition, toPosition)
      ensures table.rows == Renumbered(old(table.rows), ExercisesOf(currentExercises))
      ensures table.nextId == old(table.nextId) && currentDay == old(currentDay)
      ensures Valid()
    {
      var item := currentExercises[fromPosition];
      currentExercises := RemoveAt(currentExercises, fromPosition);
      currentExercises := InsertAt(currentExercises, toPosition, item);
      var exercises := ExercisesOf(currentExercises);
      for index := 0 to |exercises|
        invariant currentExercises == Moved(old(currentExercises), fromPosition, toPosition)
        invariant currentDay == old(currentDay)
        invariant table.Valid() && table.nextId == old(table.nextId)
        invariant table.rows == Renumbered(old(table.rows), exercises[..index])
      {
        assert exercises[..index + 1][..index] == exercises[..index];
        table.Update(exercises[index].(order := index));
      }
      assert exercises[..|exercises|] == exercises;
    }

    /**
     * A drag from `fromPosition` onto `toPosition`: the adapter's `onItemMove` forwards it
     * to `moveExercise` only between exercises of one category, and the list stays grouped.
     */
    method OnItemMove(fromPosition: int, toPosition: int) returns (moved: bool)
      requires Valid() && Grouped()
      requires 0 <= fromPosition < |currentExercises| && 0 <= toPosition < |currentExercises|
      modifies this, table
      ensures moved == PlanExerciseAdapter.MoveForwarded(old(currentExercises), fromPosition, toPosition)
      ensures moved ==> currentExercises == Moved(old(currentExercises), fromPosition, toPosition)
                        && table.rows == Renumbered(old(table.rows), ExercisesOf(currentExercises))
      ensures !moved ==> currentExercises == old(currentExercises) && table.rows == old(table.rows)
      ensures Valid() && Grouped()
    {
      moved := PlanExerciseAdapter.MoveForwarded(currentExercises, fromPosition, toPosition);
      if moved {
        ForwardedMoveKeepsGrouping(currentExercises, fromPosition, toPosition);
        MoveExercise(fromPosition, toPosition);
      }
    }

    /**
     * `addExerciseToPlan(template)`: a new row for the day with the template's defaults
     * and the order after the category's largest, then the day is reloaded.
     */
    method AddExerciseToPlan(template: ExerciseTemplate)
      requires Valid()
      modifies this, table
      ensures var existing := ForPlanAndDay(old(table.rows), planId, currentDay);
        table.rows == old(table.rows) + [NewPlanExercise(planId, currentDay, template, existing, templates).(id := old(table.nextId))]
      ensures currentDay == old(currentDay) && currentExercises == Loaded(currentDay)
      ensures Valid() && Grouped()
    {
      var existingExercises := ForPlanAndDay(table.rows, planId, currentDay);
      var planExercise := NewPlanExercise(planId, currentDay, template, existingExercises, templates);
      var id := table.InsertNew(planExercise);
      LoadExercisesForDay(currentDay);
    }

    /** `deletePlanExercise(planExercise)`: the row is deleted and the day reloaded. */
    method DeletePlanExercise(planExercise: PlanExercise)
      requires Valid()
      modifies this, table
      ensures table.rows == DeleteRows(old(table.rows), planExercise)
      ensures currentDay == old(currentDay) && currentExercises == Loaded(currentDay)
      ensures Valid() && Grouped()
    {
      table.Delete(planExercise);
      LoadExercisesForDay(currentDay);
    }
  }

  /** The `for (category in categories)` loop of `loadExercisesForDay`. */
  method GroupByCategory(exercisesWithTemplates: seq<WithTemplate>) returns (items: seq<PlanBuilderItem>)
    ensures items == LoadedItems(exercisesWithTemplates)
  {
    items := [];
    var categories := CATEGORIES;
    for c := 0 to |categories|
      invariant items == SectionsFrom(categories[..c], exercisesWithTemplates)
    {
      SectionsFromStep(categories, c, exercisesWithTemplates);
      ghost var before := items;
      var category := categories[c];
      var categoryExercises := SortByKey(Filter(exercisesWithTemplates, PairInCategory(category)), PairOrder);
      LoopSection(before, category, exercisesWithTemplates);
      if categoryExercises != [] {
        items := items + [Header(category)];
        items := AddExerciseRows(items, categoryExercises);
      }
    }
    assert categories[..|categories|] == categories;
  }

  /** One pass of the grouping loop appends the category's block, or nothing when it is empty. */
  lemma LoopSection(before: seq<PlanBuilderItem>, category: string, ps: seq<WithTemplate>)
    ensures var rows := SortByKey(Filter(ps, PairInCategory(category)), PairOrder);
      && (rows == [] ==> before + CategorySection(category, ps) == before)
      && (rows != [] ==> before + [Header(category)] + ExerciseRows(rows) == before + CategorySection(category, ps))
  {
    var rows := SortByKey(Filter(ps, PairInCategory(category)), PairOrder);
    if rows == [] {
      assert before + [] == before;
    } else {
      assert before + [Header(category)] + ExerciseRows(rows) == before + ([Header(category)] + ExerciseRows(rows));
    }
  }

  /** The `forEach` that appends one `Exercise` item per pair. */
  method AddExerciseRows(items: seq<PlanBuilderItem>, ps: seq<WithTemplate>) returns (r: seq<PlanBuilderItem>)
    ensures r == items + ExerciseRows(ps)
  {
    r := items;
    for k := 0 to |ps|
      invariant r == items + ExerciseRows(ps[..k])
    {
      assert ExerciseRows(ps[..k + 1]) == ExerciseRows(ps[..k]) + [Exercise(ps[k].0, ps[k].1)];
      r := r + [Exercise(ps[k].0, ps[k].1)];
    }
    assert ps[..|ps|] == ps;
  }
}
