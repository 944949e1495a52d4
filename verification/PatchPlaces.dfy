/** Which patches are generated: none for equal trees, and one for each place where two trees differ, whatever
    their keys are. */
module PatchPlaces {
  import opened CText
  import opened Json
  import opened Options
  import opened MergeSort
  import opened Equality
  import opened Pointer
  import opened Patch
  import opened PatchRoundTrip

  // No patches

  lemma {:induction false} NoPatchesWhenEqual(path: string, from: Value, to: Value, cs: bool)
    ensures CreatePatches(path, from, to, cs) == [] <==> CompareJson(from, to, cs)
    decreases Height(from), 0
  {
    if SameType(from, to) {
      match from
      case Array(items) => NoItemPatches(path, items, to.items, 0, cs);
      case Object(ms) =>
        SortKeepsHeight(ms, cs);
        NoMemberPatches(path, Sort(ms, cs), Sort(to.members, cs), cs);
      case _ =>
    }
  }

  lemma {:induction false} NoItemPatches(path: string, from: seq<Value>, to: seq<Value>, index: nat, cs: bool)
    ensures PatchItems(path, from, to, index, cs) == [] <==> WalkItems(from, to, cs)
    decreases ItemsHeight(from), |from| + 1
  {
    if from != [] && to != [] {
      NoPatchesWhenEqual(path + "/" + IndexText(index), from[0], to[0], cs);
      NoItemPatches(path, from[1..], to[1..], index + 1, cs);
    }
  }

  lemma {:induction false} NoMemberPatches(
      path: string, from: seq<Entry<Value>>, to: seq<Entry<Value>>, cs: bool)
    ensures PatchMembers(path, from, to, cs) == [] <==> WalkMembers(from, to, cs)
    decreases MembersHeight(from), |from| + 1
  {
    if from != [] && to != [] && Compare(from[0].key, to[0].key, cs) == 0 {
      NoPatchesWhenEqual(path + "/" + EncodeToken(from[0].key), from[0].value, to[0].value, cs);
      NoMemberPatches(path, from[1..], to[1..], cs);
    }
  }

  /** No patch is generated exactly when the trees are equal as nested maps. */
  lemma {:induction false} EqualTreesNeedNoPatch(from: Value, to: Value, cs: bool)
    requires Distinct(from, cs) && Distinct(to, cs)
    ensures GeneratePatches(from, to, cs) == [] <==> Canonical(from, cs) == Canonical(to, cs)
  {
    NoPatchesWhenEqual([], from, to, cs);
    CompareJsonIsCanonEquality(from, to, cs);
  }

  // Every patch has its place

  /** Two items that differ, and not only in what is below them. */
  predicate DifferHere(x: Canon, y: Canon) {
    x != y && !(x.CArray? && y.CArray?) && !(x.CObject? && y.CObject?)
  }

  /** The item at a path is there in one tree and not in the other, and both have what it would be in. */
  predicate OnlyIn(c: Canon, d: Canon, steps: seq<Step>, cs: bool) {
    && steps != [] && CGet(c, steps, cs).Some? && CGet(d, steps, cs).None?
    && CGet(d, steps[..|steps| - 1], cs).Some?
  }

  predicate Carries(patch: Value, operation: string, path: string, x: Canon, cs: bool) {
    && patch.Object? && |patch.members| == 3
    && patch == ComposePatch(operation, path, None, Some(patch.members[2].value))
    && Canonical(patch.members[2].value, cs) == x
  }

  /** What a patch is for. */
  predicate PlacedAt(c: Canon, d: Canon, patch: Value, steps: seq<Step>, cs: bool) {
    var x, y := CGet(c, steps, cs), CGet(d, steps, cs);
    || (&& x.Some? && y.Some? && DifferHere(x.value, y.value)
        && Carries(patch, "replace", PathText(steps), y.value, cs))
    || (OnlyIn(c, d, steps, cs) && patch == ComposePatch("remove", PathText(steps), None, None))
    || (OnlyIn(d, c, steps, cs) && Carries(patch, "add", PathText(steps), y.value, cs))
    || (&& x.Some? && y.Some? && x.value.CArray? && y.value.CArray?
        && exists i :: |x.value.items| <= i < |y.value.items|
             && Carries(patch, "add", PathText(steps) + "/-", y.value.items[i], cs))
  }

  /** A place where the two trees differ, and a patch that makes up for it there. */
  ghost predicate Placed(c: Canon, d: Canon, patch: Value, cs: bool) {
    exists steps: seq<Step> :: PlacedAt(c, d, patch, steps, cs)
  }

  ghost predicate AllPlaced(c: Canon, d: Canon, patches: seq<Value>, cs: bool) {
    forall i :: 0 <= i < |patches| ==> Placed(c, d, patches[i], cs)
  }

  /** The two trees hold these two items at the path. */
  predicate Reaches(c: Canon, d: Canon, steps: seq<Step>, from: Value, to: Value, cs: bool) {
    CGet(c, steps, cs) == Some(Canonical(from, cs)) && CGet(d, steps, cs) == Some(Canonical(to, cs))
  }

  lemma {:induction false} OnePlaced(c: Canon, d: Canon, patch: Value, steps: seq<Step>, cs: bool)
    requires PlacedAt(c, d, patch, steps, cs)
    ensures AllPlaced(c, d, [patch], cs)
  {
  }

  lemma {:induction false} BothPlaced(c: Canon, d: Canon, p: seq<Value>, q: seq<Value>, cs: bool)
    requires AllPlaced(c, d, p, cs) && AllPlaced(c, d, q, cs)
    ensures AllPlaced(c, d, p + q, cs)
  {
  }

  lemma {:induction false} ReplaceIsPlaced(c: Canon, d: Canon, steps: seq<Step>, from: Value, to: Value, cs: bool)
    requires Reaches(c, d, steps, from, to, cs) && Replaced(from, to)
    ensures AllPlaced(c, d, [ComposePatch("replace", PathText(steps), None, Some(to))], cs)
  {
    var patch := ComposePatch("replace", PathText(steps), None, Some(to));
    assert Carries(patch, "replace", PathText(steps), Canonical(to, cs), cs);
    OnePlaced(c, d, patch, steps, cs);
  }

  lemma {:induction false} PatchesArePlaced(c: Canon, d: Canon, steps: seq<Step>, from: Value, to: Value, cs: bool)
    requires Distinct(from, cs) && Distinct(to, cs) && Reaches(c, d, steps, from, to, cs)
    ensures AllPlaced(c, d, CreatePatches(PathText(steps), from, to, cs), cs)
    decreases Height(from), 0
  {
    if Replaced(from, to) {
      ReplaceIsPlaced(c, d, steps, from, to, cs);
    } else if from.Array? {
      ItemPatchesArePlaced(c, d, steps, from.items, to.items, 0, cs);
    } else if from.Object? {
      var ms, ns := from.members, to.members;
      SortKeepsHeight(ms, cs);
      StartOfWalk(ms, ns, cs);
      MemberPatchesArePlaced(c, d, steps, {}, {}, Sort(ms, cs), Sort(ns, cs), cs);
    }
  }

  // Arrays

  /** The rest of both arrays from an index on. */
  ghost predicate ItemsLeft(
      c: Canon, d: Canon, steps: seq<Step>, from: seq<Value>, to: seq<Value>, index: nat, cs: bool) {
    && AllDistinct(from, cs) && AllDistinct(to, cs)
    && var x, y := CGet(c, steps, cs), CGet(d, steps, cs);
       && x.Some? && x.value.CArray? && y.Some? && y.value.CArray?
       && index + |from| == |x.value.items| && index + |to| == |y.value.items|
       && x.value.items[index..] == CanonItems(from, cs) && y.value.items[index..] == CanonItems(to, cs)
  }

  lemma {:induction false} ItemPatchesArePlaced(
      c: Canon, d: Canon, steps: seq<Step>, from: seq<Value>, to: seq<Value>, index: nat, cs: bool)
    requires ItemsLeft(c, d, steps, from, to, index, cs)
    ensures AllPlaced(c, d, PatchItems(PathText(steps), from, to, index, cs), cs)
    decreases ItemsHeight(from), |from| + 1
  {
    if from != [] && to != [] {
      NextItems(c, d, steps, from, to, index, cs);
      PathTextSnoc(steps, Index(index));
      PatchesArePlaced(c, d, steps + [Index(index)], from[0], to[0], cs);
      ItemPatchesArePlaced(c, d, steps, from[1..], to[1..], index + 1, cs);
      BothPlaced(c, d, CreatePatches(PathText(steps) + "/" + IndexText(index), from[0], to[0], cs),
                 PatchItems(PathText(steps), from[1..], to[1..], index + 1, cs), cs);
    } else if from != [] {
      LeftoversArePlaced(c, d, steps, from, index, cs);
    } else if to != [] {
      AdditionsArePlaced(c, d, steps, to, index, cs);
    }
  }

  lemma {:induction false} GetBelow(c: Canon, steps: seq<Step>, s: Step, cs: bool)
    requires CGet(c, steps, cs).Some?
    ensures CGet(c, steps + [s], cs) == CGet(CGet(c, steps, cs).value, [s], cs)
  {
    GetAppended(c, steps, [s], cs);
  }

  lemma {:induction false} GetAppended(c: Canon, steps: seq<Step>, more: seq<Step>, cs: bool)
    requires CGet(c, steps, cs).Some?
    ensures CGet(c, steps + more, cs) == CGet(CGet(c, steps, cs).value, more, cs)
    decreases |steps|
  {
    if steps == [] {
      assert steps + more == more;
    } else {
      assert (steps + more)[1..] == steps[1..] + more;
      match (c, steps[0])
      case (CArray(items), Index(i)) => GetAppended(items[i], steps[1..], more, cs);
      case (CObject(m), Key(name)) => GetAppended(m[Fold(name, cs)], steps[1..], more, cs);
    }
  }

  lemma {:induction false} GetIndex(c: Canon, steps: seq<Step>, i: nat, cs: bool)
    requires CGet(c, steps, cs).Some? && CGet(c, steps, cs).value.CArray?
    ensures var xs := CGet(c, steps, cs).value.items;
      CGet(c, steps + [Index(i)], cs) == if i < |xs| then Some(xs[i]) else None
  {
    GetBelow(c, steps, Index(i), cs);
    assert [Index(i)][1..] == [];
  }

  lemma {:induction false} GetKey(c: Canon, steps: seq<Step>, name: string, cs: bool)
    requires CGet(c, steps, cs).Some? && CGet(c, steps, cs).value.CObject?
    ensures var m := CGet(c, steps, cs).value.members;
      CGet(c, steps + [Key(name)], cs) == if Fold(name, cs) in m then Some(m[Fold(name, cs)]) else None
  {
    GetBelow(c, steps, Key(name), cs);
    assert [Key(name)][1..] == [];
  }

  lemma {:induction false} NextItems(
      c: Canon, d: Canon, steps: seq<Step>, from: seq<Value>, to: seq<Value>, index: nat, cs: bool)
    requires ItemsLeft(c, d, steps, from, to, index, cs) && from != [] && to != []
    ensures Reaches(c, d, steps + [Index(index)], from[0], to[0], cs)
    ensures ItemsLeft(c, d, steps, from[1..], to[1..], index + 1, cs)
  {
    GetIndex(c, steps, index, cs);
    GetIndex(d, steps, index, cs);
    CanonItemsCons(from, cs);
    CanonItemsCons(to, cs);
    var xs, ys := CGet(c, steps, cs).value.items, CGet(d, steps, cs).value.items;
    assert xs[index..][1..] == xs[index + 1..] && ys[index..][1..] == ys[index + 1..];
    assert xs[index..][0] == xs[index] && ys[index..][0] == ys[index];
  }

  lemma {:induction false} LeftoversArePlaced(
      c: Canon, d: Canon, steps: seq<Step>, from: seq<Value>, index: nat, cs: bool)
    requires CGet(c, steps, cs).Some? && CGet(c, steps, cs).value.CArray?
    requires CGet(d, steps, cs).Some? && CGet(d, steps, cs).value.CArray?
    requires |CGet(d, steps, cs).value.items| == index < |CGet(c, steps, cs).value.items|
    ensures AllPlaced(c, d, PatchItems(PathText(steps), from, [], index, cs), cs)
    decreases |from|
  {
    if from != [] {
      var place := steps + [Index(index)];
      var patch := ComposePatch("remove", PathText(steps), Some(IndexText(index)), None);
      GetIndex(c, steps, index, cs);
      GetIndex(d, steps, index, cs);
      assert place[..|place| - 1] == steps;
      PathTextSnoc(steps, Index(index));
      IndexTextSurvives(index);
      assert patch == ComposePatch("remove", PathText(place), None, None);
      OnePlaced(c, d, patch, place, cs);
      LeftoversArePlaced(c, d, steps, from[1..], index, cs);
      BothPlaced(c, d, [patch], PatchItems(PathText(steps), from[1..], [], index, cs), cs);
    }
  }

  lemma {:induction false} AdditionsArePlaced(
      c: Canon, d: Canon, steps: seq<Step>, to: seq<Value>, index: nat, cs: bool)
    requires CGet(c, steps, cs).Some? && CGet(c, steps, cs).value.CArray?
    requires CGet(d, steps, cs).Some? && CGet(d, steps, cs).value.CArray?
    requires |CGet(c, steps, cs).value.items| <= index
    requires index + |to| == |CGet(d, steps, cs).value.items|
    requires CGet(d, steps, cs).value.items[index..] == CanonItems(to, cs)
    ensures AllPlaced(c, d, PatchItems(PathText(steps), [], to, index, cs), cs)
    decreases |to|
  {
    if to != [] {
      var ys := CGet(d, steps, cs).value.items;
      var patch := ComposePatch("add", PathText(steps), Some("-"), Some(to[0]));
      CanonItemsCons(to, cs);
      assert ys[index] == ys[index..][0] && ys[index..][1..] == ys[index + 1..];
      PlainEncoding("-");
      assert PathText(steps) + "/" + "-" == PathText(steps) + "/-";
      assert Carries(patch, "add", PathText(steps) + "/-", ys[index], cs);
      OnePlaced(c, d, patch, steps, cs);
      AdditionsArePlaced(c, d, steps, to[1..], index + 1, cs);
      BothPlaced(c, d, [patch], PatchItems(PathText(steps), [], to[1..], index + 1, cs), cs);
    }
  }

  // Objects

  /** Part of the map of an object: the members that the walk has passed and those still to come. */
  ghost predicate MembersLeft(m: map<string, Canon>, passed: set<string>, ms: seq<Entry<Value>>, cs: bool) {
    && StrictlySorted(ms, cs) && AllValuesDistinct(ms, cs)
    && m.Keys == passed + KeySet(ms, cs) && SubMap(CanonMembers(ms, cs), m)
  }

  ghost predicate BothLeft(
      m: map<string, Canon>, n: map<string, Canon>, gone: set<string>, come: set<string>,
      from: seq<Entry<Value>>, to: seq<Entry<Value>>, cs: bool) {
    && MembersLeft(m, gone, from, cs) && MembersLeft(n, come, to, cs)
    && gone !! KeySet(to, cs) && come !! KeySet(from, cs)
  }

  lemma {:induction false} StartOfWalk(ms: seq<Entry<Value>>, ns: seq<Entry<Value>>, cs: bool)
    requires Distinct(Object(ms), cs) && Distinct(Object(ns), cs)
    ensures BothLeft(CanonMembers(ms, cs), CanonMembers(ns, cs), {}, {}, Sort(ms, cs), Sort(ns, cs), cs)
  {
    SortIsStrict(ms, cs);
    SortIsStrict(ns, cs);
    SortKeepsCanon(ms, cs);
    SortKeepsCanon(ns, cs);
    CanonKeys(Sort(ms, cs), cs);
    CanonKeys(Sort(ns, cs), cs);
    SortKeepsValuesDistinct(ms, cs, cs);
    SortKeepsValuesDistinct(ns, cs, cs);
  }

  /** The first member that is left, and the others. */
  lemma {:induction false} FirstLeftOver(m: map<string, Canon>, passed: set<string>, ms: seq<Entry<Value>>, cs: bool)
    requires MembersLeft(m, passed, ms, cs) && ms != []
    ensures var k := Fold(ms[0].key, cs);
      && k in m && m[k] == Canonical(ms[0].value, cs) && Distinct(ms[0].value, cs)
      && k !in KeySet(ms[1..], cs) && KeySet(ms, cs) == {k} + KeySet(ms[1..], cs)
      && MembersLeft(m, passed + {k}, ms[1..], cs)
  {
    var k, rest := Fold(ms[0].key, cs), CanonMembers(ms[1..], cs);
    StrictIsDistinct(ms, cs);
    StrictTail(ms, cs);
    CanonKeys(ms[1..], cs);
    assert k in CanonMembers(ms, cs);
    forall l | l in rest ensures l in m && m[l] == rest[l] {
      assert l in CanonMembers(ms, cs);
    }
  }

  lemma {:induction false} MemberPatchesArePlaced(
      c: Canon, d: Canon, steps: seq<Step>, gone: set<string>, come: set<string>,
      from: seq<Entry<Value>>, to: seq<Entry<Value>>, cs: bool)
    requires CGet(c, steps, cs).Some? && CGet(c, steps, cs).value.CObject?
    requires CGet(d, steps, cs).Some? && CGet(d, steps, cs).value.CObject?
    requires BothLeft(CGet(c, steps, cs).value.members, CGet(d, steps, cs).value.members, gone, come, from, to, cs)
    ensures AllPlaced(c, d, PatchMembers(PathText(steps), from, to, cs), cs)
    decreases MembersHeight(from), 2 * (|from| + |to|) + 1
  {
    if from != [] || to != [] {
      var diff := if from == [] then 1 else if to == [] then -1 else Compare(from[0].key, to[0].key, cs);
      if diff == 0 {
        CommonIsPlaced(c, d, steps, gone, come, from, to, cs);
      } else if diff < 0 {
        RemovedIsPlaced(c, d, steps, gone, come, from, to, cs);
      } else {
        AddedIsPlaced(c, d, steps, gone, come, from, to, cs);
      }
    }
  }

  lemma {:induction false} CommonIsPlaced(
      c: Canon, d: Canon, steps: seq<Step>, gone: set<string>, come: set<string>,
      from: seq<Entry<Value>>, to: seq<Entry<Value>>, cs: bool)
    requires CGet(c, steps, cs).Some? && CGet(c, steps, cs).value.CObject?
    requires CGet(d, steps, cs).Some? && CGet(d, steps, cs).value.CObject?
    requires BothLeft(CGet(c, steps, cs).value.members, CGet(d, steps, cs).value.members, gone, come, from, to, cs)
    requires from != [] && to != [] && Compare(from[0].key, to[0].key, cs) == 0
    ensures AllPlaced(c, d, PatchMembers(PathText(steps), from, to, cs), cs)
    decreases MembersHeight(from), 2 * (|from| + |to|)
  {
    var m, n := CGet(c, steps, cs).value.members, CGet(d, steps, cs).value.members;
    var key := from[0].key;
    var k := Fold(key, cs);
    CompareIsTotalOrder(key, to[0].key, key, cs);
    FirstLeftOver(m, gone, from, cs);
    FirstLeftOver(n, come, to, cs);
    GetKey(c, steps, key, cs);
    GetKey(d, steps, key, cs);
    PathTextSnoc(steps, Key(key));
    PatchesArePlaced(c, d, steps + [Key(key)], from[0].value, to[0].value, cs);
    MemberPatchesArePlaced(c, d, steps, gone + {k}, come + {k}, from[1..], to[1..], cs);
    BothPlaced(c, d, CreatePatches(PathText(steps) + "/" + EncodeToken(key), from[0].value, to[0].value, cs),
               PatchMembers(PathText(steps), from[1..], to[1..], cs), cs);
  }

  lemma {:induction false} RemovedIsPlaced(
      c: Canon, d: Canon, steps: seq<Step>, gone: set<string>, come: set<string>,
      from: seq<Entry<Value>>, to: seq<Entry<Value>>, cs: bool)
    requires CGet(c, steps, cs).Some? && CGet(c, steps, cs).value.CObject?
    requires CGet(d, steps, cs).Some? && CGet(d, steps, cs).value.CObject?
    requires BothLeft(CGet(c, steps, cs).value.members, CGet(d, steps, cs).value.members, gone, come, from, to, cs)
    requires from != [] && (to != [] ==> Compare(from[0].key, to[0].key, cs) < 0)
    ensures AllPlaced(c, d, PatchMembers(PathText(steps), from, to, cs), cs)
    decreases MembersHeight(from), 2 * (|from| + |to|)
  {
    var m, n := CGet(c, steps, cs).value.members, CGet(d, steps, cs).value.members;
    var key := from[0].key;
    var place, patch := steps + [Key(key)], ComposePatch("remove", PathText(steps), Some(key), None);
    FirstLeftOver(m, gone, from, cs);
    BelowHeadIsAbsent(key, to, cs);
    GetKey(c, steps, key, cs);
    GetKey(d, steps, key, cs);
    PathTextSnoc(steps, Key(key));
    assert place[..|place| - 1] == steps;
    assert patch == ComposePatch("remove", PathText(place), None, None);
    OnePlaced(c, d, patch, place, cs);
    MemberPatchesArePlaced(c, d, steps, gone + {Fold(key, cs)}, come, from[1..], to, cs);
    BothPlaced(c, d, [patch], PatchMembers(PathText(steps), from[1..], to, cs), cs);
  }

  lemma {:induction false} AddedIsPlaced(
      c: Canon, d: Canon, steps: seq<Step>, gone: set<string>, come: set<string>,
      from: seq<Entry<Value>>, to: seq<Entry<Value>>, cs: bool)
    requires CGet(c, steps, cs).Some? && CGet(c, steps, cs).value.CObject?
    requires CGet(d, steps, cs).Some? && CGet(d, steps, cs).value.CObject?
    requires BothLeft(CGet(c, steps, cs).value.members, CGet(d, steps, cs).value.members, gone, come, from, to, cs)
    requires to != [] && (from != [] ==> Compare(from[0].key, to[0].key, cs) > 0)
    ensures AllPlaced(c, d, PatchMembers(PathText(steps), from, to, cs), cs)
    decreases MembersHeight(from), 2 * (|from| + |to|)
  {
    var m, n := CGet(c, steps, cs).value.members, CGet(d, steps, cs).value.members;
    var key := to[0].key;
    var place := steps + [Key(key)];
    var patch := ComposePatch("add", PathText(steps), Some(key), Some(to[0].value));
    FirstLeftOver(n, come, to, cs);
    if from != [] { CompareIsTotalOrder(from[0].key, key, key, cs); }
    BelowHeadIsAbsent(key, from, cs);
    GetKey(c, steps, key, cs);
    GetKey(d, steps, key, cs);
    PathTextSnoc(steps, Key(key));
    assert place[..|place| - 1] == steps;
    assert Carries(patch, "add", PathText(place), Canonical(to[0].value, cs), cs);
    OnePlaced(c, d, patch, place, cs);
    MemberPatchesArePlaced(c, d, steps, gone, come + {Fold(key, cs)}, from, to[1..], cs);
    BothPlaced(c, d, [patch], PatchMembers(PathText(steps), from, to[1..], cs), cs);
  }

  /** Every generated patch leads to a place where the two maps differ, and says what makes up for it: it replaces
      an item by one of another kind or value, takes out one that the second tree has not, or adds one that only
      the second tree has. */
  lemma {:induction false} EveryPatchHasItsPlace(from: Value, to: Value, patch: Value, cs: bool)
    requires Distinct(from, cs) && Distinct(to, cs) && patch in GeneratePatches(from, to, cs)
    ensures Placed(Canonical(from, cs), Canonical(to, cs), patch, cs)
  {
    PatchesArePlaced(Canonical(from, cs), Canonical(to, cs), [], from, to, cs);
  }

  // One patch for each place

  /** The number of places where two trees differ. */
  ghost function Differences(c: Canon, d: Canon): nat
    decreases c, 2
  {
    match (c, d)
    case (CArray(xs), CArray(ys)) => ItemDifferences(c, d, 0)
    case (CObject(m), CObject(n)) => KeyDifferences(c, d, m.Keys + n.Keys)
    case _ => if c == d then 0 else 1
  }

  ghost function ItemDifferences(c: Canon, d: Canon, i: nat): nat
    requires c.CArray? && d.CArray? && i <= |c.items| && i <= |d.items|
    decreases c, 1, |c.items| - i
  {
    if i == |c.items| then |d.items| - i
    else if i == |d.items| then |c.items| - i
    else Differences(c.items[i], d.items[i]) + ItemDifferences(c, d, i + 1)
  }

  ghost function KeyDifferences(c: Canon, d: Canon, keys: set<string>): nat
    requires c.CObject? && d.CObject?
    decreases c, 1, |keys|
  {
    if keys == {} then 0
    else
      var k :| k in keys;
      KeyDifference(c, d, k) + KeyDifferences(c, d, keys - {k})
  }

  ghost function KeyDifference(c: Canon, d: Canon, k: string): nat
    requires c.CObject? && d.CObject?
    decreases c, 0
  {
    if k in c.members && k in d.members then Differences(c.members[k], d.members[k])
    else if k in c.members || k in d.members then 1
    else 0
  }

  lemma {:induction false} AnyKeyFirst(c: Canon, d: Canon, keys: set<string>, k: string)
    requires c.CObject? && d.CObject? && k in keys
    ensures KeyDifferences(c, d, keys) == KeyDifference(c, d, k) + KeyDifferences(c, d, keys - {k})
    decreases |keys|
  {
    var l :| l in keys && KeyDifferences(c, d, keys) == KeyDifference(c, d, l) + KeyDifferences(c, d, keys - {l});
    if l != k {
      AnyKeyFirst(c, d, keys - {l}, k);
      AnyKeyFirst(c, d, keys - {k}, l);
      assert keys - {l} - {k} == keys - {k} - {l};
    }
  }

  lemma {:induction false} PatchesAreCounted(path: string, from: Value, to: Value, cs: bool)
    requires Distinct(from, cs) && Distinct(to, cs)
    ensures |CreatePatches(path, from, to, cs)| == Differences(Canonical(from, cs), Canonical(to, cs))
    decreases Height(from), 0
  {
    if from.Array? && to.Array? {
      ArrayPatchesAreCounted(path, from.items, to.items, cs);
    } else if from.Object? && to.Object? {
      var ms, ns := from.members, to.members;
      SortKeepsHeight(ms, cs);
      StartOfWalk(ms, ns, cs);
      ObjectPatchesAreCounted(path, Canonical(from, cs), Canonical(to, cs), Sort(ms, cs), Sort(ns, cs), cs);
      ObjectsAreWalked(path, ms, ns, cs);
    } else {
      ScalarPatchIsCounted(path, from, to, cs);
    }
  }

  lemma {:induction false} ArrayPatchesAreCounted(path: string, from: seq<Value>, to: seq<Value>, cs: bool)
    requires AllDistinct(from, cs) && AllDistinct(to, cs)
    ensures |CreatePatches(path, Array(from), Array(to), cs)|
         == Differences(CArray(CanonItems(from, cs)), CArray(CanonItems(to, cs)))
    decreases ItemsHeight(from), |from| + 2
  {
    var c, d := CArray(CanonItems(from, cs)), CArray(CanonItems(to, cs));
    assert c.items[0..] == c.items && d.items[0..] == d.items;
    ItemPatchesAreCounted(path, c, d, from, to, 0, cs);
  }

  lemma {:induction false} ObjectsAreWalked(path: string, from: seq<Entry<Value>>, to: seq<Entry<Value>>, cs: bool)
    ensures CreatePatches(path, Object(from), Object(to), cs)
         == PatchMembers(path, Sort(from, cs), Sort(to, cs), cs)
  {
  }

  lemma {:induction false} ObjectPatchesAreCounted(
      path: string, c: Canon, d: Canon, from: seq<Entry<Value>>, to: seq<Entry<Value>>, cs: bool)
    requires c.CObject? && d.CObject? && BothLeft(c.members, d.members, {}, {}, from, to, cs)
    ensures |PatchMembers(path, from, to, cs)| == Differences(c, d)
    decreases MembersHeight(from), 2 * (|from| + |to|) + 2
  {
    MemberPatchesAreCounted(path, c, d, {}, {}, from, to, cs);
    assert KeySet(from, cs) + KeySet(to, cs) == c.members.Keys + d.members.Keys;
  }

  lemma {:induction false} ScalarPatchIsCounted(path: string, from: Value, to: Value, cs: bool)
    requires !(from.Array? && to.Array?) && !(from.Object? && to.Object?)
    ensures |CreatePatches(path, from, to, cs)| == Differences(Canonical(from, cs), Canonical(to, cs))
  {
    assert Replaced(from, to) <==> Canonical(from, cs) != Canonical(to, cs);
  }

  lemma {:induction false} ItemPatchesAreCounted(
      path: string, c: Canon, d: Canon, from: seq<Value>, to: seq<Value>, index: nat, cs: bool)
    requires c.CArray? && d.CArray? && ItemsLeft(c, d, [], from, to, index, cs)
    ensures |PatchItems(path, from, to, index, cs)| == ItemDifferences(c, d, index)
    decreases ItemsHeight(from), |from| + 1
  {
    if from != [] && to != [] {
      NextItems(c, d, [], from, to, index, cs);
      GetIndex(c, [], index, cs);
      GetIndex(d, [], index, cs);
      PatchesAreCounted(path + "/" + IndexText(index), from[0], to[0], cs);
      ItemPatchesAreCounted(path, c, d, from[1..], to[1..], index + 1, cs);
    } else {
      RestIsCounted(path, from, to, index, cs);
    }
  }

  lemma {:induction false} RestIsCounted(path: string, from: seq<Value>, to: seq<Value>, index: nat, cs: bool)
    requires from == [] || to == []
    ensures |PatchItems(path, from, to, index, cs)| == |from| + |to|
    decreases |from| + |to|
  {
    if from != [] {
      RestIsCounted(path, from[1..], [], index, cs);
    } else if to != [] {
      RestIsCounted(path, [], to[1..], index + 1, cs);
    }
  }

  lemma {:induction false} MemberPatchesAreCounted(
      path: string, c: Canon, d: Canon, gone: set<string>, come: set<string>,
      from: seq<Entry<Value>>, to: seq<Entry<Value>>, cs: bool)
    requires c.CObject? && d.CObject? && BothLeft(c.members, d.members, gone, come, from, to, cs)
    ensures |PatchMembers(path, from, to, cs)| == KeyDifferences(c, d, KeySet(from, cs) + KeySet(to, cs))
    decreases MembersHeight(from), 2 * (|from| + |to|) + 1
  {
    if from != [] || to != [] {
      var diff := if from == [] then 1 else if to == [] then -1 else Compare(from[0].key, to[0].key, cs);
      if diff == 0 {
        CommonIsCounted(path, c, d, gone, come, from, to, cs);
      } else if diff < 0 {
        RemovedIsCounted(path, c, d, gone, come, from, to, cs);
      } else {
        AddedIsCounted(path, c, d, gone, come, from, to, cs);
      }
    } else {
      assert KeySet(from, cs) + KeySet(to, cs) == {};
    }
  }

  lemma {:induction false} CommonIsCounted(
      path: string, c: Canon, d: Canon, gone: set<string>, come: set<string>,
      from: seq<Entry<Value>>, to: seq<Entry<Value>>, cs: bool)
    requires c.CObject? && d.CObject? && BothLeft(c.members, d.members, gone, come, from, to, cs)
    requires from != [] && to != [] && Compare(from[0].key, to[0].key, cs) == 0
    ensures |PatchMembers(path, from, to, cs)| == KeyDifferences(c, d, KeySet(from, cs) + KeySet(to, cs))
    decreases MembersHeight(from), 2 * (|from| + |to|)
  {
    var key, keys := from[0].key, KeySet(from, cs) + KeySet(to, cs);
    var k := Fold(key, cs);
    CompareIsTotalOrder(key, to[0].key, key, cs);
    FirstLeftOver(c.members, gone, from, cs);
    FirstLeftOver(d.members, come, to, cs);
    PatchesAreCounted(path + "/" + EncodeToken(key), from[0].value, to[0].value, cs);
    MemberPatchesAreCounted(path, c, d, gone + {k}, come + {k}, from[1..], to[1..], cs);
    AnyKeyFirst(c, d, keys, k);
    assert keys - {k} == KeySet(from[1..], cs) + KeySet(to[1..], cs);
  }

  lemma {:induction false} RemovedIsCounted(
      path: string, c: Canon, d: Canon, gone: set<string>, come: set<string>,
      from: seq<Entry<Value>>, to: seq<Entry<Value>>, cs: bool)
    requires c.CObject? && d.CObject? && BothLeft(c.members, d.members, gone, come, from, to, cs)
    requires from != [] && (to != [] ==> Compare(from[0].key, to[0].key, cs) < 0)
    ensures |PatchMembers(path, from, to, cs)| == KeyDifferences(c, d, KeySet(from, cs) + KeySet(to, cs))
    decreases MembersHeight(from), 2 * (|from| + |to|)
  {
    var k, keys := Fold(from[0].key, cs), KeySet(from, cs) + KeySet(to, cs);
    FirstLeftOver(c.members, gone, from, cs);
    BelowHeadIsAbsent(from[0].key, to, cs);
    MemberPatchesAreCounted(path, c, d, gone + {k}, come, from[1..], to, cs);
    AnyKeyFirst(c, d, keys, k);
    assert keys - {k} == KeySet(from[1..], cs) + KeySet(to, cs);
  }

  lemma {:induction false} AddedIsCounted(
      path: string, c: Canon, d: Canon, gone: set<string>, come: set<string>,
      from: seq<Entry<Value>>, to: seq<Entry<Value>>, cs: bool)
    requires c.CObject? && d.CObject? && BothLeft(c.members, d.members, gone, come, from, to, cs)
    requires to != [] && (from != [] ==> Compare(from[0].key, to[0].key, cs) > 0)
    ensures |PatchMembers(path, from, to, cs)| == KeyDifferences(c, d, KeySet(from, cs) + KeySet(to, cs))
    decreases MembersHeight(from), 2 * (|from| + |to|)
  {
    var k, keys := Fold(to[0].key, cs), KeySet(from, cs) + KeySet(to, cs);
    FirstLeftOver(d.members, come, to, cs);
    if from != [] { CompareIsTotalOrder(from[0].key, to[0].key, to[0].key, cs); }
    BelowHeadIsAbsent(to[0].key, from, cs);
    MemberPatchesAreCounted(path, c, d, gone, come + {k}, from, to[1..], cs);
    AnyKeyFirst(c, d, keys, k);
    assert keys - {k} == KeySet(from, cs) + KeySet(to[1..], cs);
  }

  /** There are exactly as many patches as places where the two maps differ. */
  lemma {:induction false} OnePatchForEachPlace(from: Value, to: Value, cs: bool)
    requires Distinct(from, cs) && Distinct(to, cs)
    ensures |GeneratePatches(from, to, cs)| == Differences(Canonical(from, cs), Canonical(to, cs))
  {
    PatchesAreCounted([], from, to, cs);
  }
}
