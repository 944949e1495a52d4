/** JSON Merge Patch (RFC 7396): applying and generating. */
module MergePatch {
  import opened CText
  import opened Json
  import opened Options
  import opened MergeSort
  import opened Equality
  import opened Comparison
  import opened PatchRoundTrip
  import opened KeySets

  // merge_patch

  /** The target may be absent; the patch is present. */
  function Merge(target: Option<Value>, patch: Value, cs: bool): Value
    decreases patch
  {
    match patch
    case Object(changes) =>
      var ms := if target.Some? && target.value.Object? then target.value.members else [];
      Object(MergeMembers(ms, changes, cs))
    case _ => patch
  }

  /** The loop over the children of the patch, each applied to the members left by the ones before. */
  function MergeMembers(ms: seq<Entry<Value>>, changes: seq<Entry<Value>>, cs: bool): seq<Entry<Value>>
    decreases changes
  {
    if changes == [] then ms
    else
      var e := changes[0];
      var rest := DeleteKey(ms, e.key, cs);
      if e.value.Null? then MergeMembers(rest, changes[1..], cs)
      else MergeMembers(rest + [Entry(e.key, Merge(Lookup(ms, e.key, cs), e.value, cs))], changes[1..], cs)
  }

  // The pseudocode of section 2 of RFC 7396, on objects as finite maps

  function RfcMerge(target: Option<Canon>, patch: Canon): Canon
    decreases patch
  {
    match patch
    case CObject(p) =>
      var t := if target.Some? && target.value.CObject? then target.value.members else map[];
      CObject(map k | k in t.Keys + p.Keys && !(k in p && p[k].CNull?) ::
                if k in p then RfcMerge(Get(t, k), p[k]) else t[k])
    case _ => patch
  }

  function Get(m: map<string, Canon>, k: string): Option<Canon> {
    if k in m then Some(m[k]) else None
  }

  /** The object case of the pseudocode. */
  function RfcMembers(t: map<string, Canon>, p: map<string, Canon>): map<string, Canon> {
    map k | k in t.Keys + p.Keys && !(k in p && p[k].CNull?) ::
      if k in p then RfcMerge(Get(t, k), p[k]) else t[k]
  }

  lemma RfcStep(t: map<string, Canon>, p: map<string, Canon>, k: string, c: Canon)
    requires k !in p
    ensures RfcMembers(t, p[k := c])
         == if c.CNull? then RfcMembers(t - {k}, p) else RfcMembers(t[k := RfcMerge(Get(t, k), c)], p)
  {
  }

  lemma LookupGets(ms: seq<Entry<Value>>, key: string, cs: bool)
    requires Distinct(Object(ms), cs)
    ensures var v := Lookup(ms, key, cs);
      && Get(CanonMembers(ms, cs), Fold(key, cs)) == (if v.Some? then Some(Canonical(v.value, cs)) else None)
      && (v.Some? ==> Distinct(v.value, cs))
  {
    LookupReadsMap(ms, key, cs);
  }

  function CanonOption(v: Option<Value>, cs: bool): Option<Canon> {
    if v.Some? then Some(Canonical(v.value, cs)) else None
  }

  /** merge_patch refines the pseudocode on trees with distinct keys, and keeps keys distinct. */
  lemma {:induction false} MergeRefinesRfc(target: Option<Value>, patch: Value, cs: bool)
    requires Distinct(patch, cs) && (target.Some? ==> Distinct(target.value, cs))
    ensures Distinct(Merge(target, patch, cs), cs)
    ensures Canonical(Merge(target, patch, cs), cs) == RfcMerge(CanonOption(target, cs), Canonical(patch, cs))
    decreases patch
  {
    if patch.Object? {
      var ms := if target.Some? && target.value.Object? then target.value.members else [];
      MergeMembersRefine(ms, patch.members, cs);
    }
  }

  lemma {:induction false} MergeMembersRefine(ms: seq<Entry<Value>>, changes: seq<Entry<Value>>, cs: bool)
    requires Distinct(Object(ms), cs) && DistinctKeys(changes, cs) && AllValuesDistinct(changes, cs)
    ensures Distinct(Object(MergeMembers(ms, changes, cs)), cs)
    ensures CanonMembers(MergeMembers(ms, changes, cs), cs)
         == RfcMembers(CanonMembers(ms, cs), CanonMembers(changes, cs))
    decreases changes
  {
    if changes != [] {
      var e, rest := changes[0], changes[1..];
      var t, p, k := CanonMembers(ms, cs), CanonMembers(rest, cs), Fold(e.key, cs);
      CanonKeys(rest, cs);
      RfcStep(t, p, k, Canonical(e.value, cs));
      if e.value.Null? {
        DeleteFromMap(ms, e.key, cs);
        MergeMembersRefine(DeleteKey(ms, e.key, cs), rest, cs);
      } else {
        LookupGets(ms, e.key, cs);
        var found := Lookup(ms, e.key, cs);
        MergeRefinesRfc(found, e.value, cs);
        var w := Merge(found, e.value, cs);
        DeleteThenAppend(ms, e.key, w, cs);
        MergeMembersRefine(DeleteKey(ms, e.key, cs) + [Entry(e.key, w)], rest, cs);
      }
    } else {
      assert RfcMembers(CanonMembers(ms, cs), map[]) == CanonMembers(ms, cs);
    }
  }

  lemma {:induction false} RfcIdempotent(target: Option<Canon>, patch: Canon)
    ensures RfcMerge(Some(RfcMerge(target, patch)), patch) == RfcMerge(target, patch)
    decreases patch
  {
    if patch.CObject? {
      var p := patch.members;
      var t := if target.Some? && target.value.CObject? then target.value.members else map[];
      var once := RfcMembers(t, p);
      forall k | k in p ensures RfcMerge(Some(RfcMerge(Get(t, k), p[k])), p[k]) == RfcMerge(Get(t, k), p[k]) {
        RfcIdempotent(Get(t, k), p[k]);
      }
      assert RfcMembers(once, p) == once;
    }
  }

  /** Applying the same patch twice is applying it once. */
  lemma MergeTwice(target: Option<Value>, patch: Value, cs: bool)
    requires Distinct(patch, cs) && (target.Some? ==> Distinct(target.value, cs))
    ensures var once := Merge(target, patch, cs);
      Canonical(Merge(Some(once), patch, cs), cs) == Canonical(once, cs)
  {
    MergeRefinesRfc(target, patch, cs);
    MergeRefinesRfc(Some(Merge(target, patch, cs)), patch, cs);
    RfcIdempotent(CanonOption(target, cs), Canonical(patch, cs));
  }

  // generate_merge_patch

  /** None is the NULL that stands for "no change". Nested objects always go through the
      case-insensitive entry point, and the walk compares keys with strcmp. */
  function Generate(from: Value, to: Value, cs: bool): Option<Value>
    decreases Height(from), 0
  {
    if !to.Object? || !from.Object? then Some(to)
    else
      SortKeepsHeight(from.members, cs);
      var changes := GenerateMembers(Sort(from.members, cs), Sort(to.members, cs), cs);
      if changes == [] then None else Some(Object(changes))
  }

  function GenerateMembers(from: seq<Entry<Value>>, to: seq<Entry<Value>>, cs: bool): seq<Entry<Value>>
    decreases MembersHeight(from), |from| + |to|
  {
    if from == [] && to == [] then []
    else
      var diff := if from == [] then 1 else if to == [] then -1 else Order(from[0].key, to[0].key);
      if diff < 0 then [Entry(from[0].key, Null)] + GenerateMembers(from[1..], to, cs)
      else if diff > 0 then [Entry(to[0].key, to[0].value)] + GenerateMembers(from, to[1..], cs)
      else if CompareJson(from[0].value, to[0].value, cs) then GenerateMembers(from[1..], to[1..], cs)
      else
        var nested := NestedPatch(from[0].value, to[0].value, cs);
        (if nested.Some? then [Entry(to[0].key, nested.value)] else [])
        + GenerateMembers(from[1..], to[1..], cs)
  }

  /** The patch for two members of one name: the comparison has sorted both, and the generator that is called
      for them ignores case. */
  function NestedPatch(from: Value, to: Value, cs: bool): Option<Value>
    decreases Height(from), 1
  {
    ComparedKeepsHeight(from, to, cs);
    Generate(Compared(from, to, cs), Compared(to, from, cs), false)
  }

  // Keys that both orders put alike

  /** Folding keeps the order in which strcmp puts these keys. */
  ghost predicate KeepsOrder(keys: iset<string>) {
    forall k, l :: k in keys && l in keys && Order(k, l) < 0 ==> Order(Fold(k, false), Fold(l, false)) < 0
  }

  lemma SameOrder(k: string, l: string, keys: iset<string>, cs: bool)
    requires KeepsOrder(keys) && k in keys && l in keys
    ensures Compare(k, l, cs) == Order(k, l)
    ensures Fold(k, cs) == Fold(l, cs) <==> k == l
  {
    OrderZero(k, l);
    OrderFlip(k, l);
    OrderFlip(Fold(k, cs), Fold(l, cs));
  }

  /** With such keys, distinct in one mode is distinct in the other. */
  lemma {:induction false} DistinctEither(v: Value, keys: iset<string>, cs: bool, other: bool)
    requires KeepsOrder(keys) && KeysIn(v, keys) && Distinct(v, cs)
    ensures Distinct(v, other)
    decreases v
  {
    match v
    case Array(items) =>
      forall i | 0 <= i < |items| ensures Distinct(items[i], other) { DistinctEither(items[i], keys, cs, other); }
    case Object(ms) =>
      forall i | 0 <= i < |ms| ensures Distinct(ms[i].value, other) { DistinctEither(ms[i].value, keys, cs, other); }
      DistinctKeysEither(ms, keys, cs, other);
    case _ =>
  }

  lemma DistinctKeysEither(ms: seq<Entry<Value>>, keys: iset<string>, cs: bool, other: bool)
    requires KeepsOrder(keys) && MembersIn(ms, keys) && DistinctKeys(ms, cs)
    ensures DistinctKeys(ms, other)
  {
    forall i, j | 0 <= i < j < |ms| ensures Fold(ms[i].key, other) != Fold(ms[j].key, other) {
      DistinctAt(ms, i, j, cs);
      SameOrder(ms[i].key, ms[j].key, keys, cs);
      SameOrder(ms[i].key, ms[j].key, keys, other);
    }
    DistinctIntro(ms, other);
  }

  lemma {:induction false} FindEither(ms: seq<Entry<Value>>, key: string, keys: iset<string>, cs: bool, other: bool)
    requires KeepsOrder(keys) && MembersIn(ms, keys) && key in keys
    ensures FindMember(ms, key, cs) == FindMember(ms, key, other)
  {
    if ms != [] {
      SameOrder(ms[0].key, key, keys, cs);
      SameOrder(ms[0].key, key, keys, other);
      FindEither(ms[1..], key, keys, cs, other);
    }
  }

  lemma {:induction false} CompareEither(a: Value, b: Value, keys: iset<string>, cs: bool, other: bool)
    requires KeepsOrder(keys) && KeysIn(a, keys) && KeysIn(b, keys)
    ensures CompareItems(a, b, cs) == CompareItems(a, b, other)
    decreases Height(a) + Height(b), 0
  {
    if SameType(a, b) {
      match a
      case Array(items) => ZipEither(items, b.items, keys, cs, other);
      case Object(ms) =>
        LookupEither(ms, b.members, keys, cs, other);
        LookupEither(b.members, ms, keys, cs, other);
      case _ =>
    }
  }

  lemma {:induction false} ZipEither(a: seq<Value>, b: seq<Value>, keys: iset<string>, cs: bool, other: bool)
    requires KeepsOrder(keys) && ItemsIn(a, keys) && ItemsIn(b, keys)
    ensures ZipItems(a, b, cs) == ZipItems(a, b, other)
    decreases ItemsHeight(a) + ItemsHeight(b), |a|
  {
    if a != [] && b != [] {
      CompareEither(a[0], b[0], keys, cs, other);
      ZipEither(a[1..], b[1..], keys, cs, other);
    }
  }

  lemma {:induction false} LookupEither(
      ms: seq<Entry<Value>>, ns: seq<Entry<Value>>, keys: iset<string>, cs: bool, other: bool)
    requires KeepsOrder(keys) && MembersIn(ms, keys) && MembersIn(ns, keys)
    ensures LookupAll(ms, ns, cs) == LookupAll(ms, ns, other)
    decreases MembersHeight(ms) + MembersHeight(ns), |ms|
  {
    if ms != [] {
      FindEither(ns, ms[0].key, keys, cs, other);
      var j := FindMember(ns, ms[0].key, cs);
      if j < |ns| {
        MemberHeight(ns, j);
        CompareEither(ms[0].value, ns[j].value, keys, cs, other);
      }
      LookupEither(ms[1..], ns, keys, cs, other);
    }
  }

  /** What the generator's comparison says in one mode is equality as maps in the other. */
  lemma EqualEither(a: Value, b: Value, keys: iset<string>, cs: bool, other: bool)
    requires KeepsOrder(keys) && KeysIn(a, keys) && KeysIn(b, keys) && Distinct(a, other) && Distinct(b, other)
    ensures CompareJson(a, b, cs) <==> Canonical(a, other) == Canonical(b, other)
  {
    DistinctEither(a, keys, other, cs);
    DistinctEither(b, keys, other, cs);
    CompareEither(a, b, keys, cs, other);
    CompareJsonIsCanonEquality(a, b, cs);
    CompareItemsIsCanonEquality(a, b, cs);
    CompareItemsIsCanonEquality(a, b, other);
  }

  // The patch as a difference of maps

  /** What the generated patch means: null for what is dropped, the new value for what is new, and a patch
      for what is changed. */
  function Diff(f: Canon, t: Canon): Canon
    decreases t
  {
    match (f, t)
    case (CObject(m), CObject(n)) =>
      CObject(map k | k in m.Keys + n.Keys && !(k in m && k in n && m[k] == n[k]) ::
                if k !in n then CNull else if k in m then Diff(m[k], n[k]) else n[k])
    case _ => t
  }

  function DiffMembers(m: map<string, Canon>, n: map<string, Canon>): map<string, Canon> {
    map k | k in m.Keys + n.Keys && !(k in m && k in n && m[k] == n[k]) ::
      if k !in n then CNull else if k in m then Diff(m[k], n[k]) else n[k]
  }

  lemma DiffRemoves(m: map<string, Canon>, n: map<string, Canon>, k: string, v: Canon)
    requires k !in m && k !in n
    ensures DiffMembers(m[k := v], n) == DiffMembers(m, n)[k := CNull]
  {
  }

  lemma DiffAdds(m: map<string, Canon>, n: map<string, Canon>, k: string, w: Canon)
    requires k !in m && k !in n
    ensures DiffMembers(m, n[k := w]) == DiffMembers(m, n)[k := w]
  {
  }

  lemma DiffChanges(m: map<string, Canon>, n: map<string, Canon>, k: string, v: Canon, w: Canon)
    requires k !in m && k !in n
    ensures DiffMembers(m[k := v], n[k := w])
         == if v == w then DiffMembers(m, n) else DiffMembers(m, n)[k := Diff(v, w)]
  {
    var d, e := DiffMembers(m, n), DiffMembers(m[k := v], n[k := w]);
    assert e.Keys == if v == w then d.Keys else d.Keys + {k};
  }

  lemma NoDifference(m: map<string, Canon>, n: map<string, Canon>)
    ensures DiffMembers(m, n) == map[] <==> m == n
  {
    if m != n {
      if k :| k in m && !(k in n && n[k] == m[k]) {
        assert k in DiffMembers(m, n);
      } else {
        var k :| k in n && k !in m;
        assert k in DiffMembers(m, n);
      }
    }
  }

  /** What a walk over two sorted member lists has found. At the root of two case-sensitive calls any key
      will do; everywhere else the keys come from the set. */
  ghost predicate Walkable(ms: seq<Entry<Value>>, keys: iset<string>, exempt: bool, cs: bool) {
    && StrictlySorted(ms, cs) && AllValuesDistinct(ms, cs)
    && forall i :: 0 <= i < |ms| ==> KeysIn(ms[i].value, keys) && (exempt || ms[i].key in keys)
  }

  ghost predicate Covered(v: Value, keys: iset<string>, exempt: bool) {
    if exempt && v.Object? then forall i :: 0 <= i < |v.members| ==> KeysIn(v.members[i].value, keys)
    else KeysIn(v, keys)
  }

  /** The members sorted in one mode are sorted in the other. */
  lemma SortedEither(ms: seq<Entry<Value>>, keys: iset<string>, cs: bool, other: bool)
    requires KeepsOrder(keys) && Covered(Object(ms), keys, cs && other) && Distinct(Object(ms), other)
    ensures Walkable(Sort(ms, cs), keys, cs && other, other)
    ensures CanonMembers(Sort(ms, cs), other) == CanonMembers(ms, other)
  {
    var s := Sort(ms, cs);
    if cs != other { DistinctEither(Object(ms), keys, other, cs); }
    SortIsStrict(ms, cs);
    SortKeepsMembers(ms, cs);
    forall i | 0 <= i < |s|
      ensures KeysIn(s[i].value, keys) && ((cs && other) || s[i].key in keys) && Distinct(s[i].value, other)
    {
      var j := SortedFrom(ms, i, cs);
    }
    if cs != other {
      forall i, j | 0 <= i < j < |s| ensures Compare(s[i].key, s[j].key, other) < 0 {
        SameOrder(s[i].key, s[j].key, keys, cs);
        SameOrder(s[i].key, s[j].key, keys, other);
      }
    }
    StrictIsDistinct(s, other);
    CanonIgnoresOrder(s, ms, other);
  }

  /** The changes are the difference of the two maps. */
  ghost predicate IsDiff(
      changes: seq<Entry<Value>>, from: seq<Entry<Value>>, to: seq<Entry<Value>>, cs: bool) {
    && DistinctKeys(changes, cs) && AllValuesDistinct(changes, cs)
    && KeySet(changes, cs) <= KeySet(from, cs) + KeySet(to, cs)
    && CanonMembers(changes, cs) == DiffMembers(CanonMembers(from, cs), CanonMembers(to, cs))
  }

  /** A new first change whose key is not changed again. */
  lemma ChangesCons(e: Entry<Value>, rest: seq<Entry<Value>>, cs: bool)
    requires DistinctKeys(rest, cs) && AllValuesDistinct(rest, cs) && Fold(e.key, cs) !in KeySet(rest, cs)
    requires Distinct(e.value, cs)
    ensures var changes := [e] + rest;
      && DistinctKeys(changes, cs) && AllValuesDistinct(changes, cs)
      && KeySet(changes, cs) == {Fold(e.key, cs)} + KeySet(rest, cs)
      && CanonMembers(changes, cs) == CanonMembers(rest, cs)[Fold(e.key, cs) := Canonical(e.value, cs)]
  {
    assert ([e] + rest)[1..] == rest;
  }

  lemma RemovedIsDiff(rest: seq<Entry<Value>>, from: seq<Entry<Value>>, to: seq<Entry<Value>>, cs: bool)
    requires StrictlySorted(from, cs) && from != [] && Fold(from[0].key, cs) !in KeySet(to, cs)
    requires IsDiff(rest, from[1..], to, cs)
    ensures IsDiff([Entry(from[0].key, Null)] + rest, from, to, cs)
  {
    HeadAbsentFromTail(from, cs);
    CanonKeys(from[1..], cs);
    CanonKeys(to, cs);
    ChangesCons(Entry(from[0].key, Null), rest, cs);
    DiffRemoves(CanonMembers(from[1..], cs), CanonMembers(to, cs), Fold(from[0].key, cs), Canonical(from[0].value, cs));
  }

  lemma AddedIsDiff(rest: seq<Entry<Value>>, from: seq<Entry<Value>>, to: seq<Entry<Value>>, cs: bool)
    requires StrictlySorted(to, cs) && to != [] && Fold(to[0].key, cs) !in KeySet(from, cs)
    requires Distinct(to[0].value, cs) && IsDiff(rest, from, to[1..], cs)
    ensures IsDiff([Entry(to[0].key, to[0].value)] + rest, from, to, cs)
  {
    HeadAbsentFromTail(to, cs);
    CanonKeys(to[1..], cs);
    CanonKeys(from, cs);
    ChangesCons(Entry(to[0].key, to[0].value), rest, cs);
    DiffAdds(CanonMembers(from, cs), CanonMembers(to[1..], cs), Fold(to[0].key, cs), Canonical(to[0].value, cs));
  }

  lemma CommonIsDiff(rest: seq<Entry<Value>>, from: seq<Entry<Value>>, to: seq<Entry<Value>>, p: Value, cs: bool)
    requires StrictlySorted(from, cs) && StrictlySorted(to, cs) && from != [] && to != []
    requires Fold(from[0].key, cs) == Fold(to[0].key, cs) && IsDiff(rest, from[1..], to[1..], cs)
    ensures var v, w := Canonical(from[0].value, cs), Canonical(to[0].value, cs);
      && (v == w ==> IsDiff(rest, from, to, cs))
      && (v != w && Distinct(p, cs) && Canonical(p, cs) == Diff(v, w)
          ==> IsDiff([Entry(to[0].key, p)] + rest, from, to, cs))
  {
    var v, w := Canonical(from[0].value, cs), Canonical(to[0].value, cs);
    HeadAbsentFromTail(from, cs);
    HeadAbsentFromTail(to, cs);
    CanonKeys(from[1..], cs);
    CanonKeys(to[1..], cs);
    DiffChanges(CanonMembers(from[1..], cs), CanonMembers(to[1..], cs), Fold(to[0].key, cs), v, w);
    if v != w && Distinct(p, cs) && Canonical(p, cs) == Diff(v, w) { ChangesCons(Entry(to[0].key, p), rest, cs); }
  }

  /** The generated patch is the difference, and there is none exactly between equal objects. */
  lemma {:induction false} GenerateIsDiff(from: Value, to: Value, keys: iset<string>, cs: bool, other: bool)
    requires KeepsOrder(keys) && Covered(from, keys, cs && other) && Covered(to, keys, cs && other)
    requires Distinct(from, other) && Distinct(to, other)
    ensures var p, f, t := Generate(from, to, cs), Canonical(from, other), Canonical(to, other);
      && (p.None? <==> from.Object? && to.Object? && f == t)
      && (p.Some? ==> Distinct(p.value, other) && Canonical(p.value, other) == Diff(f, t))
    decreases Height(from), 0
  {
    if from.Object? && to.Object? {
      var s, t := Sort(from.members, cs), Sort(to.members, cs);
      SortKeepsHeight(from.members, cs);
      SortedEither(from.members, keys, cs, other);
      SortedEither(to.members, keys, cs, other);
      GenerateMembersIsDiff(s, t, keys, cs, other);
      ChangesAreDiff(GenerateMembers(s, t, cs), s, t, other);
    }
  }

  lemma ChangesAreDiff(
      changes: seq<Entry<Value>>, from: seq<Entry<Value>>, to: seq<Entry<Value>>, cs: bool)
    requires IsDiff(changes, from, to, cs)
    ensures var f, t := CObject(CanonMembers(from, cs)), CObject(CanonMembers(to, cs));
      && (changes == [] <==> f == t)
      && Distinct(Object(changes), cs) && Canonical(Object(changes), cs) == Diff(f, t)
  {
    NoDifference(CanonMembers(from, cs), CanonMembers(to, cs));
    CanonKeys(changes, cs);
    assert changes != [] ==> Fold(changes[0].key, cs) in KeySet(changes, cs);
  }

  lemma {:induction false} GenerateMembersIsDiff(
      from: seq<Entry<Value>>, to: seq<Entry<Value>>, keys: iset<string>, cs: bool, other: bool)
    requires KeepsOrder(keys) && Walkable(from, keys, cs && other, other) && Walkable(to, keys, cs && other, other)
    ensures IsDiff(GenerateMembers(from, to, cs), from, to, other)
    decreases MembersHeight(from), |from| + |to| + 1
  {
    if from != [] || to != [] {
      var diff := if from == [] then 1 else if to == [] then -1 else Order(from[0].key, to[0].key);
      if from != [] && to != [] { HeadsCompare(from[0].key, to[0].key, keys, cs && other, other); }
      if diff < 0 {
        BelowHeadIsAbsent(from[0].key, to, other);
        GenerateMembersIsDiff(from[1..], to, keys, cs, other);
        RemovedIsDiff(GenerateMembers(from[1..], to, cs), from, to, other);
      } else if diff > 0 {
        BelowHeadIsAbsent(to[0].key, from, other);
        GenerateMembersIsDiff(from, to[1..], keys, cs, other);
        AddedIsDiff(GenerateMembers(from, to[1..], cs), from, to, other);
      } else {
        GenerateMembersIsDiff(from[1..], to[1..], keys, cs, other);
        CommonChangeIsDiff(GenerateMembers(from[1..], to[1..], cs), from, to, keys, cs, other);
      }
    }
  }

  lemma {:induction false} CommonChangeIsDiff(
      rest: seq<Entry<Value>>, from: seq<Entry<Value>>, to: seq<Entry<Value>>,
      keys: iset<string>, cs: bool, other: bool)
    requires KeepsOrder(keys) && Walkable(from, keys, cs && other, other) && Walkable(to, keys, cs && other, other)
    requires from != [] && to != [] && from[0].key == to[0].key && IsDiff(rest, from[1..], to[1..], other)
    ensures var v, w := from[0].value, to[0].value;
      if CompareJson(v, w, cs) then IsDiff(rest, from, to, other)
      else var p := NestedPatch(v, w, cs); p.Some? && IsDiff([Entry(to[0].key, p.value)] + rest, from, to, other)
    decreases MembersHeight(from), 2
  {
    var v, w := from[0].value, to[0].value;
    EqualEither(v, w, keys, cs, other);
    if CompareJson(v, w, cs) {
      CommonIsDiff(rest, from, to, Null, other);
    } else {
      NestedIsDiff(v, w, keys, cs, other);
      CommonIsDiff(rest, from, to, NestedPatch(v, w, cs).value, other);
    }
  }

  lemma {:induction false} NestedIsDiff(v: Value, w: Value, keys: iset<string>, cs: bool, other: bool)
    requires KeepsOrder(keys) && KeysIn(v, keys) && KeysIn(w, keys)
    requires Distinct(v, other) && Distinct(w, other) && Canonical(v, other) != Canonical(w, other)
    ensures var p := NestedPatch(v, w, cs);
      p.Some? && Distinct(p.value, other) && Canonical(p.value, other) == Diff(Canonical(v, other), Canonical(w, other))
    decreases Height(v), 1
  {
    ComparedKeepsHeight(v, w, cs);
    ComparedKeepsKeys(v, w, cs, keys);
    ComparedKeepsKeys(w, v, cs, keys);
    ComparedKeepsCanon(v, w, cs, other);
    ComparedKeepsCanon(w, v, cs, other);
    GenerateIsDiff(Compared(v, w, cs), Compared(w, v, cs), keys, false, other);
  }

  /** strcmp puts the two heads as both lists are sorted. */
  lemma HeadsCompare(k: string, l: string, keys: iset<string>, exempt: bool, cs: bool)
    requires KeepsOrder(keys) && (exempt ==> cs) && (exempt || (k in keys && l in keys))
    ensures Order(k, l) == Compare(k, l, cs) == -Compare(l, k, cs)
    ensures Order(k, l) == 0 ==> k == l
  {
    OrderZero(k, l);
    CompareIsTotalOrder(k, l, k, cs);
    if !exempt { SameOrder(k, l, keys, cs); }
  }

  // Null members of the target

  /** No object outside arrays has a null member: null is how a merge patch says "remove". */
  predicate NullFree(t: Canon)
    decreases t
  {
    t.CObject? ==> forall k :: k in t.members ==> !t.members[k].CNull? && NullFree(t.members[k])
  }

  /** A null member of the target is harmless when the first tree has an equal member in its place. */
  predicate Mergeable(f: Canon, t: Canon)
    decreases t, 0
  {
    match (f, t)
    case (CObject(m), CObject(n)) =>
      forall k :: k in n ==> MemberMergeable(m, k, n[k])
    case _ => NullFree(t)
  }

  predicate MemberMergeable(m: map<string, Canon>, k: string, w: Canon)
    decreases w, 1
  {
    || (k in m && m[k] == w)
    || (!w.CNull? && if k in m then Mergeable(m[k], w) else NullFree(w))
  }

  /** Merging into what is no object gives the patch itself exactly when it is free of nulls. */
  lemma {:induction false} MergeIntoNothing(target: Option<Canon>, t: Canon)
    requires target.Some? && target.value.CObject? ==> !t.CObject?
    ensures RfcMerge(target, t) == t <==> NullFree(t)
    decreases t
  {
    if t.CObject? {
      var p := t.members;
      var merged := RfcMembers(map[], p);
      assert RfcMerge(target, t) == CObject(merged);
      forall k | k in p ensures RfcMerge(None, p[k]) == p[k] <==> NullFree(p[k]) { MergeIntoNothing(None, p[k]); }
      if NullFree(t) {
        assert merged == p;
      } else {
        var k :| k in p && (p[k].CNull? || !NullFree(p[k]));
        assert k in merged ==> merged[k] != p[k];
      }
    }
  }

  /** The difference, merged into the first map, gives the second exactly when its null members allow it. */
  lemma {:induction false} DiffMerges(f: Canon, t: Canon)
    ensures RfcMerge(Some(f), Diff(f, t)) == t <==> Mergeable(f, t)
    decreases t, 0
  {
    if f.CObject? && t.CObject? {
      var m, n := f.members, t.members;
      var merged := RfcMembers(m, DiffMembers(m, n));
      assert RfcMerge(Some(f), Diff(f, t)) == CObject(merged);
      assert merged.Keys <= n.Keys;
      forall k | k in n ensures (k in merged && merged[k] == n[k]) <==> MemberMergeable(m, k, n[k]) {
        MemberDiffMerges(m, n, k);
      }
      SameMaps(merged, n);
    } else {
      MergeIntoNothing(Some(f), t);
    }
  }

  lemma SameMaps(m: map<string, Canon>, n: map<string, Canon>)
    requires m.Keys <= n.Keys
    ensures m == n <==> forall k :: k in n ==> k in m && m[k] == n[k]
  {
  }

  lemma {:induction false} MemberDiffMerges(m: map<string, Canon>, n: map<string, Canon>, k: string)
    requires k in n
    ensures var merged := RfcMembers(m, DiffMembers(m, n));
      (k in merged && merged[k] == n[k]) <==> MemberMergeable(m, k, n[k])
    decreases n[k], 1
  {
    if k in m && m[k] != n[k] {
      DiffMerges(m[k], n[k]);
    } else if k !in m {
      MergeIntoNothing(None, n[k]);
    }
  }

  /** A target free of nulls can always be reached. */
  lemma {:induction false} NullFreeIsMergeable(f: Canon, t: Canon)
    requires NullFree(t)
    ensures Mergeable(f, t)
    decreases t
  {
    if f.CObject? && t.CObject? {
      forall k | k in t.members ensures MemberMergeable(f.members, k, t.members[k]) {
        if k in f.members { NullFreeIsMergeable(f.members[k], t.members[k]); }
      }
    }
  }

  /** A tree comes whole out of merging it into nothing exactly when it is free of nulls. */
  lemma MergedFromNothing(v: Value, cs: bool)
    requires Distinct(v, cs)
    ensures Canonical(Merge(None, v, cs), cs) == Canonical(v, cs) <==> NullFree(Canonical(v, cs))
  {
    MergeRefinesRfc(None, v, cs);
    MergeIntoNothing(None, Canonical(v, cs));
  }

  /** A null member is lost on the way: {"a": null} merged into nothing is {}. */
  lemma NullMemberIsLost(cs: bool)
    ensures Merge(None, Object([Entry("a", Null)]), cs) == Object([])
  {
    assert [Entry("a", Null)][1..] == [];
    assert MergeMembers([], [Entry("a", Null)], cs) == [];
  }

  // The round trip

  /** The generated patch, merged into this copy of the first tree, gives the second. No patch says that
      nothing is to be changed. */
  predicate Merges(doc: Value, from: Value, to: Value, csGenerate: bool, csApply: bool) {
    var patch := Generate(from, to, csGenerate);
    Canonical(if patch.Some? then Merge(Some(doc), patch.value, csApply) else doc, csApply) == Canonical(to, csApply)
  }

  /** Merge Patch round trip: applying the generated patch to any copy of the first tree gives the second up to
      member order exactly when the null members of the second allow it, and for two objects the generator
      says "no change" exactly when they are equal. The keys are such that folding keeps their order; at the
      root of two case-sensitive calls any keys will do. */
  lemma MergePatchRoundTrip(
      doc: Value, from: Value, to: Value, keys: iset<string>, csGenerate: bool, csApply: bool)
    requires KeepsOrder(keys)
    requires Covered(from, keys, csGenerate && csApply) && Covered(to, keys, csGenerate && csApply)
    requires Distinct(from, csApply) && Distinct(to, csApply)
    requires Distinct(doc, csApply) && Canonical(doc, csApply) == Canonical(from, csApply)
    ensures Merges(doc, from, to, csGenerate, csApply)
       <==> Mergeable(Canonical(from, csApply), Canonical(to, csApply))
    ensures Generate(from, to, csGenerate).None?
       <==> from.Object? && to.Object? && Canonical(from, csApply) == Canonical(to, csApply)
  {
    var patch, f, t := Generate(from, to, csGenerate), Canonical(from, csApply), Canonical(to, csApply);
    GenerateIsDiff(from, to, keys, csGenerate, csApply);
    DiffMerges(f, t);
    if patch.Some? {
      MergeRefinesRfc(Some(doc), patch.value, csApply);
    } else {
      assert Mergeable(t, t);
    }
  }
}
