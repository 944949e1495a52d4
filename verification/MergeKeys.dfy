/** For which keys a generated merge patch does its job. */
module MergeKeys {
  import opened CText
  import opened Json
  import opened Options
  import MergeSort
  import opened Equality
  import opened Comparison
  import opened KeySets
  import opened MergePatch

  /** Two trees with distinct keys out of the set, null members only where they do no harm, and a copy of the
      first. */
  ghost predicate Posed(doc: Value, from: Value, to: Value, keys: iset<string>, cs: bool) {
    && Distinct(from, cs) && Distinct(to, cs) && Distinct(doc, cs) && Canonical(doc, cs) == Canonical(from, cs)
    && KeysIn(from, keys) && KeysIn(to, keys) && Mergeable(Canonical(from, cs), Canonical(to, cs))
  }

  ghost predicate AllMerge(keys: iset<string>, csGenerate: bool, csApply: bool) {
    forall doc, from, to {:trigger Merges(doc, from, to, csGenerate, csApply)} ::
      Posed(doc, from, to, keys, csApply) ==> Merges(doc, from, to, csGenerate, csApply)
  }

  /** All trees with keys out of a set survive the round trip exactly when folding keeps the order of these
      keys, whatever the two flags say: below the root the generator always sorts without regard to case. */
  lemma KeySetMergesExactly(keys: iset<string>, csGenerate: bool, csApply: bool)
    ensures AllMerge(keys, csGenerate, csApply) <==> KeepsOrder(keys)
  {
    if KeepsOrder(keys) {
      forall doc, from, to | Posed(doc, from, to, keys, csApply) ensures Merges(doc, from, to, csGenerate, csApply) {
        CoveredByKeys(from, keys, csGenerate && csApply);
        CoveredByKeys(to, keys, csGenerate && csApply);
        MergePatchRoundTrip(doc, from, to, keys, csGenerate, csApply);
      }
    } else {
      var k, l :| k in keys && l in keys && Order(k, l) < 0 && Order(Fold(k, false), Fold(l, false)) >= 0;
      OrderZero(k, l);
      var from, to, patch := DisorderFails(k, l, csApply);
      Refuted(from, to, patch, k, l, keys, csGenerate, csApply);
    }
  }

  lemma CoveredByKeys(v: Value, keys: iset<string>, exempt: bool)
    requires KeysIn(v, keys)
    ensures Covered(v, keys, exempt)
  {
  }

  /** Two trees for which the case-insensitive generator emits a patch that does not lead to the second. */
  ghost predicate Failing(from: Value, to: Value, patch: Value, k: string, l: string, cs: bool) {
    && Distinct(from, cs) && Distinct(to, cs) && Distinct(from, true) && Distinct(to, true)
    && KeysIn(from, iset{k, l}) && KeysIn(to, iset{k, l}) && Mergeable(Canonical(from, cs), Canonical(to, cs))
    && Canonical(from, true) != Canonical(to, true) && !to.Null? && !patch.Null?
    && Generate(from, to, false) == Some(patch) && Unmoved(from, to)
    && Canonical(Merge(Some(from), patch, cs), cs) != Canonical(to, cs)
  }

  /** A case-sensitive comparison leaves both trees as they are. */
  predicate Unmoved(from: Value, to: Value) {
    Compared(from, to, true) == from && Compared(to, from, true) == to
  }

  lemma DisorderFails(k: string, l: string, cs: bool) returns (from: Value, to: Value, patch: Value)
    requires k != l && Order(k, l) < 0 && Order(Fold(k, false), Fold(l, false)) >= 0
    ensures Failing(from, to, patch, k, l, cs)
  {
    if Fold(k, cs) == Fold(l, cs) {
      TwinFails(k, l);
      from, to := Object([Entry(l, True)]), Object([Entry(k, True)]);
      patch := Object([Entry(k, True), Entry(l, Null)]);
    } else {
      MergeSort.SortTwo(Entry(k, True), Entry(l, True), false);
      OverwrittenFails(k, l, [Entry(k, True), Entry(l, True)], cs);
      from, to := Object([Entry(k, True), Entry(l, True)]), Object([Entry(k, True)]);
      patch := Object([Entry(k, True), Entry(l, Null), Entry(k, Null)]);
    }
  }

  lemma OneMember(key: string, v: Value, cs: bool)
    ensures CanonMembers([Entry(key, v)], cs) == map[Fold(key, cs) := Canonical(v, cs)]
    ensures MergeSort.Sort([Entry(key, v)], cs) == [Entry(key, v)]
  {
    assert [Entry(key, v)][1..] == [];
  }

  predicate AllTrue(ms: seq<Entry<Value>>) {
    forall i :: 0 <= i < |ms| ==> ms[i].value.True?
  }

  lemma {:induction false} AllTrueMap(ms: seq<Entry<Value>>, cs: bool)
    requires AllTrue(ms)
    ensures forall x :: x in CanonMembers(ms, cs) ==> CanonMembers(ms, cs)[x] == CTrue
  {
    if ms != [] { AllTrueMap(ms[1..], cs); }
  }

  /** When the changes leave nothing of the members, the target is missed. */
  lemma FailsByMembers(
      from: seq<Entry<Value>>, to: seq<Entry<Value>>, changes: seq<Entry<Value>>, k: string, l: string, cs: bool)
    requires DistinctKeys(from, cs) && DistinctKeys(to, cs) && DistinctKeys(from, true) && DistinctKeys(to, true)
    requires AllTrue(from) && AllTrue(to) && to != [] && changes != []
    requires forall i :: 0 <= i < |from| ==> from[i].key in iset{k, l}
    requires forall i :: 0 <= i < |to| ==> to[i].key in iset{k, l}
    requires CanonMembers(from, true) != CanonMembers(to, true)
    requires GenerateMembers(MergeSort.Sort(from, false), MergeSort.Sort(to, false), false) == changes
    requires MergeMembers(from, changes, cs) == []
    ensures MergeSort.Sort(from, true) == from && MergeSort.Sort(to, true) == to ==>
              Failing(Object(from), Object(to), Object(changes), k, l, cs)
    ensures Generate(Object(from), Object(to), false) == Some(Object(changes))
    ensures Merge(Some(Object(from)), Object(changes), cs) == Object([])
  {
    AllTrueMap(from, cs);
    AllTrueMap(to, cs);
    TrueIsMergeable(CanonMembers(from, cs), CanonMembers(to, cs));
    FlatTree(from, iset{k, l}, cs);
    FlatTree(to, iset{k, l}, cs);
    FlatTree(from, iset{k, l}, true);
    FlatTree(to, iset{k, l}, true);
    assert Fold(to[0].key, cs) in CanonMembers(to, cs);
    MergesAway(from, to, changes, cs);
    FlatUnmoved(MergeSort.Sort(from, true), MergeSort.Sort(to, true));
    FlatUnmoved(MergeSort.Sort(to, true), MergeSort.Sort(from, true));
  }

  lemma {:induction false} FlatUnmoved(s: seq<Entry<Value>>, t: seq<Entry<Value>>)
    ensures AllTrue(s) ==> ComparedMembers(s, t, true) == s
    decreases |s|
  {
    if s != [] && t != [] && AllTrue(s) && Compare(s[0].key, t[0].key, true) == 0 { FlatUnmoved(s[1..], t[1..]); }
  }

  lemma FlatTree(ms: seq<Entry<Value>>, keys: iset<string>, cs: bool)
    requires DistinctKeys(ms, cs) && AllTrue(ms) && forall i :: 0 <= i < |ms| ==> ms[i].key in keys
    ensures Distinct(Object(ms), cs) && KeysIn(Object(ms), keys)
    ensures Canonical(Object(ms), cs) == CObject(CanonMembers(ms, cs))
  {
  }

  lemma MergesAway(from: seq<Entry<Value>>, to: seq<Entry<Value>>, changes: seq<Entry<Value>>, cs: bool)
    requires changes != [] && MergeMembers(from, changes, cs) == [] && CanonMembers(to, cs) != map[]
    requires GenerateMembers(MergeSort.Sort(from, false), MergeSort.Sort(to, false), false) == changes
    ensures Generate(Object(from), Object(to), false) == Some(Object(changes))
    ensures Merge(Some(Object(from)), Object(changes), cs) == Object([])
    ensures Canonical(Merge(Some(Object(from)), Object(changes), cs), cs) != Canonical(Object(to), cs)
  {
  }

  lemma TrueIsMergeable(m: map<string, Canon>, n: map<string, Canon>)
    requires forall x :: x in m ==> m[x] == CTrue
    requires forall x :: x in n ==> n[x] == CTrue
    ensures Mergeable(CObject(m), CObject(n))
  {
    forall x | x in n ensures MemberMergeable(m, x, n[x]) {
      if x !in m { assert NullFree(CTrue); }
    }
  }

  /** One key is replaced by another that differs from it in case only: the new member is added and then
      dropped under the old name. */
  lemma TwinFails(k: string, l: string)
    requires k != l && Order(k, l) < 0 && Fold(k, false) == Fold(l, false)
    ensures Failing(Object([Entry(l, True)]), Object([Entry(k, True)]), Object([Entry(k, True), Entry(l, Null)]),
                    k, l, false)
  {
    var from, to, changes := [Entry(l, True)], [Entry(k, True)], [Entry(k, True), Entry(l, Null)];
    TwinPatch(k, l);
    TwinMerge(k, l);
    OneMember(l, True, false);
    OneMember(k, True, false);
    OneMember(l, True, true);
    OneMember(k, True, true);
    assert from[1..] == [] && to[1..] == [];
    assert k in CanonMembers(to, true) && k !in CanonMembers(from, true);
    FailsByMembers(from, to, changes, k, l, false);
  }

  lemma TwinPatch(k: string, l: string)
    requires Order(k, l) < 0
    ensures GenerateMembers([Entry(l, True)], [Entry(k, True)], false) == [Entry(k, True), Entry(l, Null)]
  {
    var from, to := [Entry(l, True)], [Entry(k, True)];
    var none: seq<Entry<Value>> := [];
    OrderFlip(k, l);
    assert from[1..] == none && to[1..] == none;
    assert GenerateMembers(none, none, false) == none;
    assert GenerateMembers(from, none, false) == [Entry(l, Null)] + none;
    assert GenerateMembers(from, to, false) == [Entry(k, True)] + GenerateMembers(from, none, false);
  }

  lemma TwinMerge(k: string, l: string)
    requires Fold(k, false) == Fold(l, false)
    ensures MergeMembers([Entry(l, True)], [Entry(k, True), Entry(l, Null)], false) == []
  {
    var from, to, changes := [Entry(l, True)], [Entry(k, True)], [Entry(k, True), Entry(l, Null)];
    var none: seq<Entry<Value>> := [];
    assert changes[1..] == [Entry(l, Null)] && changes[1..][1..] == none;
    assert DeleteKey(from, k, false) == none && DeleteKey(to, l, false) == none && none + to == to;
    assert MergeMembers(to, changes[1..], false) == none;
  }

  /** One of two members is dropped. The generator walks them in the wrong order: it adds the member that
      stays and then drops both. */
  lemma OverwrittenFails(k: string, l: string, from: seq<Entry<Value>>, cs: bool)
    requires Order(k, l) < 0 && Fold(k, cs) != Fold(l, cs)
    requires from == [Entry(k, True), Entry(l, True)] || from == [Entry(l, True), Entry(k, True)]
    requires MergeSort.Sort(from, false) == [Entry(l, True), Entry(k, True)]
    ensures var to, patch := Object([Entry(k, True)]), Object([Entry(k, True), Entry(l, Null), Entry(k, Null)]);
      && (from == [Entry(k, True), Entry(l, True)] ==> Failing(Object(from), to, patch, k, l, cs))
      && Generate(Object(from), to, false) == Some(patch) && Merge(Some(Object(from)), patch, cs) == Object([])
  {
    var to, changes := [Entry(k, True)], [Entry(k, True), Entry(l, Null), Entry(k, Null)];
    OrderZero(k, l);
    OverwrittenPatch(k, l);
    OneMember(k, True, false);
    OneMember(k, True, true);
    OverwrittenMerge(k, l, from, cs);
    OverwrittenPosed(k, l, from, cs);
    OverwrittenPosed(k, l, from, true);
    assert to[1..] == [];
    assert l in CanonMembers(from, true) && l !in CanonMembers(to, true);
    MergeSort.SortTwo(Entry(k, True), Entry(l, True), true);
    FailsByMembers(from, to, changes, k, l, cs);
  }

  lemma OverwrittenPatch(k: string, l: string)
    requires Order(k, l) < 0
    ensures GenerateMembers([Entry(l, True), Entry(k, True)], [Entry(k, True)], false)
         == [Entry(k, True), Entry(l, Null), Entry(k, Null)]
  {
    var s, to := [Entry(l, True), Entry(k, True)], [Entry(k, True)];
    var none: seq<Entry<Value>> := [];
    OrderFlip(k, l);
    assert s[1..] == to && to[1..] == none;
    assert GenerateMembers(none, none, false) == none;
    assert GenerateMembers(to, none, false) == [Entry(k, Null)];
    assert GenerateMembers(s, none, false) == [Entry(l, Null)] + [Entry(k, Null)];
    assert GenerateMembers(s, to, false) == [Entry(k, True)] + GenerateMembers(s, none, false);
  }

  lemma OverwrittenMerge(k: string, l: string, from: seq<Entry<Value>>, cs: bool)
    requires Fold(k, cs) != Fold(l, cs)
    requires from == [Entry(k, True), Entry(l, True)] || from == [Entry(l, True), Entry(k, True)]
    ensures MergeMembers(from, [Entry(k, True), Entry(l, Null), Entry(k, Null)], cs) == []
  {
    var none: seq<Entry<Value>> := [];
    var one, other, two := [Entry(k, True)], [Entry(l, True)], [Entry(l, True), Entry(k, True)];
    assert other + one == two;
    DeleteOfTwo(k, l, cs);
    DeleteOfTwo(l, k, cs);
    SetStep(from, k, [Entry(l, Null), Entry(k, Null)], cs);
    DropStep(two, l, [Entry(k, Null)], cs);
    DropStep(one, k, none, cs);
    assert [Entry(k, Null)] + none == [Entry(k, Null)];
    assert [Entry(l, Null)] + [Entry(k, Null)] == [Entry(l, Null), Entry(k, Null)];
    assert [Entry(k, True)] + [Entry(l, Null), Entry(k, Null)] == [Entry(k, True), Entry(l, Null), Entry(k, Null)];
  }

  lemma DeleteOfTwo(k: string, l: string, cs: bool)
    requires Fold(k, cs) != Fold(l, cs)
    ensures DeleteKey([Entry(k, True)], k, cs) == []
    ensures DeleteKey([Entry(k, True), Entry(l, True)], k, cs) == [Entry(l, True)]
    ensures DeleteKey([Entry(l, True), Entry(k, True)], k, cs) == [Entry(l, True)]
  {
    var both := [Entry(l, True), Entry(k, True)];
    assert both[1..] == [Entry(k, True)];
    assert FindMember(both, k, cs) == 1;
    assert both[..1] + both[2..] == [Entry(l, True)];
  }

  lemma SetStep(from: seq<Entry<Value>>, k: string, rest: seq<Entry<Value>>, cs: bool)
    ensures MergeMembers(from, [Entry(k, True)] + rest, cs)
         == MergeMembers(DeleteKey(from, k, cs) + [Entry(k, True)], rest, cs)
  {
    assert ([Entry(k, True)] + rest)[1..] == rest;
  }

  lemma DropStep(from: seq<Entry<Value>>, k: string, rest: seq<Entry<Value>>, cs: bool)
    ensures MergeMembers(from, [Entry(k, Null)] + rest, cs) == MergeMembers(DeleteKey(from, k, cs), rest, cs)
  {
    assert ([Entry(k, Null)] + rest)[1..] == rest;
  }

  lemma OverwrittenPosed(k: string, l: string, from: seq<Entry<Value>>, cs: bool)
    requires Fold(k, cs) != Fold(l, cs)
    requires from == [Entry(k, True), Entry(l, True)] || from == [Entry(l, True), Entry(k, True)]
    ensures DistinctKeys(from, cs) && Fold(l, cs) in CanonMembers(from, cs)
  {
    assert from[1..] == [Entry(k, True)] || from[1..] == [Entry(l, True)];
    assert from[1..][1..] == [];
    CanonKeys(from, cs);
  }

  /** The failing trees themselves, or one level down when the root is walked with regard to case. */
  lemma Refuted(
      from: Value, to: Value, patch: Value, k: string, l: string, keys: iset<string>, csGenerate: bool, csApply: bool)
    requires k in keys && l in keys && Failing(from, to, patch, k, l, csApply)
    ensures !AllMerge(keys, csGenerate, csApply)
  {
    MoreKeys(from, iset{k, l}, keys);
    MoreKeys(to, iset{k, l}, keys);
    if csGenerate {
      NestedFails(from, to, patch, k, keys, csApply);
    } else {
      NotAllMerge(from, to, patch, keys, false, csApply);
    }
  }

  lemma {:induction false} MoreKeys(v: Value, keys: iset<string>, more: iset<string>)
    requires KeysIn(v, keys) && keys <= more
    ensures KeysIn(v, more)
    decreases v
  {
    match v
    case Array(items) => forall i | 0 <= i < |items| ensures KeysIn(items[i], more) { MoreKeys(items[i], keys, more); }
    case Object(ms) =>
      forall i | 0 <= i < |ms| ensures ms[i].key in more && KeysIn(ms[i].value, more) {
        MoreKeys(ms[i].value, keys, more);
      }
    case _ =>
  }

  lemma NestedFails(from: Value, to: Value, patch: Value, k: string, keys: iset<string>, cs: bool)
    requires Distinct(from, cs) && Distinct(to, cs) && Distinct(from, true) && Distinct(to, true)
    requires KeysIn(from, keys) && KeysIn(to, keys) && k in keys && Mergeable(Canonical(from, cs), Canonical(to, cs))
    requires Canonical(from, true) != Canonical(to, true) && Generate(from, to, false) == Some(patch) && !patch.Null?
    requires Canonical(Merge(Some(from), patch, cs), cs) != Canonical(to, cs) && !to.Null? && Unmoved(from, to)
    ensures !AllMerge(keys, true, cs)
  {
    var v, w := Object([Entry(k, from)]), Object([Entry(k, to)]);
    CompareJsonIsCanonEquality(from, to, true);
    NestedPatchIs(from, to, patch, k);
    NestedMerge(from, patch, k, cs);
    NestedDiffers(Merge(Some(from), patch, cs), to, k, cs);
    NestedPosed(from, to, k, keys, cs);
    NotAllMerge(v, w, Object([Entry(k, patch)]), keys, true, cs);
  }

  lemma NotAllMerge(from: Value, to: Value, patch: Value, keys: iset<string>, csGenerate: bool, csApply: bool)
    requires Posed(from, from, to, keys, csApply) && Generate(from, to, csGenerate) == Some(patch)
    requires Canonical(Merge(Some(from), patch, csApply), csApply) != Canonical(to, csApply)
    ensures !AllMerge(keys, csGenerate, csApply)
  {
    assert !Merges(from, from, to, csGenerate, csApply);
  }

  lemma NestedDiffers(v: Value, w: Value, k: string, cs: bool)
    requires Canonical(v, cs) != Canonical(w, cs)
    ensures Canonical(Object([Entry(k, v)]), cs) != Canonical(Object([Entry(k, w)]), cs)
  {
    OneMember(k, v, cs);
    OneMember(k, w, cs);
    assert CanonMembers([Entry(k, v)], cs)[Fold(k, cs)] != CanonMembers([Entry(k, w)], cs)[Fold(k, cs)];
  }

  lemma NestedPosed(from: Value, to: Value, k: string, keys: iset<string>, cs: bool)
    requires Distinct(from, cs) && Distinct(to, cs) && KeysIn(from, keys) && KeysIn(to, keys) && k in keys
    requires Mergeable(Canonical(from, cs), Canonical(to, cs)) && !to.Null?
    ensures Posed(Object([Entry(k, from)]), Object([Entry(k, from)]), Object([Entry(k, to)]), keys, cs)
  {
    NestedTree(from, k, keys, cs);
    NestedTree(to, k, keys, cs);
    OneMergeable(Fold(k, cs), Canonical(from, cs), Canonical(to, cs));
  }

  lemma NestedTree(v: Value, k: string, keys: iset<string>, cs: bool)
    requires Distinct(v, cs) && KeysIn(v, keys) && k in keys
    ensures Distinct(Object([Entry(k, v)]), cs) && KeysIn(Object([Entry(k, v)]), keys)
    ensures Canonical(Object([Entry(k, v)]), cs) == CObject(map[Fold(k, cs) := Canonical(v, cs)])
  {
    OneMember(k, v, cs);
    assert [Entry(k, v)][1..] == [];
  }

  lemma OneMergeable(key: string, f: Canon, t: Canon)
    requires Mergeable(f, t) && !t.CNull?
    ensures Mergeable(CObject(map[key := f]), CObject(map[key := t]))
  {
    var m, n := map[key := f], map[key := t];
    forall x | x in n ensures MemberMergeable(m, x, n[x]) {
      assert x == key;
    }
  }

  lemma NestedPatchIs(from: Value, to: Value, patch: Value, k: string)
    requires !CompareJson(from, to, true) && Generate(from, to, false) == Some(patch) && Unmoved(from, to)
    ensures Generate(Object([Entry(k, from)]), Object([Entry(k, to)]), true) == Some(Object([Entry(k, patch)]))
  {
    var ms, ns := [Entry(k, from)], [Entry(k, to)];
    var none: seq<Entry<Value>> := [];
    OneMember(k, from, true);
    OneMember(k, to, true);
    OrderZero(k, k);
    assert ms[1..] == none && ns[1..] == none && GenerateMembers(none, none, true) == none;
    assert GenerateMembers(ms, ns, true) == [Entry(k, patch)] + none;
    assert [Entry(k, patch)] + none == [Entry(k, patch)];
  }

  lemma NestedMerge(from: Value, patch: Value, k: string, cs: bool)
    requires !patch.Null?
    ensures Merge(Some(Object([Entry(k, from)])), Object([Entry(k, patch)]), cs)
         == Object([Entry(k, Merge(Some(from), patch, cs))])
  {
    var ms, changes, merged := [Entry(k, from)], [Entry(k, patch)], [Entry(k, Merge(Some(from), patch, cs))];
    var none: seq<Entry<Value>> := [];
    assert FindMember(ms, k, cs) == 0 && DeleteKey(ms, k, cs) == none && changes[1..] == none;
    assert Lookup(ms, k, cs) == Some(from) && none + merged == merged;
    assert MergeMembers(merged, none, cs) == merged;
    assert MergeMembers(ms, changes, cs) == MergeMembers(none + merged, changes[1..], cs);
  }

  /** What happens to {"a": true, "B": true} when "a" is dropped: nothing is left. */
  lemma CapitalIsLost(cs: bool)
    ensures var from, to := Object([Entry("a", True), Entry("B", True)]), Object([Entry("B", True)]);
      var patch := Object([Entry("B", True), Entry("a", Null), Entry("B", Null)]);
      Generate(from, to, false) == Some(patch) && Merge(Some(from), patch, cs) == Object([])
  {
    assert "B"[0] == 'B' && "a"[0] == 'a' && "b"[0] == 'b';
    assert Fold("B", false) == "b" && Fold("a", false) == "a";
    assert Order("B", "a") < 0 && Order("a", "b") < 0;
    MergeSort.SortTwo(Entry("a", True), Entry("B", True), false);
    OverwrittenFails("B", "a", [Entry("a", True), Entry("B", True)], cs);
  }
}
