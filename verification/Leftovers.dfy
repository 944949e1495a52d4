/** What generating patches leaves of the two trees: objects that stand in both are sorted, at every depth. */
module Leftovers {
  import opened CText
  import opened Json
  import opened Options
  import opened MergeSort
  import opened Equality
  import opened Pointer
  import opened Patch
  import opened PatchRoundTrip
  import opened PatchOperations
  import opened Tails
  import opened Comparison
  import opened Trees
  import opened TreePatch
  import opened TreeRuns

  /** create_patches, as far as one of its trees is concerned; b is the other one. */
  function Left(t: Tree, b: Value, cs: bool): Tree
    decreases Height(Plain(t)), 0
  {
    match (t, b)
    case (TArray(s), Array(u)) => TArray(LeftItems(s, u, cs))
    case (TObject(ms, tail), Object(ns)) =>
      SortIsPlain(ms, cs);
      SortKeepsHeight(PlainMembers(ms), cs);
      TObject(LeftMembers(Sort(ms, cs), Sort(ns, cs), cs), AfterSort(ms, tail, cs))
    case _ => t
  }

  function LeftItems(s: seq<Tree>, u: seq<Value>, cs: bool): (r: seq<Tree>)
    ensures |r| == |s|
    decreases ItemsHeight(PlainItems(s)), |s|
  {
    if s == [] || u == [] then s
    else
      PlainTails(s, []);
      [Left(s[0], u[0], cs)] + LeftItems(s[1..], u[1..], cs)
  }

  function LeftMembers(s: seq<Entry<Tree>>, u: seq<Entry<Value>>, cs: bool): (r: seq<Entry<Tree>>)
    ensures |r| == |s|
    decreases MembersHeight(PlainMembers(s)), |s| + |u|
  {
    if s == [] || u == [] then s
    else
      PlainTails([], s);
      var diff := Compare(s[0].key, u[0].key, cs);
      if diff == 0 then [Entry(s[0].key, Left(s[0].value, u[0].value, cs))] + LeftMembers(s[1..], u[1..], cs)
      else if diff < 0 then [s[0]] + LeftMembers(s[1..], u, cs)
      else LeftMembers(s, u[1..], cs)
  }

  // The tree stays the same up to member order

  lemma {:induction false} LeftKeepsCanon(t: Tree, b: Value, cs: bool)
    requires Distinct(Plain(t), cs)
    ensures Distinct(Plain(Left(t, b, cs)), cs) && Canonical(Plain(Left(t, b, cs)), cs) == Canonical(Plain(t), cs)
    decreases Height(Plain(t)), 0
  {
    match (t, b)
    case (TArray(s), Array(u)) =>
      assert Plain(t) == Array(PlainItems(s));
      LeftItemsKeepCanon(s, u, cs);
    case (TObject(ms, tail), Object(ns)) =>
      SortIsPlain(ms, cs);
      SortKeepsHeight(PlainMembers(ms), cs);
      SortKeepsValuesDistinct(PlainMembers(ms), cs, cs);
      LeftMembersKeepCanon(Sort(ms, cs), Sort(ns, cs), cs);
      SortedAlike(PlainMembers(ms), PlainMembers(LeftMembers(Sort(ms, cs), Sort(ns, cs), cs)), cs, cs);
    case _ =>
  }

  lemma {:induction false} LeftItemsKeepCanon(s: seq<Tree>, u: seq<Value>, cs: bool)
    requires Distinct(Array(PlainItems(s)), cs)
    ensures Distinct(Array(PlainItems(LeftItems(s, u, cs))), cs)
    ensures CanonItems(PlainItems(LeftItems(s, u, cs)), cs) == CanonItems(PlainItems(s), cs)
    decreases ItemsHeight(PlainItems(s)), |s|
  {
    if s != [] && u != [] {
      var r := LeftItems(s, u, cs);
      PlainTails(s, []);
      PlainTails(r, []);
      assert Distinct(PlainItems(s)[0], cs) && Distinct(Array(PlainItems(s)[1..]), cs);
      LeftKeepsCanon(s[0], u[0], cs);
      LeftItemsKeepCanon(s[1..], u[1..], cs);
      ItemsCons(PlainItems(r), PlainItems(s), cs);
    }
  }

  lemma {:induction false} ItemsCons(r: seq<Value>, s: seq<Value>, cs: bool)
    requires r != [] && |r| == |s| && Distinct(r[0], cs) && Distinct(Array(r[1..]), cs)
    requires Canonical(r[0], cs) == Canonical(s[0], cs) && CanonItems(r[1..], cs) == CanonItems(s[1..], cs)
    ensures Distinct(Array(r), cs) && CanonItems(r, cs) == CanonItems(s, cs)
  {
    CanonItemsCons(r, cs);
    CanonItemsCons(s, cs);
    forall i | 0 <= i < |r| ensures Distinct(r[i], cs) { assert i > 0 ==> r[i] == r[1..][i - 1]; }
  }

  lemma {:induction false} LeftMembersKeepCanon(s: seq<Entry<Tree>>, u: seq<Entry<Value>>, cs: bool)
    requires AllValuesDistinct(PlainMembers(s), cs)
    ensures Alike(PlainMembers(LeftMembers(s, u, cs)), PlainMembers(s), cs)
    decreases MembersHeight(PlainMembers(s)), |s| + |u|
  {
    if s != [] && u != [] {
      var r := LeftMembers(s, u, cs);
      var diff := Compare(s[0].key, u[0].key, cs);
      PlainTails([], s);
      PlainTails([], r);
      assert AllValuesDistinct(PlainMembers(s[1..]), cs) && Distinct(PlainMembers(s)[0].value, cs);
      if diff == 0 {
        LeftKeepsCanon(s[0].value, u[0].value, cs);
        LeftMembersKeepCanon(s[1..], u[1..], cs);
        AlikeCons(PlainMembers(r), PlainMembers(s), cs);
      } else if diff < 0 {
        LeftMembersKeepCanon(s[1..], u, cs);
        AlikeCons(PlainMembers(r), PlainMembers(s), cs);
      } else {
        LeftMembersKeepCanon(s, u[1..], cs);
      }
    }
  }

  lemma {:induction false} AlikeCons(r: seq<Entry<Value>>, s: seq<Entry<Value>>, cs: bool)
    requires r != [] && s != [] && Alike(r[1..], s[1..], cs) && r[0].key == s[0].key
    requires Canonical(r[0].value, cs) == Canonical(s[0].value, cs) && Distinct(r[0].value, cs)
    ensures Alike(r, s, cs)
  {
    forall i | 0 <= i < |s|
      ensures r[i].key == s[i].key && Canonical(r[i].value, cs) == Canonical(s[i].value, cs) && Distinct(r[i].value, cs)
    {
      if i > 0 { assert r[i] == r[1..][i - 1] && s[i] == s[1..][i - 1]; }
    }
  }

  // Whether the first children still know the last ones

  /** Every object that the generator sorts has its first and its last member in their places already. */
  predicate WalkKeepsEnds(a: Value, b: Value, cs: bool)
    decreases Height(a), 0
  {
    match (a, b)
    case (Array(s), Array(u)) => ItemWalkKeepsEnds(s, u, cs)
    case (Object(ms), Object(ns)) =>
      SortKeepsHeight(ms, cs);
      EndsStay(ms, cs) && MemberWalkKeepsEnds(Sort(ms, cs), Sort(ns, cs), cs)
    case _ => true
  }

  predicate ItemWalkKeepsEnds(s: seq<Value>, u: seq<Value>, cs: bool)
    decreases ItemsHeight(s), |s|
  {
    s == [] || u == [] || (WalkKeepsEnds(s[0], u[0], cs) && ItemWalkKeepsEnds(s[1..], u[1..], cs))
  }

  predicate MemberWalkKeepsEnds(s: seq<Entry<Value>>, u: seq<Entry<Value>>, cs: bool)
    decreases MembersHeight(s), |s| + |u|
  {
    s == [] || u == [] ||
    var diff := Compare(s[0].key, u[0].key, cs);
    if diff == 0 then WalkKeepsEnds(s[0].value, u[0].value, cs) && MemberWalkKeepsEnds(s[1..], u[1..], cs)
    else if diff < 0 then MemberWalkKeepsEnds(s[1..], u, cs)
    else MemberWalkKeepsEnds(s, u[1..], cs)
  }

  /** The generator leaves a sound tree sound exactly when it finds the ends of all objects in their places. */
  lemma {:induction false} LeftSound(t: Tree, b: Value, cs: bool)
    requires Sound(t)
    ensures Sound(Left(t, b, cs)) <==> WalkKeepsEnds(Plain(t), b, cs)
    decreases Height(Plain(t)), 0
  {
    match (t, b)
    case (TArray(s), Array(u)) =>
      assert SoundItems(s);
      LeftItemsSound(s, u, cs);
      assert Sound(Left(t, b, cs)) <==> SoundItems(LeftItems(s, u, cs));
    case (TObject(ms, tail), Object(ns)) =>
      SortIsPlain(ms, cs);
      SortKeepsHeight(PlainMembers(ms), cs);
      PlainEnds(ms, cs);
      SortKeepsTail(ms, tail, cs);
      forall i | 0 <= i < |ms| ensures Sound(Sort(ms, cs)[i].value) { var j := SortedFrom(ms, i, cs); }
      LeftMembersSound(Sort(ms, cs), Sort(ns, cs), cs);
    case _ =>
  }

  lemma {:induction false} LeftItemsSound(s: seq<Tree>, u: seq<Value>, cs: bool)
    requires SoundItems(s)
    ensures SoundItems(LeftItems(s, u, cs)) <==> ItemWalkKeepsEnds(PlainItems(s), u, cs)
    decreases ItemsHeight(PlainItems(s)), |s|
  {
    if s != [] && u != [] {
      PlainTails(s, []);
      LeftSound(s[0], u[0], cs);
      LeftItemsSound(s[1..], u[1..], cs);
      SoundCons(Left(s[0], u[0], cs), LeftItems(s[1..], u[1..], cs));
    }
  }

  lemma {:induction false} SoundMembersCons(e: Entry<Tree>, s: seq<Entry<Tree>>)
    ensures SoundMembers([e] + s) <==> Sound(e.value) && SoundMembers(s)
  {
    var r := [e] + s;
    assert r[0] == e && r[1..] == s;
    if SoundMembers(r) { assert forall i :: 0 <= i < |s| ==> s[i] == r[i + 1]; }
  }

  lemma {:induction false} LeftMembersSound(s: seq<Entry<Tree>>, u: seq<Entry<Value>>, cs: bool)
    requires SoundMembers(s)
    ensures SoundMembers(LeftMembers(s, u, cs)) <==> MemberWalkKeepsEnds(PlainMembers(s), u, cs)
    decreases MembersHeight(PlainMembers(s)), |s| + |u|
  {
    if s != [] && u != [] {
      PlainTails([], s);
      var diff := Compare(s[0].key, u[0].key, cs);
      if diff == 0 {
        LeftSound(s[0].value, u[0].value, cs);
        LeftMembersSound(s[1..], u[1..], cs);
        SoundMembersCons(Entry(s[0].key, Left(s[0].value, u[0].value, cs)), LeftMembers(s[1..], u[1..], cs));
      } else if diff < 0 {
        LeftMembersSound(s[1..], u, cs);
        SoundMembersCons(s[0], LeftMembers(s[1..], u, cs));
      } else {
        LeftMembersSound(s, u[1..], cs);
      }
    }
  }

  /** The round trip on the very tree that the patches were generated from: it works when the generator has found
      the ends of all objects in their places. */
  lemma {:induction false} RoundTripInPlace(from: Tree, to: Value, cs: bool)
    requires Sound(from) && Distinct(Plain(from), cs) && Distinct(to, cs) && Replayable(Plain(from), to, cs)
    requires WalkKeepsEnds(Plain(from), to, cs)
    ensures var r := ApplyTrees(Left(from, to, cs), GeneratePatches(Plain(from), to, cs), cs);
      r.Run? && r.status == 0 && Sound(r.doc) && Canonical(Plain(r.doc), cs) == Canonical(to, cs)
  {
    LeftKeepsCanon(from, to, cs);
    LeftSound(from, to, cs);
    SoundRoundTrip(Left(from, to, cs), Plain(from), to, cs);
  }

  // A member that is lost

  lemma {:induction false} OneAddition(path: string, l: string, k: string, key: string, cs: bool)
    requires Compare(l, k, cs) < 0 && Compare(k, key, cs) < 0
    ensures PatchMembers(path, [Entry(l, Null), Entry(k, Null)], [Entry(l, Null), Entry(k, Null), Entry(key, Null)], cs)
         == [ComposePatch("add", path, Some(key), Some(Null))]
  {
    var a, b, c := Entry(l, Null), Entry(k, Null), Entry(key, Null);
    CompareIsTotalOrder(l, l, l, cs);
    CompareIsTotalOrder(k, k, k, cs);
    assert [a, b][1..] == [b] && [b][1..] == [] && [a, b, c][1..] == [b, c] && [b, c][1..] == [c] && [c][1..] == [];
    var none: seq<Entry<Value>> := [];
    assert PatchMembers(path, none, none, cs) == [];
    assert PatchMembers(path, none, [c], cs) == [ComposePatch("add", path, Some(key), Some(Null))];
    assert PatchMembers(path, [b], [b, c], cs) == [] + PatchMembers(path, none, [c], cs);
  }

  /** Patches from {"b": null, "a": null} to {"a": null, "b": null, "c": null}, applied to the first tree itself:
      "c" does not get there. */
  lemma {:induction false} OriginalMissesMember(cs: bool)
    ensures var from, to := Object([Entry("b", Null), Entry("a", Null)]),
                            Object([Entry("a", Null), Entry("b", Null), Entry("c", Null)]);
      var r := ApplyTrees(Left(Fresh(from), to, cs), GeneratePatches(from, to, cs), cs);
      r.Run? && r.status == 0 && Plain(r.doc) == Object([Entry("a", Null), Entry("b", Null)])
  {
    FoldedLetters(cs);
    OriginalMisses("b", "a", "c", cs);
  }

  lemma {:induction false} OriginalMisses(k: string, l: string, key: string, cs: bool)
    requires Compare(k, l, cs) > 0 && Compare(l, k, cs) < 0 && Compare(k, key, cs) < 0
    requires PlainKey(key) && '/' !in key && Fold(key, cs) != Fold(k, cs) && Fold(key, cs) != Fold(l, cs)
    ensures var from, to := Object([Entry(k, Null), Entry(l, Null)]),
                            Object([Entry(l, Null), Entry(k, Null), Entry(key, Null)]);
      var r := ApplyTrees(Left(Fresh(from), to, cs), GeneratePatches(from, to, cs), cs);
      r.Run? && r.status == 0 && Plain(r.doc) == Object([Entry(l, Null), Entry(k, Null)])
  {
    var ms, ns := [Entry(k, Null), Entry(l, Null)], [Entry(l, Null), Entry(k, Null), Entry(key, Null)];
    var b, a := Entry(k, TLeaf(Null)), Entry(l, TLeaf(Null));
    assert FreshMembers(ms) == [b, a];
    LeavesLeft(b, a, ns, cs);
    OnePatchOnly(k, l, key, cs);
    TwoKeys(a, b, cs);
    DroppedInPlace(Left(Fresh(Object(ms)), Object(ns), cs), [a, b], key, Null, cs);
    assert PlainMembers([a, b]) == [Entry(l, Null), Entry(k, Null)];
  }

  lemma {:induction false} DroppedInPlace(t: Tree, es: seq<Entry<Tree>>, key: string, v: Value, cs: bool)
    requires t == TObject(es, Nowhere) && es != []
    requires PlainKey(key) && '/' !in key && Fold(key, cs) !in KeySet(es, cs)
    ensures ApplyTrees(t, [ValuePatch("add", "/" + key, v)], cs) == Run(0, t)
  {
    RootAdd(es, Nowhere, key, v, cs);
    OneTreePatch(t, ValuePatch("add", "/" + key, v), cs);
  }

  lemma {:induction false} OnePatchOnly(k: string, l: string, key: string, cs: bool)
    requires Compare(k, l, cs) > 0 && Compare(l, k, cs) < 0 && Compare(k, key, cs) < 0 && PlainKey(key)
    ensures GeneratePatches(Object([Entry(k, Null), Entry(l, Null)]),
                            Object([Entry(l, Null), Entry(k, Null), Entry(key, Null)]), cs)
         == [ValuePatch("add", "/" + key, Null)]
  {
    var ms, ns := [Entry(k, Null), Entry(l, Null)], [Entry(l, Null), Entry(k, Null), Entry(key, Null)];
    SortTwo(ms[0], ms[1], cs);
    assert StrictlyAscending(ns, cs) by { assert ns[0].key == l && ns[1].key == k && ns[2].key == key; }
    OneAddition([], l, k, key, cs);
    PlainEncoding(key);
    assert [] + "/" + EncodeToken(key) == "/" + key;
  }

  lemma {:induction false} LeavesLeft(b: Entry<Tree>, a: Entry<Tree>, ns: seq<Entry<Value>>, cs: bool)
    requires Compare(b.key, a.key, cs) > 0 && a.value.TLeaf? && b.value.TLeaf?
    ensures Left(TObject([b, a], At(1)), Object(ns), cs) == TObject([a, b], Nowhere)
  {
    TwoSwapped(b, a, cs);
    LeavesAreLeft([a, b], Sort(ns, cs), cs);
  }

  lemma {:induction false} LeavesAreLeft(s: seq<Entry<Tree>>, u: seq<Entry<Value>>, cs: bool)
    requires AllLeaves(s)
    ensures LeftMembers(s, u, cs) == s
    decreases |s| + |u|
  {
    if s != [] && u != [] {
      var diff := Compare(s[0].key, u[0].key, cs);
      if diff == 0 {
        LeavesAreLeft(s[1..], u[1..], cs);
      } else if diff < 0 {
        LeavesAreLeft(s[1..], u, cs);
      } else {
        LeavesAreLeft(s, u[1..], cs);
      }
    }
  }
}
