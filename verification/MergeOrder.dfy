/** In which order the members of a merged object stand: those that the patch does not name stay in front as they
    were, those that it sets follow in the order of the patch, under the names that the patch gives them. */
module MergeOrder {
  import opened CText
  import opened Json
  import opened Options
  import opened MergePatch
  import opened Sequences

  /** The members that are not named. */
  function Unnamed<T>(ms: seq<Entry<T>>, changes: seq<Entry<T>>, cs: bool): seq<Entry<T>> {
    if ms == [] then []
    else
      var rest := Unnamed(ms[1..], changes, cs);
      if Fold(ms[0].key, cs) in KeySet(changes, cs) then rest else [ms[0]] + rest
  }

  /** The members that a patch sets, each merged with the one it replaces. */
  function Updates(ms: seq<Entry<Value>>, changes: seq<Entry<Value>>, cs: bool): seq<Entry<Value>> {
    if changes == [] then []
    else
      var e, rest := changes[0], Updates(ms, changes[1..], cs);
      if e.value.Null? then rest else [Entry(e.key, Merge(Lookup(ms, e.key, cs), e.value, cs))] + rest
  }

  // One member deleted

  lemma {:induction false} DeleteStep<T>(ms: seq<Entry<T>>, key: string, cs: bool)
    requires ms != []
    ensures DeleteKey(ms, key, cs)
         == if Fold(ms[0].key, cs) == Fold(key, cs) then ms[1..] else [ms[0]] + DeleteKey(ms[1..], key, cs)
  {
    var i := FindMember(ms, key, cs);
    if 0 < i < |ms| { assert ms[..i] + ms[i + 1..] == [ms[0]] + (ms[1..][..i - 1] + ms[1..][i..]); }
  }

  lemma {:induction false} LookupStep<T>(e: Entry<T>, ms: seq<Entry<T>>, key: string, cs: bool)
    ensures Lookup([e] + ms, key, cs) == if Fold(e.key, cs) == Fold(key, cs) then Some(e.value) else Lookup(ms, key, cs)
  {
    assert ([e] + ms)[1..] == ms;
  }

  lemma {:induction false} DeletedIsGone<T>(ms: seq<Entry<T>>, key: string, cs: bool)
    requires DistinctKeys(ms, cs)
    ensures var rest := DeleteKey(ms, key, cs);
      DistinctKeys(rest, cs) && KeySet(rest, cs) == KeySet(ms, cs) - {Fold(key, cs)}
  {
    if ms != [] {
      DeleteStep(ms, key, cs);
      DeletedIsGone(ms[1..], key, cs);
      if Fold(ms[0].key, cs) != Fold(key, cs) { InFrontOfOthers(ms[0], DeleteKey(ms[1..], key, cs), cs); }
    }
  }

  lemma {:induction false} InFrontOfOthers<T>(e: Entry<T>, ms: seq<Entry<T>>, cs: bool)
    ensures KeySet([e] + ms, cs) == {Fold(e.key, cs)} + KeySet(ms, cs)
    ensures DistinctKeys([e] + ms, cs) <==> Fold(e.key, cs) !in KeySet(ms, cs) && DistinctKeys(ms, cs)
  {
    assert ([e] + ms)[1..] == ms;
  }

  lemma {:induction false} AppendStaysDistinct<T>(ms: seq<Entry<T>>, e: Entry<T>, cs: bool)
    requires DistinctKeys(ms, cs) && Fold(e.key, cs) !in KeySet(ms, cs)
    ensures DistinctKeys(ms + [e], cs) && KeySet(ms + [e], cs) == KeySet(ms, cs) + {Fold(e.key, cs)}
  {
    if ms == [] {
      assert ms + [e] == [e] && KeySet([e][1..], cs) == {};
    } else {
      AppendStaysDistinct(ms[1..], e, cs);
      assert (ms + [e])[1..] == ms[1..] + [e];
    }
  }

  /** Other members are found as before when one is deleted and another one of its name comes last. */
  lemma {:induction false} OthersAreFound<T>(
      ms: seq<Entry<T>>, last: seq<Entry<T>>, key: string, name: string, cs: bool)
    requires Fold(name, cs) != Fold(key, cs) && (last == [] || (|last| == 1 && Fold(last[0].key, cs) == Fold(key, cs)))
    ensures Lookup(DeleteKey(ms, key, cs) + last, name, cs) == Lookup(ms, name, cs)
  {
    LookupInFront(DeleteKey(ms, key, cs), last, name, cs);
    DeletedOrFound(ms, key, name, cs);
  }

  lemma {:induction false} DeletedOrFound<T>(ms: seq<Entry<T>>, key: string, name: string, cs: bool)
    requires Fold(name, cs) != Fold(key, cs)
    ensures Lookup(DeleteKey(ms, key, cs), name, cs) == Lookup(ms, name, cs)
  {
    if ms != [] {
      var e, rest := ms[0], ms[1..];
      assert ms == [e] + rest;
      DeleteStep(ms, key, cs);
      LookupStep(e, rest, name, cs);
      LookupStep(e, DeleteKey(rest, key, cs), name, cs);
      DeletedOrFound(rest, key, name, cs);
    }
  }

  lemma {:induction false} LookupInFront<T>(ms: seq<Entry<T>>, last: seq<Entry<T>>, name: string, cs: bool)
    requires last == [] || (|last| == 1 && Fold(last[0].key, cs) != Fold(name, cs))
    ensures Lookup(ms + last, name, cs) == Lookup(ms, name, cs)
  {
    if ms == [] {
      assert ms + last == last;
      if last != [] { LookupStep(last[0], [], name, cs); }
    } else {
      assert ms + last == [ms[0]] + (ms[1..] + last) && ms == [ms[0]] + ms[1..];
      LookupStep(ms[0], ms[1..] + last, name, cs);
      LookupStep(ms[0], ms[1..], name, cs);
      LookupInFront(ms[1..], last, name, cs);
    }
  }

  // One round of the loop

  lemma {:induction false} UpdatesGoOn(
      ms: seq<Entry<Value>>, last: seq<Entry<Value>>, key: string, changes: seq<Entry<Value>>, cs: bool)
    requires Fold(key, cs) !in KeySet(changes, cs)
    requires last == [] || (|last| == 1 && Fold(last[0].key, cs) == Fold(key, cs))
    ensures Updates(DeleteKey(ms, key, cs) + last, changes, cs) == Updates(ms, changes, cs)
  {
    if changes != [] {
      OthersAreFound(ms, last, key, changes[0].key, cs);
      UpdatesGoOn(ms, last, key, changes[1..], cs);
    }
  }

  lemma {:induction false} UnnamedGoOn<T>(ms: seq<Entry<T>>, changes: seq<Entry<T>>, cs: bool)
    requires DistinctKeys(ms, cs) && changes != []
    ensures Unnamed(DeleteKey(ms, changes[0].key, cs), changes[1..], cs) == Unnamed(ms, changes, cs)
  {
    if ms != [] {
      var key := changes[0].key;
      DeleteStep(ms, key, cs);
      UnnamedGoOn(ms[1..], changes, cs);
      if Fold(ms[0].key, cs) == Fold(key, cs) {
        DeleteOfNone(ms[1..], key, cs);
      } else {
        assert DeleteKey(ms, key, cs)[1..] == DeleteKey(ms[1..], key, cs);
      }
    }
  }

  lemma {:induction false} DeleteOfNone<T>(ms: seq<Entry<T>>, key: string, cs: bool)
    requires Fold(key, cs) !in KeySet(ms, cs)
    ensures DeleteKey(ms, key, cs) == ms
  {
    var i := FindMember(ms, key, cs);
  }

  lemma {:induction false} LastIsUnnamed<T>(ms: seq<Entry<T>>, e: Entry<T>, changes: seq<Entry<T>>, cs: bool)
    requires Fold(e.key, cs) !in KeySet(changes, cs)
    ensures Unnamed(ms + [e], changes, cs) == Unnamed(ms, changes, cs) + [e]
  {
    if ms == [] {
      assert ms + [e] == [e] && [e][1..] == [];
    } else {
      LastIsUnnamed(ms[1..], e, changes, cs);
      assert (ms + [e])[1..] == ms[1..] + [e];
    }
  }

  lemma {:induction false} MergeStep(ms: seq<Entry<Value>>, changes: seq<Entry<Value>>, cs: bool)
    requires changes != []
    ensures var e, rest := changes[0], changes[1..];
      var others := DeleteKey(ms, e.key, cs);
      var w := if e.value.Null? then [] else [Entry(e.key, Merge(Lookup(ms, e.key, cs), e.value, cs))];
      && MergeMembers(ms, changes, cs) == MergeMembers(others + w, rest, cs)
      && Updates(ms, changes, cs) == w + Updates(ms, rest, cs)
  {
    assert DeleteKey(ms, changes[0].key, cs) + [] == DeleteKey(ms, changes[0].key, cs);
  }

  lemma {:induction false} DeleteThenPutLast<T>(ms: seq<Entry<T>>, w: seq<Entry<T>>, changes: seq<Entry<T>>, cs: bool)
    requires DistinctKeys(ms, cs) && DistinctKeys(changes, cs) && changes != []
    requires w == [] || (|w| == 1 && w[0].key == changes[0].key)
    ensures var others := DeleteKey(ms, changes[0].key, cs) + w;
      DistinctKeys(others, cs) && Unnamed(others, changes[1..], cs) == Unnamed(ms, changes, cs) + w
  {
    var others := DeleteKey(ms, changes[0].key, cs);
    DeletedIsGone(ms, changes[0].key, cs);
    UnnamedGoOn(ms, changes, cs);
    if w == [] {
      assert others + w == others;
    } else {
      assert w == [w[0]];
      AppendStaysDistinct(others, w[0], cs);
      LastIsUnnamed(others, w[0], changes[1..], cs);
    }
  }

  /** What the loop over the patch makes of the members of the target. */
  lemma {:induction false} MergedStandInOrder(ms: seq<Entry<Value>>, changes: seq<Entry<Value>>, cs: bool)
    requires DistinctKeys(ms, cs) && DistinctKeys(changes, cs)
    ensures MergeMembers(ms, changes, cs) == Unnamed(ms, changes, cs) + Updates(ms, changes, cs)
    decreases |changes|
  {
    if changes == [] {
      AllAreUnnamed(ms, cs);
    } else {
      var e, rest := changes[0], changes[1..];
      var w := if e.value.Null? then [] else [Entry(e.key, Merge(Lookup(ms, e.key, cs), e.value, cs))];
      MergeStep(ms, changes, cs);
      DeleteThenPutLast(ms, w, changes, cs);
      UpdatesGoOn(ms, w, e.key, rest, cs);
      MergedStandInOrder(DeleteKey(ms, e.key, cs) + w, rest, cs);
      Regroup(Unnamed(ms, changes, cs), w, Updates(ms, rest, cs));
    }
  }

  lemma {:induction false} AllAreUnnamed<T>(ms: seq<Entry<T>>, cs: bool)
    ensures Unnamed(ms, [], cs) == ms
  {
    if ms != [] { AllAreUnnamed(ms[1..], cs); }
  }
}
