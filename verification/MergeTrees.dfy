/** merge_patch on a tree whose objects remember what their first member says about the last one. */
module MergeTrees {
  import opened CText
  import opened Json
  import opened Options
  import opened MergePatch
  import opened Tails
  import opened Trees
  import opened TreePatch

  /** The merged tree, or none when a pointer to an item that is no child any more is followed. */
  function MergeTree(target: Option<Tree>, patch: Value, cs: bool): Option<Tree>
    decreases patch, 0
  {
    match patch
    case Object(changes) =>
      if target.Some? && target.value.TObject? then MergeChanges(target.value.members, target.value.tail, changes, cs)
      else MergeChanges([], Nowhere, changes, cs)
    case _ => Some(Fresh(patch))
  }

  function MergeChanges(ms: seq<Entry<Tree>>, tail: Tail, changes: seq<Entry<Value>>, cs: bool): Option<Tree>
    decreases changes, 1
  {
    if changes == [] then Some(TObject(ms, tail))
    else
      var e := changes[0];
      var others := Without(ms, tail, e.key, cs);
      if e.value.Null? then MergeChanges(others.items, others.tail, changes[1..], cs)
      else
        match MergeTree(Lookup(ms, e.key, cs), e.value, cs)
        case None => None
        case Some(v) =>
          match Appended(others.items, others.tail, Entry(e.key, v))
          case None => None
          case Some(all) => MergeChanges(all.items, all.tail, changes[1..], cs)
  }

  function PlainOption(t: Option<Tree>): Option<Value> {
    if t.Some? then Some(Plain(t.value)) else None
  }

  /** A sound tree is merged as specified and stays sound. */
  lemma {:induction false} MergeSound(target: Option<Tree>, patch: Value, cs: bool)
    requires target.Some? ==> Sound(target.value)
    ensures var r := MergeTree(target, patch, cs);
      r.Some? && Sound(r.value) && Plain(r.value) == Merge(PlainOption(target), patch, cs)
    decreases patch, 0
  {
    FreshIsSound(patch);
    if patch.Object? {
      if target.Some? && target.value.TObject? {
        ChangesSound(target.value.members, target.value.tail, patch.members, cs);
      } else {
        ChangesSound([], Nowhere, patch.members, cs);
        assert PlainMembers([]) == [];
      }
    }
  }

  lemma {:induction false} ChangesSound(ms: seq<Entry<Tree>>, tail: Tail, changes: seq<Entry<Value>>, cs: bool)
    requires Knows(|ms|, tail) && SoundMembers(ms)
    ensures var r := MergeChanges(ms, tail, changes, cs);
      r.Some? && Sound(r.value) && Plain(r.value) == Object(MergeMembers(PlainMembers(ms), changes, cs))
    decreases changes, 1
  {
    if changes != [] {
      var e := changes[0];
      var others := Without(ms, tail, e.key, cs);
      PlainWithout(ms, tail, e.key, cs);
      if e.value.Null? {
        ChangesSound(others.items, others.tail, changes[1..], cs);
      } else {
        var replaced := Lookup(ms, e.key, cs);
        LookupIsPlain(ms, e.key, cs);
        MergeSound(replaced, e.value, cs);
        var v := MergeTree(replaced, e.value, cs).value;
        AppendedIsPlain(others.items, others.tail, e.key, v);
        var all := Appended(others.items, others.tail, Entry(e.key, v)).value;
        ChangesSound(all.items, all.tail, changes[1..], cs);
      }
    }
  }

  lemma {:induction false} LookupIsPlain(ms: seq<Entry<Tree>>, key: string, cs: bool)
    ensures PlainOption(Lookup(ms, key, cs)) == Lookup(PlainMembers(ms), key, cs)
    ensures SoundMembers(ms) && Lookup(ms, key, cs).Some? ==> Sound(Lookup(ms, key, cs).value)
  {
    PlainFind(ms, key, cs);
  }

  /** One new member for an object: it gets there exactly when the first member knows the last one. */
  lemma {:induction false} NewMemberMerges(ms: seq<Entry<Tree>>, tail: Tail, key: string, v: Value, cs: bool)
    requires Fold(key, cs) !in KeySet(ms, cs) && !v.Null? && !v.Object?
    ensures var r := MergeTree(Some(TObject(ms, tail)), Object([Entry(key, v)]), cs);
      && (r.Some? && Plain(r.value) == Merge(Some(Plain(TObject(ms, tail))), Object([Entry(key, v)]), cs)
          <==> Knows(|ms|, tail))
      && (ms != [] && tail == Nowhere ==> r == Some(TObject(ms, tail)))
  {
    PlainWithout(ms, tail, key, cs);
    FreshIsSound(v);
    AppendedIsPlain(ms, tail, key, Fresh(v));
    OneChange(PlainMembers(ms), key, v, cs);
    OneTreeChange(ms, tail, key, v, cs);
  }

  lemma {:induction false} OneTreeChange(ms: seq<Entry<Tree>>, tail: Tail, key: string, v: Value, cs: bool)
    requires Fold(key, cs) !in KeySet(ms, cs) && !v.Null? && !v.Object?
    ensures var r := Appended(ms, tail, Entry(key, Fresh(v)));
      MergeChanges(ms, tail, [Entry(key, v)], cs)
      == if r.Some? then Some(TObject(r.value.items, r.value.tail)) else None
  {
    assert [Entry(key, v)][1..] == [];
    assert MergeTree(Lookup(ms, key, cs), v, cs) == Some(Fresh(v));
  }

  lemma {:induction false} OneChange(ms: seq<Entry<Value>>, key: string, v: Value, cs: bool)
    requires !v.Null? && !v.Object?
    ensures MergeMembers(ms, [Entry(key, v)], cs) == DeleteKey(ms, key, cs) + [Entry(key, v)]
  {
    assert [Entry(key, v)][1..] == [];
  }
}
