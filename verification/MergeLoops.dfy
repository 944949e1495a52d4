/** The loops of merge_patch and generate_merge_patch. */
module MergeLoops {
  import opened Json
  import opened Options
  import opened CText
  import opened Equality
  import opened Comparison
  import opened MergePatch
  import opened Sequences
  import MergeSort

  /** merge_patch: each member of the patch changes the target in turn. With distinct keys the result is
      what section 2 of RFC 7396 computes. */
  method MergeInto(target: Option<Value>, patch: Value, cs: bool) returns (r: Value)
    ensures r == Merge(target, patch, cs)
    ensures Distinct(patch, cs) && (target.Some? ==> Distinct(target.value, cs)) ==>
              Canonical(r, cs) == RfcMerge(CanonOption(target, cs), Canonical(patch, cs))
    decreases patch
  {
    if Distinct(patch, cs) && (target.Some? ==> Distinct(target.value, cs)) {
      MergeRefinesRfc(target, patch, cs);
    }
    if !patch.Object? {
      return patch;
    }
    var members := if target.Some? && target.value.Object? then target.value.members else [];
    ghost var whole := MergeMembers(members, patch.members, cs);
    var i: nat := 0;
    assert patch.members[0..] == patch.members;
    while i < |patch.members|
      invariant i <= |patch.members|
      invariant whole == MergeMembers(members, patch.members[i..], cs)
    {
      var child := patch.members[i];
      HeadAndTail(patch.members, i);
      if child.value.Null? {
        members := DeleteKey(members, child.key, cs);
      } else {
        var replaced := Lookup(members, child.key, cs);
        members := DeleteKey(members, child.key, cs);
        var replacement := MergeInto(replaced, child.value, cs);
        members := members + [Entry(child.key, replacement)];
      }
      i := i + 1;
    }
    return Object(members);
  }

  /** generate_merge_patch: the walk over two sorted member lists. */
  method GenerateMerge(from: Value, to: Value, cs: bool) returns (patch: Option<Value>)
    ensures patch == Generate(from, to, cs)
    decreases Height(from), 1
  {
    if !to.Object? || !from.Object? {
      return Some(to);
    }
    var f, t := MergeSort.Sort(from.members, cs), MergeSort.Sort(to.members, cs);
    SortKeepsHeight(from.members, cs);
    var changes := GenerateChanges(f, t, cs);
    return if changes == [] then None else Some(Object(changes));
  }

  method GenerateChanges(f: seq<Entry<Value>>, t: seq<Entry<Value>>, cs: bool) returns (changes: seq<Entry<Value>>)
    ensures changes == GenerateMembers(f, t, cs)
    decreases MembersHeight(f), 3
  {
    ghost var whole := GenerateMembers(f, t, cs);
    changes := [];
    var i: nat, j: nat := 0, 0;
    assert f[0..] == f && t[0..] == t;
    while i < |f| || j < |t|
      invariant i <= |f| && j <= |t|
      invariant whole == changes + GenerateMembers(f[i..], t[j..], cs)
      decreases |f| - i + |t| - j
    {
      if i < |f| { HeadAndTail(f, i); }
      if j < |t| { HeadAndTail(t, j); }
      var diff := if i == |f| then 1 else if j == |t| then -1 else Order(f[i].key, t[j].key);
      if diff < 0 {
        Regroup(changes, [Entry(f[i].key, Null)], GenerateMembers(f[i + 1..], t[j..], cs));
        changes := changes + [Entry(f[i].key, Null)];
        i := i + 1;
      } else if diff > 0 {
        Regroup(changes, [Entry(t[j].key, t[j].value)], GenerateMembers(f[i..], t[j + 1..], cs));
        changes := changes + [Entry(t[j].key, t[j].value)];
        j := j + 1;
      } else {
        MemberHeight(f, i);
        var change := GenerateChange(f[i], t[j], cs);
        Regroup(changes, change, GenerateMembers(f[i + 1..], t[j + 1..], cs));
        changes := changes + change;
        i, j := i + 1, j + 1;
      }
    }
  }

  /** A key that both objects have: unless the values are equal, a nested patch for what the comparison has left
      of them. */
  method GenerateChange(e: Entry<Value>, g: Entry<Value>, cs: bool) returns (change: seq<Entry<Value>>)
    ensures forall f, t :: f != [] && t != [] && f[0] == e && t[0] == g && Order(e.key, g.key) == 0 ==>
      GenerateMembers(f, t, cs) == change + GenerateMembers(f[1..], t[1..], cs)
    decreases Height(e.value), 2
  {
    change := [];
    if !CompareJson(e.value, g.value, cs) {
      ComparedKeepsHeight(e.value, g.value, cs);
      var nested := GenerateMerge(Compared(e.value, g.value, cs), Compared(g.value, e.value, cs), false);
      if nested.Some? {
        change := [Entry(g.key, nested.value)];
      }
    }
  }
}
