/** The loops of compare_json: two lists are walked side by side, and the first tree is sorted on the way. */
module CompareLoops {
  import opened CText
  import opened Json
  import opened MergeSort
  import opened Equality
  import opened Sequences
  import opened Tails
  import opened Trees

  /** compare_json: whether the trees are equal, and what is left of the first one. */
  method CompareTree(a: Tree, b: Value, cs: bool) returns (same: bool, left: Tree)
    ensures same == CompareJson(Plain(a), b, cs) && left == ComparedTree(a, b, cs)
    decreases Height(Plain(a)), 0
  {
    left := a;
    match (a, b) {
      case (TLeaf(v), _) =>
        same := SameType(v, b) && (v.Number? ==> v.n == b.n) && (v.String? ==> v.s == b.s);
      case (TArray(s), Array(u)) =>
        var items;
        same, items := CompareElements(s, u, cs);
        left := TArray(items);
      case (TObject(ms, tail), Object(ns)) =>
        SortIsPlain(ms, cs);
        SortKeepsHeight(PlainMembers(ms), cs);
        var members;
        same, members := CompareSorted(Sort(ms, cs), Sort(ns, cs), cs);
        left := TObject(members, AfterSort(ms, tail, cs));
      case _ =>
        same := false;
    }
  }

  lemma ItemsUnfold(s: seq<Tree>, u: seq<Value>, cs: bool)
    requires s != [] && u != []
    ensures var same := CompareJson(Plain(s[0]), u[0], cs);
      && WalkItems(PlainItems(s), u, cs) == (same && WalkItems(PlainItems(s[1..]), u[1..], cs))
      && ComparedTrees(s, u, cs)
         == [ComparedTree(s[0], u[0], cs)] + if same then ComparedTrees(s[1..], u[1..], cs) else s[1..]
  {
    PlainTails(s, []);
  }

  /** Two members are compared. */
  predicate SameMember(e: Entry<Tree>, f: Entry<Value>, cs: bool) {
    Compare(e.key, f.key, cs) == 0 && CompareJson(Plain(e.value), f.value, cs)
  }

  function ComparedMember(e: Entry<Tree>, f: Entry<Value>, cs: bool): Entry<Tree> {
    if Compare(e.key, f.key, cs) != 0 then e else Entry(e.key, ComparedTree(e.value, f.value, cs))
  }

  lemma EntriesUnfold(s: seq<Entry<Tree>>, u: seq<Entry<Value>>, cs: bool)
    requires s != [] && u != []
    ensures var same := SameMember(s[0], u[0], cs);
      && WalkMembers(PlainMembers(s), u, cs) == (same && WalkMembers(PlainMembers(s[1..]), u[1..], cs))
      && ComparedEntries(s, u, cs)
         == [ComparedMember(s[0], u[0], cs)] + if same then ComparedEntries(s[1..], u[1..], cs) else s[1..]
  {
    PlainTails([], s);
  }

  method CompareMember(e: Entry<Tree>, f: Entry<Value>, cs: bool) returns (same: bool, left: Entry<Tree>)
    ensures same == SameMember(e, f, cs) && left == ComparedMember(e, f, cs)
    decreases Height(Plain(e.value)), 1
  {
    if Compare(e.key, f.key, cs) != 0 {
      return false, e;
    }
    var value;
    same, value := CompareTree(e.value, f.value, cs);
    left := Entry(e.key, value);
  }

  method CompareElements(s: seq<Tree>, u: seq<Value>, cs: bool) returns (same: bool, left: seq<Tree>)
    ensures same == WalkItems(PlainItems(s), u, cs) && left == ComparedTrees(s, u, cs)
    decreases ItemsHeight(PlainItems(s)), 1
  {
    var i: nat := 0;
    var done: seq<Tree> := [];
    assert s[0..] == s && u[0..] == u;
    while i < |s| && i < |u|
      invariant i <= |s| && i <= |u|
      invariant WalkItems(PlainItems(s), u, cs) == WalkItems(PlainItems(s[i..]), u[i..], cs)
      invariant ComparedTrees(s, u, cs) == done + ComparedTrees(s[i..], u[i..], cs)
    {
      HeadAndTail(s, i);
      HeadAndTail(u, i);
      ItemsUnfold(s[i..], u[i..], cs);
      ItemHeight(PlainItems(s), i);
      var kid;
      same, kid := CompareTree(s[i], u[i], cs);
      if !same {
        Regroup(done, [kid], s[i + 1..]);
        return false, (done + [kid]) + s[i + 1..];
      }
      Regroup(done, [kid], ComparedTrees(s[i + 1..], u[i + 1..], cs));
      done := done + [kid];
      i := i + 1;
    }
    return i == |s| && i == |u|, done + s[i..];
  }

  method CompareSorted(s: seq<Entry<Tree>>, u: seq<Entry<Value>>, cs: bool)
      returns (same: bool, left: seq<Entry<Tree>>)
    ensures same == WalkMembers(PlainMembers(s), u, cs) && left == ComparedEntries(s, u, cs)
    decreases MembersHeight(PlainMembers(s)), 3
  {
    same, left := WalkBoth(s, u, WalkMembers(PlainMembers(s), u, cs), ComparedEntries(s, u, cs), cs);
  }

  method WalkBoth(s: seq<Entry<Tree>>, u: seq<Entry<Value>>, ghost equal: bool, ghost goal: seq<Entry<Tree>>, cs: bool)
      returns (same: bool, left: seq<Entry<Tree>>)
    requires Walked([], s, u, equal, goal, cs)
    ensures same == equal && left == goal
    decreases MembersHeight(PlainMembers(s)), 2
  {
    var i: nat := 0;
    var done: seq<Entry<Tree>> := [];
    assert s[0..] == s && u[0..] == u;
    while i < |s| && i < |u|
      invariant i <= |s| && i <= |u| && Walked(done, s[i..], u[i..], equal, goal, cs)
    {
      HeadAndTail(s, i);
      HeadAndTail(u, i);
      WalkOn(done, s[i..], u[i..], equal, goal, cs);
      MemberHeight(PlainMembers(s), i);
      var e;
      same, e := CompareMember(s[i], u[i], cs);
      done := done + [e];
      if !same {
        return false, done + s[i + 1..];
      }
      i := i + 1;
    }
    WalkEnds(done, s[i..], u[i..], equal, goal, cs);
    return i == |s| && i == |u|, done + s[i..];
  }

  /** What is done and what is left of both lists. */
  ghost predicate Walked(done: seq<Entry<Tree>>, s: seq<Entry<Tree>>, u: seq<Entry<Value>>,
                         equal: bool, goal: seq<Entry<Tree>>, cs: bool) {
    equal == WalkMembers(PlainMembers(s), u, cs) && goal == done + ComparedEntries(s, u, cs)
  }

  lemma {:induction false} WalkOn(done: seq<Entry<Tree>>, s: seq<Entry<Tree>>, u: seq<Entry<Value>>,
                                  equal: bool, goal: seq<Entry<Tree>>, cs: bool)
    requires Walked(done, s, u, equal, goal, cs) && s != [] && u != []
    ensures var next := done + [ComparedMember(s[0], u[0], cs)];
      if SameMember(s[0], u[0], cs) then Walked(next, s[1..], u[1..], equal, goal, cs)
      else !equal && goal == next + s[1..]
  {
    var e := [ComparedMember(s[0], u[0], cs)];
    EntriesUnfold(s, u, cs);
    Regroup(done, e, s[1..]);
    Regroup(done, e, ComparedEntries(s[1..], u[1..], cs));
  }

  lemma {:induction false} WalkEnds(done: seq<Entry<Tree>>, s: seq<Entry<Tree>>, u: seq<Entry<Value>>,
                                    equal: bool, goal: seq<Entry<Tree>>, cs: bool)
    requires Walked(done, s, u, equal, goal, cs) && (s == [] || u == [])
    ensures equal == (s == [] && u == []) && goal == done + s
  {
  }
}
