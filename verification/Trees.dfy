/** Trees whose objects remember what their first member says about the last one. */
module Trees {
  import opened CText
  import opened Json
  import opened MergeSort
  import opened Equality
  import opened Pointer
  import opened Patch
  import opened Tails
  import opened Comparison

  type Scalar = v: Value | !v.Array? && !v.Object? witness Null

  /** An item and everything below it. Elements of arrays always know the last one, since nothing sorts them. */
  datatype Tree = TLeaf(v: Scalar) | TArray(items: seq<Tree>) | TObject(members: seq<Entry<Tree>>, tail: Tail)

  /** The tree that a walk along next and child sees. */
  function Plain(t: Tree): Value
    decreases t
  {
    match t
    case TLeaf(v) => v
    case TArray(items) => Array(PlainItems(items))
    case TObject(ms, _) => Object(PlainMembers(ms))
  }

  function PlainItems(items: seq<Tree>): (r: seq<Value>)
    ensures |r| == |items|
    decreases items
  {
    seq(|items|, i requires 0 <= i < |items| => Plain(items[i]))
  }

  function PlainMembers(ms: seq<Entry<Tree>>): (r: seq<Entry<Value>>)
    ensures |r| == |ms|
    decreases ms
  {
    seq(|ms|, i requires 0 <= i < |ms| => Entry(ms[i].key, Plain(ms[i].value)))
  }

  /** A tree that was parsed, duplicated or built item by item. */
  function Fresh(v: Value): (t: Tree)
    decreases v
  {
    match v
    case Array(items) => TArray(FreshItems(items))
    case Object(ms) => TObject(FreshMembers(ms), if ms == [] then Nowhere else At(|ms| - 1))
    case _ => TLeaf(v)
  }

  function FreshItems(items: seq<Value>): (r: seq<Tree>)
    ensures |r| == |items|
    decreases items
  {
    seq(|items|, i requires 0 <= i < |items| => Fresh(items[i]))
  }

  function FreshMembers(ms: seq<Entry<Value>>): (r: seq<Entry<Tree>>)
    ensures |r| == |ms|
    decreases ms
  {
    seq(|ms|, i requires 0 <= i < |ms| => Entry(ms[i].key, Fresh(ms[i].value)))
  }

  /** Every first member knows the last one. */
  predicate Sound(t: Tree) {
    match t
    case TLeaf(_) => true
    case TArray(items) => forall i :: 0 <= i < |items| ==> Sound(items[i])
    case TObject(ms, tail) => Knows(|ms|, tail) && forall i :: 0 <= i < |ms| ==> Sound(ms[i].value)
  }

  lemma {:induction false} FreshIsSound(v: Value)
    ensures Sound(Fresh(v)) && Plain(Fresh(v)) == v
    decreases v
  {
    match v
    case Array(items) =>
      forall i | 0 <= i < |items| ensures Sound(Fresh(items[i])) && Plain(Fresh(items[i])) == items[i] {
        FreshIsSound(items[i]);
      }
      assert PlainItems(FreshItems(items)) == items;
    case Object(ms) =>
      forall i | 0 <= i < |ms| ensures Sound(Fresh(ms[i].value)) && Plain(Fresh(ms[i].value)) == ms[i].value {
        FreshIsSound(ms[i].value);
      }
      assert PlainMembers(FreshMembers(ms)) == ms;
    case _ =>
  }

  // Items of a tree

  function Kids(t: Tree): (r: seq<Tree>)
    ensures |r| == |Children(Plain(t))|
    ensures forall i :: 0 <= i < |r| ==> Plain(r[i]) == Children(Plain(t))[i]
  {
    match t
    case TLeaf(_) => []
    case TArray(items) => items
    case TObject(ms, _) => seq(|ms|, i requires 0 <= i < |ms| => ms[i].value)
  }

  function SubTree(t: Tree, at: seq<nat>): (u: Tree)
    requires HasNode(Plain(t), at)
    ensures Plain(u) == NodeAt(Plain(t), at)
    ensures Sound(t) ==> Sound(u)
    decreases |at|
  {
    if at == [] then t else SubTree(Kids(t)[at[0]], at[1..])
  }

  function WithKid(t: Tree, i: nat, u: Tree): (r: Tree)
    requires i < |Kids(t)|
    ensures Plain(r) == WithChild(Plain(t), i, Plain(u))
    ensures Sound(t) && Sound(u) ==> Sound(r)
  {
    match t
    case TArray(items) =>
      assert PlainItems(items[i := u]) == PlainItems(items)[i := Plain(u)];
      TArray(items[i := u])
    case TObject(ms, tail) =>
      assert PlainMembers(WithValue(ms, i, u)) == WithValue(PlainMembers(ms), i, Plain(u));
      TObject(WithValue(ms, i, u), tail)
  }

  /** The tree with the item at the position replaced by u. */
  function Graft(t: Tree, at: seq<nat>, u: Tree): (r: Tree)
    requires HasNode(Plain(t), at)
    ensures Plain(r) == PutAt(Plain(t), at, Plain(u))
    ensures Sound(t) && Sound(u) ==> Sound(r)
    decreases |at|
  {
    if at == [] then u else WithKid(t, at[0], Graft(Kids(t)[at[0]], at[1..], u))
  }

  // Comparing

  lemma SortIsPlain(ms: seq<Entry<Tree>>, cs: bool)
    ensures PlainMembers(Sort(ms, cs)) == Sort(PlainMembers(ms), cs)
  {
    var f := (t: Tree) => Plain(t);
    assert Renamed(ms, f) == PlainMembers(ms);
    assert Renamed(Sort(ms, cs), f) == PlainMembers(Sort(ms, cs));
    SortIsNatural(ms, f, cs);
  }

  lemma PlainTails(items: seq<Tree>, ms: seq<Entry<Tree>>)
    ensures items != [] ==> PlainItems(items)[1..] == PlainItems(items[1..])
    ensures ms != [] ==> PlainMembers(ms)[1..] == PlainMembers(ms[1..])
  {
  }

  /** compare_json, as far as the first tree is concerned. */
  function ComparedTree(t: Tree, b: Value, cs: bool): Tree
    decreases Height(Plain(t)), 0
  {
    match (t, b)
    case (TArray(s), Array(u)) => TArray(ComparedTrees(s, u, cs))
    case (TObject(ms, tail), Object(ns)) =>
      SortIsPlain(ms, cs);
      SortKeepsHeight(PlainMembers(ms), cs);
      TObject(ComparedEntries(Sort(ms, cs), Sort(ns, cs), cs), AfterSort(ms, tail, cs))
    case _ => t
  }

  function ComparedTrees(s: seq<Tree>, u: seq<Value>, cs: bool): (r: seq<Tree>)
    ensures |r| == |s|
    decreases ItemsHeight(PlainItems(s)), |s|
  {
    if s == [] || u == [] then s
    else
      PlainTails(s, []);
      [ComparedTree(s[0], u[0], cs)]
      + if CompareJson(Plain(s[0]), u[0], cs) then ComparedTrees(s[1..], u[1..], cs) else s[1..]
  }

  function ComparedEntries(s: seq<Entry<Tree>>, u: seq<Entry<Value>>, cs: bool): (r: seq<Entry<Tree>>)
    ensures |r| == |s|
    decreases MembersHeight(PlainMembers(s)), |s|
  {
    if s == [] || u == [] || Compare(s[0].key, u[0].key, cs) != 0 then s
    else
      PlainTails([], s);
      [Entry(s[0].key, ComparedTree(s[0].value, u[0].value, cs))]
      + if CompareJson(Plain(s[0].value), u[0].value, cs) then ComparedEntries(s[1..], u[1..], cs) else s[1..]
  }

  lemma PlainEnds(ms: seq<Entry<Tree>>, cs: bool)
    ensures EndsStay(ms, cs) <==> EndsStay(PlainMembers(ms), cs)
  {
    assert Places(ms) == Places(PlainMembers(ms));
  }

  /** What a walk sees is what comparing makes of what it saw. */
  lemma {:induction false} ComparedIsPlain(t: Tree, b: Value, cs: bool)
    ensures Plain(ComparedTree(t, b, cs)) == Compared(Plain(t), b, cs)
    decreases Height(Plain(t)), 0
  {
    match (t, b)
    case (TArray(s), Array(u)) => ComparedTreesArePlain(s, u, cs);
    case (TObject(ms, tail), Object(ns)) =>
      SortIsPlain(ms, cs);
      SortKeepsHeight(PlainMembers(ms), cs);
      ComparedEntriesArePlain(Sort(ms, cs), Sort(ns, cs), cs);
    case _ =>
  }

  lemma {:induction false} ComparedTreesArePlain(s: seq<Tree>, u: seq<Value>, cs: bool)
    ensures PlainItems(ComparedTrees(s, u, cs)) == ComparedItems(PlainItems(s), u, cs)
    decreases ItemsHeight(PlainItems(s)), |s|
  {
    if s != [] && u != [] {
      PlainTails(s, []);
      ComparedIsPlain(s[0], u[0], cs);
      if CompareJson(Plain(s[0]), u[0], cs) { ComparedTreesArePlain(s[1..], u[1..], cs); }
      PlainTails(ComparedTrees(s, u, cs), []);
    }
  }

  lemma {:induction false} ComparedEntriesArePlain(s: seq<Entry<Tree>>, u: seq<Entry<Value>>, cs: bool)
    ensures PlainMembers(ComparedEntries(s, u, cs)) == ComparedMembers(PlainMembers(s), u, cs)
    decreases MembersHeight(PlainMembers(s)), |s|
  {
    if s != [] && u != [] && Compare(s[0].key, u[0].key, cs) == 0 {
      PlainTails([], s);
      ComparedIsPlain(s[0].value, u[0].value, cs);
      if CompareJson(Plain(s[0].value), u[0].value, cs) { ComparedEntriesArePlain(s[1..], u[1..], cs); }
      PlainTails([], ComparedEntries(s, u, cs));
    }
  }

  predicate SoundItems(s: seq<Tree>) {
    forall i :: 0 <= i < |s| ==> Sound(s[i])
  }

  predicate SoundMembers(ms: seq<Entry<Tree>>) {
    forall i :: 0 <= i < |ms| ==> Sound(ms[i].value)
  }

  lemma SoundCons(t: Tree, s: seq<Tree>)
    ensures SoundItems([t] + s) <==> Sound(t) && SoundItems(s)
  {
    var r := [t] + s;
    assert r[0] == t && r[1..] == s;
    if SoundItems(r) { assert forall i :: 0 <= i < |s| ==> s[i] == r[i + 1]; }
  }

  /** A comparison leaves a sound tree sound exactly when it finds the ends of all objects in their places. */
  lemma {:induction false} ComparedSound(t: Tree, b: Value, cs: bool)
    requires Sound(t)
    ensures Sound(ComparedTree(t, b, cs)) <==> EndsKept(Plain(t), b, cs)
    decreases Height(Plain(t)), 0
  {
    match (t, b)
    case (TArray(s), Array(u)) =>
      assert SoundItems(s);
      ComparedTreesSound(s, u, cs);
      assert Sound(ComparedTree(t, b, cs)) <==> SoundItems(ComparedTrees(s, u, cs));
    case (TObject(ms, tail), Object(ns)) =>
      SortIsPlain(ms, cs);
      SortKeepsHeight(PlainMembers(ms), cs);
      PlainEnds(ms, cs);
      SortKeepsTail(ms, tail, cs);
      forall i | 0 <= i < |ms| ensures Sound(Sort(ms, cs)[i].value) { var j := SortedFrom(ms, i, cs); }
      ComparedEntriesSound(Sort(ms, cs), Sort(ns, cs), cs);
    case _ =>
  }

  lemma {:induction false} ComparedTreesSound(s: seq<Tree>, u: seq<Value>, cs: bool)
    requires SoundItems(s)
    ensures SoundItems(ComparedTrees(s, u, cs)) <==> ItemEndsKept(PlainItems(s), u, cs)
    decreases ItemsHeight(PlainItems(s)), |s|
  {
    if s != [] && u != [] {
      PlainTails(s, []);
      ComparedSound(s[0], u[0], cs);
      if CompareJson(Plain(s[0]), u[0], cs) {
        ComparedTreesSound(s[1..], u[1..], cs);
        SoundCons(ComparedTree(s[0], u[0], cs), ComparedTrees(s[1..], u[1..], cs));
      } else {
        SoundCons(ComparedTree(s[0], u[0], cs), s[1..]);
      }
    }
  }

  lemma {:induction false} ComparedEntriesSound(s: seq<Entry<Tree>>, u: seq<Entry<Value>>, cs: bool)
    requires SoundMembers(s)
    ensures SoundMembers(ComparedEntries(s, u, cs)) <==> MemberEndsKept(PlainMembers(s), u, cs)
    decreases MembersHeight(PlainMembers(s)), |s|
  {
    if s != [] && u != [] && Compare(s[0].key, u[0].key, cs) == 0 {
      PlainTails([], s);
      ComparedSound(s[0].value, u[0].value, cs);
      if CompareJson(Plain(s[0].value), u[0].value, cs) { ComparedEntriesSound(s[1..], u[1..], cs); }
      var r := ComparedEntries(s, u, cs);
      assert r == [r[0]] + r[1..];
    }
  }
}
