/** What compare_json leaves behind: it sorts every object it comes to, in both trees, until it finds a
    difference. */
module Comparison {
  import opened CText
  import opened Json
  import opened MergeSort
  import opened Equality
  import opened KeySets
  import opened Tails

  /** The first tree after it was compared with the second. */
  function Compared(a: Value, b: Value, cs: bool): Value
    decreases Height(a), 0
  {
    match (a, b)
    case (Array(s), Array(t)) => Array(ComparedItems(s, t, cs))
    case (Object(ms), Object(ns)) =>
      SortKeepsHeight(ms, cs);
      Object(ComparedMembers(Sort(ms, cs), Sort(ns, cs), cs))
    case _ => a
  }

  function ComparedItems(s: seq<Value>, t: seq<Value>, cs: bool): (r: seq<Value>)
    ensures |r| == |s|
    decreases ItemsHeight(s), |s|
  {
    if s == [] || t == [] then s
    else
      [Compared(s[0], t[0], cs)]
      + if CompareJson(s[0], t[0], cs) then ComparedItems(s[1..], t[1..], cs) else s[1..]
  }

  function ComparedMembers(s: seq<Entry<Value>>, t: seq<Entry<Value>>, cs: bool): (r: seq<Entry<Value>>)
    ensures |r| == |s|
    decreases MembersHeight(s), |s|
  {
    if s == [] || t == [] || Compare(s[0].key, t[0].key, cs) != 0 then s
    else
      [Entry(s[0].key, Compared(s[0].value, t[0].value, cs))]
      + if CompareJson(s[0].value, t[0].value, cs) then ComparedMembers(s[1..], t[1..], cs) else s[1..]
  }

  // The tree stays the same up to member order

  /** Members that differ in the order inside their values only. */
  predicate Alike(r: seq<Entry<Value>>, s: seq<Entry<Value>>, cs: bool) {
    && |r| == |s|
    && forall i :: 0 <= i < |s| ==>
         r[i].key == s[i].key && Canonical(r[i].value, cs) == Canonical(s[i].value, cs) && Distinct(r[i].value, cs)
  }

  lemma {:induction false} AlikeIsEqual(r: seq<Entry<Value>>, s: seq<Entry<Value>>, cs: bool)
    requires Alike(r, s, cs)
    ensures KeySet(r, cs) == KeySet(s, cs) && (DistinctKeys(r, cs) <==> DistinctKeys(s, cs))
    ensures CanonMembers(r, cs) == CanonMembers(s, cs)
  {
    if s != [] { AlikeIsEqual(r[1..], s[1..], cs); }
  }

  lemma {:induction false} ComparedKeepsCanon(a: Value, b: Value, cs: bool, other: bool)
    requires Distinct(a, other)
    ensures Distinct(Compared(a, b, cs), other) && Canonical(Compared(a, b, cs), other) == Canonical(a, other)
    decreases Height(a), 0
  {
    match (a, b)
    case (Array(s), Array(t)) => ComparedItemsKeepCanon(s, t, cs, other);
    case (Object(ms), Object(ns)) =>
      SortKeepsHeight(ms, cs);
      SortKeepsValuesDistinct(ms, cs, other);
      ComparedMembersKeepCanon(Sort(ms, cs), Sort(ns, cs), cs, other);
      SortedAlike(ms, ComparedMembers(Sort(ms, cs), Sort(ns, cs), cs), cs, other);
    case _ =>
  }

  lemma SortedAlike(ms: seq<Entry<Value>>, r: seq<Entry<Value>>, cs: bool, other: bool)
    requires DistinctKeys(ms, other) && Alike(r, Sort(ms, cs), other)
    ensures Distinct(Object(r), other) && CanonMembers(r, other) == CanonMembers(ms, other)
  {
    var s := Sort(ms, cs);
    SortPermutes(ms, cs);
    SortKeepsMembers(ms, cs);
    PermutationKeepsDistinct(ms, s, other);
    CanonIgnoresOrder(s, ms, other);
    AlikeIsEqual(r, s, other);
  }

  lemma {:induction false} ComparedItemsKeepCanon(s: seq<Value>, t: seq<Value>, cs: bool, other: bool)
    requires forall i :: 0 <= i < |s| ==> Distinct(s[i], other)
    ensures var r := ComparedItems(s, t, cs);
      forall i :: 0 <= i < |s| ==> Distinct(r[i], other) && Canonical(r[i], other) == Canonical(s[i], other)
    decreases ItemsHeight(s), |s|
  {
    if s != [] && t != [] {
      ComparedKeepsCanon(s[0], t[0], cs, other);
      if CompareJson(s[0], t[0], cs) { ComparedItemsKeepCanon(s[1..], t[1..], cs, other); }
    }
  }

  lemma {:induction false} ComparedMembersKeepCanon(
      s: seq<Entry<Value>>, t: seq<Entry<Value>>, cs: bool, other: bool)
    requires AllValuesDistinct(s, other)
    ensures Alike(ComparedMembers(s, t, cs), s, other)
    decreases MembersHeight(s), |s|
  {
    if s != [] && t != [] && Compare(s[0].key, t[0].key, cs) == 0 {
      ComparedKeepsCanon(s[0].value, t[0].value, cs, other);
      if CompareJson(s[0].value, t[0].value, cs) { ComparedMembersKeepCanon(s[1..], t[1..], cs, other); }
    }
  }

  lemma {:induction false} ComparedKeepsHeight(a: Value, b: Value, cs: bool)
    ensures Height(Compared(a, b, cs)) <= Height(a)
    decreases Height(a), 0
  {
    match (a, b)
    case (Array(s), Array(t)) => ComparedItemsKeepHeight(s, t, cs);
    case (Object(ms), Object(ns)) =>
      SortKeepsHeight(ms, cs);
      ComparedMembersKeepHeight(Sort(ms, cs), Sort(ns, cs), cs);
    case _ =>
  }

  lemma {:induction false} ComparedItemsKeepHeight(s: seq<Value>, t: seq<Value>, cs: bool)
    ensures ItemsHeight(ComparedItems(s, t, cs)) <= ItemsHeight(s)
    decreases ItemsHeight(s), |s|
  {
    if s != [] && t != [] {
      ComparedKeepsHeight(s[0], t[0], cs);
      if CompareJson(s[0], t[0], cs) { ComparedItemsKeepHeight(s[1..], t[1..], cs); }
      var r := ComparedItems(s, t, cs);
      assert r[1..] == if CompareJson(s[0], t[0], cs) then ComparedItems(s[1..], t[1..], cs) else s[1..];
    }
  }

  lemma {:induction false} ComparedMembersKeepHeight(s: seq<Entry<Value>>, t: seq<Entry<Value>>, cs: bool)
    ensures MembersHeight(ComparedMembers(s, t, cs)) <= MembersHeight(s)
    decreases MembersHeight(s), |s|
  {
    if s != [] && t != [] && Compare(s[0].key, t[0].key, cs) == 0 {
      ComparedKeepsHeight(s[0].value, t[0].value, cs);
      if CompareJson(s[0].value, t[0].value, cs) { ComparedMembersKeepHeight(s[1..], t[1..], cs); }
      var r := ComparedMembers(s, t, cs);
      assert r[1..]
          == if CompareJson(s[0].value, t[0].value, cs) then ComparedMembers(s[1..], t[1..], cs) else s[1..];
    }
  }

  /** No key comes or goes. */
  lemma {:induction false} ComparedKeepsKeys(a: Value, b: Value, cs: bool, keys: iset<string>)
    requires KeysIn(a, keys)
    ensures KeysIn(Compared(a, b, cs), keys)
    decreases Height(a), 0
  {
    match (a, b)
    case (Array(s), Array(t)) => ComparedItemsKeepKeys(s, t, cs, keys);
    case (Object(ms), Object(ns)) =>
      var s := Sort(ms, cs);
      SortKeepsHeight(ms, cs);
      forall i | 0 <= i < |s| ensures s[i].key in keys && KeysIn(s[i].value, keys) { var j := SortedFrom(ms, i, cs); }
      ComparedMembersKeepKeys(s, Sort(ns, cs), cs, keys);
    case _ =>
  }

  lemma {:induction false} ComparedItemsKeepKeys(s: seq<Value>, t: seq<Value>, cs: bool, keys: iset<string>)
    requires ItemsIn(s, keys)
    ensures ItemsIn(ComparedItems(s, t, cs), keys)
    decreases ItemsHeight(s), |s|
  {
    if s != [] && t != [] {
      ComparedKeepsKeys(s[0], t[0], cs, keys);
      if CompareJson(s[0], t[0], cs) { ComparedItemsKeepKeys(s[1..], t[1..], cs, keys); }
    }
  }

  lemma {:induction false} ComparedMembersKeepKeys(
      s: seq<Entry<Value>>, t: seq<Entry<Value>>, cs: bool, keys: iset<string>)
    requires MembersIn(s, keys)
    ensures MembersIn(ComparedMembers(s, t, cs), keys)
    decreases MembersHeight(s), |s|
  {
    if s != [] && t != [] && Compare(s[0].key, t[0].key, cs) == 0 {
      ComparedKeepsKeys(s[0].value, t[0].value, cs, keys);
      if CompareJson(s[0].value, t[0].value, cs) { ComparedMembersKeepKeys(s[1..], t[1..], cs, keys); }
    }
  }

  // A successful comparison has sorted everything

  /** The members of every object, at every depth, are in key order. */
  predicate AllSorted(v: Value, cs: bool) {
    match v
    case Array(items) => forall i :: 0 <= i < |items| ==> AllSorted(items[i], cs)
    case Object(ms) => Sorted(ms, cs) && forall i :: 0 <= i < |ms| ==> AllSorted(ms[i].value, cs)
    case _ => true
  }

  lemma {:induction false} EqualComesOutSorted(a: Value, b: Value, cs: bool)
    requires CompareJson(a, b, cs)
    ensures AllSorted(Compared(a, b, cs), cs)
    decreases Height(a), 0
  {
    match (a, b)
    case (Array(s), Array(t)) => EqualItemsComeOutSorted(s, t, cs);
    case (Object(ms), Object(ns)) =>
      SortKeepsHeight(ms, cs);
      SortSorts(ms, cs);
      EqualMembersComeOutSorted(Sort(ms, cs), Sort(ns, cs), cs);
    case _ =>
  }

  lemma {:induction false} EqualItemsComeOutSorted(s: seq<Value>, t: seq<Value>, cs: bool)
    requires WalkItems(s, t, cs)
    ensures forall i :: 0 <= i < |s| ==> AllSorted(ComparedItems(s, t, cs)[i], cs)
    decreases ItemsHeight(s), |s|
  {
    if s != [] {
      EqualComesOutSorted(s[0], t[0], cs);
      EqualItemsComeOutSorted(s[1..], t[1..], cs);
    }
  }

  lemma {:induction false} EqualMembersComeOutSorted(s: seq<Entry<Value>>, t: seq<Entry<Value>>, cs: bool)
    requires WalkMembers(s, t, cs)
    ensures var r := ComparedMembers(s, t, cs);
      forall i :: 0 <= i < |s| ==> r[i].key == s[i].key && AllSorted(r[i].value, cs)
    decreases MembersHeight(s), |s|
  {
    if s != [] {
      EqualComesOutSorted(s[0].value, t[0].value, cs);
      EqualMembersComeOutSorted(s[1..], t[1..], cs);
    }
  }

  // Whether the first children still know the last ones

  /** Every object that the comparison sorts has its first and its last member in their places already. */
  predicate EndsKept(a: Value, b: Value, cs: bool)
    decreases Height(a), 0
  {
    match (a, b)
    case (Array(s), Array(t)) => ItemEndsKept(s, t, cs)
    case (Object(ms), Object(ns)) =>
      SortKeepsHeight(ms, cs);
      EndsStay(ms, cs) && MemberEndsKept(Sort(ms, cs), Sort(ns, cs), cs)
    case _ => true
  }

  predicate ItemEndsKept(s: seq<Value>, t: seq<Value>, cs: bool)
    decreases ItemsHeight(s), |s|
  {
    s == [] || t == []
    || (EndsKept(s[0], t[0], cs) && (CompareJson(s[0], t[0], cs) ==> ItemEndsKept(s[1..], t[1..], cs)))
  }

  predicate MemberEndsKept(s: seq<Entry<Value>>, t: seq<Entry<Value>>, cs: bool)
    decreases MembersHeight(s), |s|
  {
    s == [] || t == [] || Compare(s[0].key, t[0].key, cs) != 0
    || (EndsKept(s[0].value, t[0].value, cs)
        && (CompareJson(s[0].value, t[0].value, cs) ==> MemberEndsKept(s[1..], t[1..], cs)))
  }
}
