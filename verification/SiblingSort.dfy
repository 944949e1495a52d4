/** sort_list on a sibling chain: the links are rewritten until the chain is the sorted one, as module
    MergeSort has it; the nodes stay where they are and only their next and prev change. */
module SiblingSort {
  import opened CText
  import opened Json
  import opened MergeSort
  import opened Sequences
  import opened Siblings

  /** The children with their keys. */
  function Entries(s: seq<Item>): (r: seq<Entry<Item>>)
    ensures |r| == |s|
  {
    seq(|s|, i requires 0 <= i < |s| => Entry(s[i].name, s[i]))
  }

  lemma EntriesJoin(a: seq<Item>, b: seq<Item>)
    ensures Entries(a + b) == Entries(a) + Entries(b)
  {
  }

  lemma EntriesSplit(s: seq<Item>, k: nat)
    requires k <= |s|
    ensures Entries(s[..k]) == Entries(s)[..k] && Entries(s[k..]) == Entries(s)[k..]
  {
  }

  /** The link behind position i, closed by null, and the link back from it; the head's is not looked at. */
  predicate LinkAt(s: seq<Item>, i: nat)
    requires i < |s|
    reads s
  {
    s[i].next == NextOf(s, i) && (i > 0 ==> s[i].prev == s[i - 1])
  }

  ghost predicate Linked(s: seq<Item>)
    reads s
  {
    forall i: nat {:trigger LinkAt(s, i)} :: i < |s| ==> LinkAt(s, i)
  }

  /** The same for a chain whose last link may lead anywhere. */
  predicate OpenLinkAt(s: seq<Item>, i: nat)
    requires i < |s|
    reads s
  {
    (i + 1 < |s| ==> s[i].next == s[i + 1]) && (i > 0 ==> s[i].prev == s[i - 1])
  }

  ghost predicate OpenLinked(s: seq<Item>)
    reads s
  {
    forall i: nat {:trigger OpenLinkAt(s, i)} :: i < |s| ==> OpenLinkAt(s, i)
  }

  predicate Starts(head: Item?, s: seq<Item>) {
    head == if s == [] then null else s[0]
  }

  ghost predicate Disjoint(a: seq<Item>, b: seq<Item>) {
    forall x :: x in a ==> x !in b
  }

  lemma TailLinked(s: seq<Item>)
    requires s != [] && Linked(s) && NoRepeats(s)
    ensures Linked(s[1..]) && NoRepeats(s[1..]) && s[0] !in s[1..]
    ensures s[0].next == if |s| > 1 then s[1] else null
  {
    var t := s[1..];
    assert LinkAt(s, 0);
    forall i: nat | i < |t| ensures LinkAt(t, i) { assert LinkAt(s, i + 1); }
    forall i: nat, j: nat | i < |t| && j < |t| && i != j ensures Differ(t, i, j) { assert Differ(s, i + 1, j + 1); }
    forall i: nat | i < |t| ensures t[i] != s[0] { assert Differ(s, 0, i + 1); }
  }

  lemma AppendNoRepeats(m: seq<Item>, x: Item)
    requires NoRepeats(m) && x !in m
    ensures NoRepeats(m + [x])
  {
    InsertNoRepeats(m, |m|, x);
    assert InsertAt(m, |m|, x) == m + [x];
  }

  /** The smaller head joins the merged list. */
  method Take(tail: Item?, x: Item, ghost m: seq<Item>)
    requires OpenLinked(m) && NoRepeats(m) && x !in m
    requires tail == if m == [] then null else m[|m| - 1]
    modifies m`next, x`prev
    ensures OpenLinked(m + [x]) && NoRepeats(m + [x])
    ensures forall y :: y in m && y != tail ==> y.next == old(y.next)
    ensures m == [] ==> x.prev == old(x.prev)
  {
    if tail != null {
      tail.next := x;
      x.prev := tail;
    }
    ghost var r := m + [x];
    AppendNoRepeats(m, x);
    forall i: nat | i < |r| ensures OpenLinkAt(r, i) {
      if i < |m| {
        assert old(OpenLinkAt(m, i));
        assert i + 1 < |m| ==> Differ(m, i, |m| - 1);
      }
    }
  }

  /** The rest of a list goes behind the merged one. */
  method Append(tail: Item, rest: Item, ghost m: seq<Item>, ghost f: seq<Item>)
    requires OpenLinked(m) && NoRepeats(m) && m != [] && tail == m[|m| - 1]
    requires Linked(f) && NoRepeats(f) && f != [] && rest == f[0] && Disjoint(m, f)
    modifies m`next, f`prev
    ensures Linked(m + f) && NoRepeats(m + f)
  {
    tail.next := rest;
    rest.prev := tail;
    ghost var r := m + f;
    JoinNoRepeats(m, f);
    forall i: nat | i < |r| ensures LinkAt(r, i) {
      if i < |m| {
        assert old(OpenLinkAt(m, i)) && m[i] in m;
        assert i + 1 < |m| ==> Differ(m, i, |m| - 1);
      } else {
        assert old(LinkAt(f, i - |m|)) && f[i - |m|] in f;
        assert i > |m| ==> Differ(f, i - |m|, 0);
      }
    }
  }

  /** The merged list and what is left of the two others. */
  ghost predicate Merging(m: seq<Item>, f: seq<Item>, g: seq<Item>)
    reads m, f, g
  {
    && OpenLinked(m) && NoRepeats(m) && Linked(f) && NoRepeats(f) && Linked(g) && NoRepeats(g)
    && Disjoint(m, f) && Disjoint(m, g) && Disjoint(f, g)
  }

  /** The head of one list joins the merged one. */
  method TakeHead(tail: Item?, x: Item, ghost m: seq<Item>, ghost f: seq<Item>, ghost g: seq<Item>)
    requires Merging(m, f, g) && f != [] && x == f[0]
    requires tail == if m == [] then null else m[|m| - 1]
    modifies m`next, x`prev
    ensures Merging(m + [x], f[1..], g) && Starts(x.next, f[1..])
    ensures m == [] ==> x.prev == old(x.prev)
  {
    TailLinked(f);
    assert x in f && f == [f[0]] + f[1..];
    Take(tail, x, m);
    forall i: nat | i < |f[1..]| ensures LinkAt(f[1..], i) {
      assert old(LinkAt(f[1..], i)) && f[1..][i] in f;
      if i > 0 { assert f[1..][i] != x; }
    }
    forall i: nat | i < |g| ensures LinkAt(g, i) {
      assert old(LinkAt(g, i)) && g[i] in g;
    }
  }

  ghost predicate Rearranged(m: seq<Item>, f: seq<Item>, g: seq<Item>, a: seq<Item>, b: seq<Item>) {
    multiset(m) + multiset(f) + multiset(g) == multiset(a) + multiset(b)
  }

  lemma RearrangedStep(m: seq<Item>, f: seq<Item>, g: seq<Item>)
    ensures f != [] ==> Rearranged(m + [f[0]], f[1..], g, m, f + g)
    ensures g != [] ==> Rearranged(m + [g[0]], f, g[1..], m, f + g)
  {
    if f != [] { assert f == [f[0]] + f[1..]; }
    if g != [] { assert g == [g[0]] + g[1..]; }
  }

  /** What is still to be merged, behind what is merged already. */
  function Outcome(m: seq<Item>, f: seq<Item>, g: seq<Item>, cs: bool): seq<Entry<Item>> {
    Entries(m) + Merge(Entries(f), Entries(g), cs)
  }

  lemma MergeTakes(m: seq<Entry<Item>>, f: seq<Entry<Item>>, g: seq<Entry<Item>>, cs: bool)
    requires f != [] && g != []
    ensures m + Merge(f, g, cs) ==
      if Compare(f[0].key, g[0].key, cs) < 0 then (m + [f[0]]) + Merge(f[1..], g, cs)
      else (m + [g[0]]) + Merge(f, g[1..], cs)
  {
    if Compare(f[0].key, g[0].key, cs) < 0 {
      Regroup(m, [f[0]], Merge(f[1..], g, cs));
    } else {
      Regroup(m, [g[0]], Merge(f, g[1..], cs));
    }
  }

  lemma EntriesPass(m: seq<Item>, f: seq<Item>)
    requires f != []
    ensures Entries(m + [f[0]]) == Entries(m) + [Entries(f)[0]] && Entries(f[1..]) == Entries(f)[1..]
  {
    EntriesJoin(m, [f[0]]);
    EntriesSplit(f, 1);
  }

  lemma OutcomeStep(m: seq<Item>, f: seq<Item>, g: seq<Item>, cs: bool)
    requires f != [] && g != []
    ensures Outcome(m, f, g, cs) ==
      if Compare(f[0].name, g[0].name, cs) < 0 then Outcome(m + [f[0]], f[1..], g, cs)
      else Outcome(m + [g[0]], f, g[1..], cs)
  {
    var em, ef, eg := Entries(m), Entries(f), Entries(g);
    MergeTakes(em, ef, eg, cs);
    if Compare(f[0].name, g[0].name, cs) < 0 {
      EntriesPass(m, f);
    } else {
      EntriesPass(m, g);
    }
  }

  lemma OutcomeDone(m: seq<Item>, f: seq<Item>, cs: bool)
    ensures Outcome(m, f, [], cs) == Entries(m + f) && Outcome(m, [], f, cs) == Entries(m + f)
  {
    EntriesJoin(m, f);
    assert Entries([]) == [];
  }

  /** One round of the merging loop. */
  method MergeStep(first: Item, second: Item, tail: Item?, ghost m: seq<Item>, ghost f: seq<Item>,
      ghost g: seq<Item>, cs: bool, ghost pool: set<Item>)
      returns (smaller: Item, next: Item?, other: Item?, ghost f1: seq<Item>, ghost g1: seq<Item>)
    requires Merging(m, f, g) && f != [] && first == f[0] && g != [] && second == g[0]
    requires tail == if m == [] then null else m[|m| - 1]
    requires Within(m, pool) && Within(f, pool) && Within(g, pool)
    modifies pool`next, pool`prev
    ensures Within(m + [smaller], pool) && Within(f1, pool) && Within(g1, pool)
    ensures Merging(m + [smaller], f1, g1) && Starts(next, f1) && Starts(other, g1)
    ensures forall y :: y in m ==> y.prev == old(y.prev)
    ensures smaller == first || smaller == second
    ensures m == [] ==> smaller.prev == old(smaller.prev)
    ensures |f1| + |g1| == |f| + |g| - 1
    ensures Outcome(m, f, g, cs) == Outcome(m + [smaller], f1, g1, cs)
    ensures multiset(m + [smaller]) + multiset(f1) + multiset(g1) == multiset(m) + multiset(f) + multiset(g)
  {
    next, other, f1, g1 := first, second, f, g;
    smaller := if Compare(first.name, second.name, cs) < 0 then first else second;
    OutcomeStep(m, f, g, cs);
    RearrangedStep(m, f, g);
    assert first in f && second in g;
    if smaller == first {
      TakeHead(tail, smaller, m, f, g);
    } else {
      TakeHead(tail, smaller, m, g, f);
    }
    if first == smaller {
      next, f1 := first.next, f[1..];
    } else {
      other, g1 := second.next, g[1..];
    }
  }

  /** Merging two sorted lists by relinking; on equal keys the second list goes first. */
  method MergeLists(head: Item?, another: Item?, ghost a: seq<Item>, ghost b: seq<Item>, cs: bool,
      ghost pool: set<Item>) returns (result: Item?, ghost t: seq<Item>)
    requires Merging([], a, b) && Starts(head, a) && a != [] && Starts(another, b) && b != []
    requires Within(a, pool) && Within(b, pool)
    modifies pool`next, pool`prev
    ensures Linked(t) && NoRepeats(t) && Starts(result, t)
    ensures Entries(t) == Merge(Entries(a), Entries(b), cs)
    ensures multiset(t) == multiset(a) + multiset(b)
    ensures t != [] && (t[0] == head || t[0] == another) && t[0].prev == old(t[0].prev)
  {
    var first, second := head, another;
    var tail: Item? := null;
    result := null;
    ghost var m: seq<Item>, f, g := [], a, b;
    ghost var goal := Outcome([], a, b, cs);
    while first != null && second != null
      invariant Merging(m, f, g) && Starts(first, f) && Starts(second, g) && Starts(result, m)
      invariant tail == if m == [] then null else m[|m| - 1]
      invariant m == [] ==> f == a && g == b && unchanged(a) && unchanged(b)
      invariant m != [] ==> (m[0] == head || m[0] == another) && m[0].prev == old(m[0].prev)
      invariant Within(m, pool) && Within(f, pool) && Within(g, pool) && (f != [] || g != [])
      invariant Rearranged(m, f, g, a, b)
      invariant goal == Outcome(m, f, g, cs)
      decreases |f| + |g|
    {
      var smaller;
      smaller, first, second, f, g := MergeStep(first, second, tail, m, f, g, cs, pool);
      if result == null { result := smaller; }
      tail := smaller;
      m := m + [smaller];
    }
    OutcomeDone(m, if f != [] then f else g, cs);
    t := AppendRest(first, second, tail, m, f, g);
  }

  /** One of the two lists is used up; the other one goes behind the merged list. */
  method AppendRest(first: Item?, second: Item?, tail: Item, ghost m: seq<Item>, ghost f: seq<Item>,
      ghost g: seq<Item>) returns (ghost t: seq<Item>)
    requires Merging(m, f, g) && m != [] && tail == m[|m| - 1]
    requires Starts(first, f) && Starts(second, g) && (f == [] <==> g != [])
    modifies m`next, f`prev, g`prev
    ensures t == m + (if f != [] then f else g) && Linked(t) && NoRepeats(t)
    ensures m[0].prev == old(m[0].prev)
  {
    assert m[0] in m;
    if first != null {
      Append(tail, first, m, f);
      t := m + f;
    } else {
      Append(tail, second, m, g);
      t := m + g;
    }
  }

  /** Walking until a key is not smaller than the next one. */
  method IsAscending(list: Item, ghost s: seq<Item>, cs: bool) returns (ascending: bool)
    requires Linked(s) && s != [] && list == s[0]
    ensures ascending == StrictlyAscending(Entries(s), cs)
  {
    var current: Item := list;
    ghost var i: nat := 0;
    assert LinkAt(s, 0);
    while current.next != null && Compare(current.name, current.next.name, cs) < 0
      invariant i < |s| && current == s[i] && LinkAt(s, i)
      invariant forall k :: 0 <= k < i ==> Compare(s[k].name, s[k + 1].name, cs) < 0
      decreases |s| - i
    {
      current := current.next;
      i := i + 1;
      assert LinkAt(s, i);
    }
    ascending := current.next == null;
    ghost var es := Entries(s);
    if ascending {
      assert forall k :: 0 <= k < |es| ==> es[k].key == s[k].name;
    } else {
      assert es[i].key == s[i].name && es[i + 1].key == s[i + 1].name;
    }
  }

  /** The item in the middle: a second pointer takes two steps at a time. */
  method Middle(list: Item, ghost s: seq<Item>) returns (second: Item, ghost k: nat)
    requires Linked(s) && |s| > 1 && list == s[0]
    ensures k == (|s| + 1) / 2 && 0 < k < |s| && second == s[k]
  {
    var slow: Item?, current: Item? := list, list;
    k := 0;
    while current != null
      invariant k <= |s| && slow == (if k < |s| then s[k] else null)
      invariant current == (if 2 * k < |s| then s[2 * k] else null)
      invariant 2 * k <= |s| + 1
      decreases |s| - k
    {
      assert LinkAt(s, k) && LinkAt(s, 2 * k);
      slow := slow.next;
      current := current.next;
      if current != null {
        assert LinkAt(s, 2 * k + 1);
        current := current.next;
      }
      k := k + 1;
    }
    second := slow;
  }

  /** The link in front of the middle is cut. */
  method Split(second: Item, ghost s: seq<Item>, ghost k: nat)
    requires Linked(s) && NoRepeats(s) && 0 < k < |s| && second == s[k]
    modifies s`next, s`prev
    ensures Linked(s[..k]) && NoRepeats(s[..k]) && Linked(s[k..]) && NoRepeats(s[k..])
    ensures Disjoint(s[..k], s[k..])
    ensures s[k].prev == null && s[0].prev == old(s[0].prev)
  {
    assert LinkAt(s, k) && Differ(s, 0, k);
    if second.prev != null {
      second.prev.next := null;
      second.prev := null;
    }
    ghost var a, b := s[..k], s[k..];
    forall i: nat | i < |a| ensures LinkAt(a, i) {
      assert old(LinkAt(s, i));
      assert i != k - 1 ==> Differ(s, i, k - 1);
      assert Differ(s, i, k);
    }
    forall i: nat | i < |b| ensures LinkAt(b, i) {
      assert old(LinkAt(s, k + i));
      assert Differ(s, k + i, k - 1);
      assert i > 0 ==> Differ(s, k + i, k);
    }
    forall i: nat, j: nat | i < |a| && j < |a| && i != j ensures Differ(a, i, j) { assert Differ(s, i, j); }
    forall i: nat, j: nat | i < |b| && j < |b| && i != j ensures Differ(b, i, j) { assert Differ(s, k + i, k + j); }
    forall x | x in a ensures x !in b {
      ghost var i: nat :| i < |a| && a[i] == x;
      forall j: nat | j < |b| ensures b[j] != x { assert Differ(s, i, k + j); }
    }
  }

  /** sort_list: the chain becomes the sorted one. A chain that is strictly ascending is not touched. */
  method SortList(list: Item?, ghost s: seq<Item>, cs: bool) returns (result: Item?, ghost t: seq<Item>)
    requires Linked(s) && NoRepeats(s) && Starts(list, s)
    modifies s`next, s`prev
    ensures Linked(t) && NoRepeats(t) && Starts(result, t)
    ensures Entries(t) == Sort(Entries(s), cs) && multiset(t) == multiset(s)
    ensures StrictlyAscending(Entries(s), cs) ==> t == s && unchanged(s)
    ensures t != [] ==> t[0].prev == if t[0] == s[0] then old(s[0].prev) else null
    decreases |s|, 3
  {
    result, t := list, s;
    if list == null {
      return;
    }
    assert LinkAt(s, 0);
    if list.next == null {
      return;
    }
    var ascending := IsAscending(list, s, cs);
    if !ascending {
      result, t := SortByHalves(list, s, cs);
    }
  }

  method SortByHalves(list: Item, ghost s: seq<Item>, cs: bool) returns (result: Item?, ghost t: seq<Item>)
    requires Linked(s) && NoRepeats(s) && |s| > 1 && list == s[0] && !StrictlyAscending(Entries(s), cs)
    modifies s`next, s`prev
    ensures Linked(t) && NoRepeats(t) && Starts(result, t)
    ensures Entries(t) == Sort(Entries(s), cs) && multiset(t) == multiset(s)
    ensures t != [] ==> t[0].prev == if t[0] == s[0] then old(s[0].prev) else null
    decreases |s|, 2
  {
    var second, k := Middle(list, s);
    ghost var a, b := s[..k], s[k..];
    Split(second, s, k);
    assert s == a + b;
    SortSplits(s, k, cs);
    result, t := SortAndMerge(list, second, a, b, cs);
  }

  lemma SortSplits(s: seq<Item>, k: nat, cs: bool)
    requires |s| > 1 && k == (|s| + 1) / 2 && !StrictlyAscending(Entries(s), cs)
    ensures Sort(Entries(s), cs) == Merge(Sort(Entries(s[..k]), cs), Sort(Entries(s[k..]), cs), cs)
  {
    EntriesSplit(s, k);
    SortUnfolds(Entries(s), Entries(s[..k]), Entries(s[k..]), cs);
  }

  /** The two halves become one sorted chain. */
  method SortAndMerge(list: Item, second: Item, ghost a: seq<Item>, ghost b: seq<Item>, cs: bool)
      returns (result: Item?, ghost t: seq<Item>)
    requires Merging([], a, b) && a != [] && list == a[0] && b != [] && second == b[0] && second.prev == null
    modifies a`next, a`prev, b`next, b`prev
    ensures Linked(t) && NoRepeats(t) && Starts(result, t)
    ensures Entries(t) == Merge(Sort(Entries(a), cs), Sort(Entries(b), cs), cs)
    ensures multiset(t) == multiset(a + b)
    ensures t != [] ==> t[0].prev == if t[0] == a[0] then old(a[0].prev) else null
    decreases |a| + |b|, 1
  {
    var first, other;
    ghost var ta, tb;
    first, other, ta, tb := SortHalves(list, second, a, b, cs);
    ghost var pool := set x | x in a + b;
    SameItems(ta, a);
    SameItems(tb, b);
    result, t := MergeLists(first, other, ta, tb, cs, pool);
  }

  /** Both halves are sorted; each is out of reach of the other. */
  method SortHalves(list: Item, second: Item, ghost a: seq<Item>, ghost b: seq<Item>, cs: bool)
      returns (first: Item?, other: Item?, ghost ta: seq<Item>, ghost tb: seq<Item>)
    requires Merging([], a, b) && a != [] && list == a[0] && b != [] && second == b[0] && second.prev == null
    modifies a`next, a`prev, b`next, b`prev
    ensures Merging([], ta, tb) && Starts(first, ta) && Starts(other, tb)
    ensures Entries(ta) == Sort(Entries(a), cs) && Entries(tb) == Sort(Entries(b), cs)
    ensures multiset(ta) == multiset(a) && multiset(tb) == multiset(b)
    ensures ta != [] && ta[0].prev == (if ta[0] == a[0] then old(a[0].prev) else null)
    ensures tb != [] && tb[0].prev == null && tb[0] != a[0]
    decreases |a| + |b|, 0
  {
    assert list in a && second in b;
    first, ta := SortList(list, a, cs);
    SameItems(ta, a);
    assert ta[0] in ta && ta[0] !in b;
    forall i: nat | i < |b| ensures LinkAt(b, i) {
      assert old(LinkAt(b, i)) && b[i] in b;
      if i > 0 { assert b[i - 1] in b; }
    }
    label second:
    other, tb := SortList(second, b, cs);
    SameItems(tb, b);
    assert tb[0] in tb && tb[0] !in a;
    forall i: nat | i < |ta| ensures LinkAt(ta, i) {
      assert old@second(LinkAt(ta, i)) && ta[i] in ta;
    }
  }

  lemma SameItems(t: seq<Item>, s: seq<Item>)
    requires multiset(t) == multiset(s)
    ensures forall x :: x in t <==> x in s
    ensures |t| == |s|
  {
    assert |multiset(t)| == |multiset(s)|;
    forall x ensures x in t <==> x in s {
      assert x in t <==> x in multiset(t);
      assert x in s <==> x in multiset(s);
    }
  }
}
