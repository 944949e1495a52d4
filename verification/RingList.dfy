/** The circular doubly linked lists of list.h on the heap. A ring is a sequence of nodes; the first of
    them is the list head, the others are its entries in order. */
module RingList {
  import opened Sequences

  class ListHead {
    var next: ListHead?
    var prev: ListHead?
  }

  function NextIn(r: seq<ListHead>, i: nat): ListHead
    requires i < |r|
  {
    if i + 1 < |r| then r[i + 1] else r[0]
  }

  function PrevIn(r: seq<ListHead>, i: nat): ListHead
    requires i < |r|
  {
    if i > 0 then r[i - 1] else r[|r| - 1]
  }

  predicate RingAt(r: seq<ListHead>, i: nat)
    requires i < |r|
    reads r
  {
    r[i].next == NextIn(r, i) && r[i].prev == PrevIn(r, i)
  }

  /** next and prev lead once around, in opposite directions. */
  ghost predicate Ring(r: seq<ListHead>)
    reads r
  {
    NoRepeats(r) && forall i: nat {:trigger RingAt(r, i)} :: i < |r| ==> RingAt(r, i)
  }

  /** INIT_LIST_HEAD. */
  method InitListHead(list: ListHead)
    modifies list
    ensures Ring([list])
  {
    list.next := list;
    list.prev := list;
    assert RingAt([list], 0);
  }

  /** __list_add between position i and the next one. */
  method AddBetween(node: ListHead, prev: ListHead, next: ListHead, ghost r: seq<ListHead>, ghost i: nat)
    requires Ring(r) && i < |r| && prev == r[i] && next == NextIn(r, i) && node !in r
    modifies node, prev`next, next`prev
    ensures Ring(InsertAt(r, i + 1, node))
  {
    next.prev := node;
    node.next := next;
    node.prev := prev;
    prev.next := node;
    ghost var t := InsertAt(r, i + 1, node);
    InsertNoRepeats(r, i + 1, node);
    forall k: nat | k < |t| ensures RingAt(t, k) {
      if k != i + 1 {
        ghost var j := if k <= i then k else k - 1;
        assert old(RingAt(r, j));
        assert Differ(r, j, i) || j == i;
        assert i + 1 < |r| ==> Differ(r, j, i + 1) || j == i + 1;
        assert Differ(r, j, 0) || j == 0;
      }
    }
  }

  /** list_add: the new entry becomes the first. */
  method ListAdd(node: ListHead, head: ListHead, ghost entries: seq<ListHead>)
    requires Ring([head] + entries) && node !in [head] + entries
    modifies node, [head] + entries
    ensures Ring([head] + ([node] + entries))
  {
    ghost var r := [head] + entries;
    assert RingAt(r, 0);
    AddBetween(node, head, head.next, r, 0);
    assert InsertAt(r, 1, node) == [head] + ([node] + entries);
  }

  /** list_add_tail: the new entry becomes the last. */
  method ListAddTail(node: ListHead, head: ListHead, ghost entries: seq<ListHead>)
    requires Ring([head] + entries) && node !in [head] + entries
    modifies node, [head] + entries
    ensures Ring([head] + (entries + [node]))
  {
    ghost var r := [head] + entries;
    assert RingAt(r, 0);
    AddBetween(node, head.prev, head, r, |r| - 1);
    assert InsertAt(r, |r|, node) == [head] + (entries + [node]);
  }

  /** __list_del_entry: the neighbours of an entry are linked to each other. */
  method Unlink(entry: ListHead, ghost r: seq<ListHead>, ghost i: nat)
    requires Ring(r) && i < |r| && entry == r[i]
    modifies r
    ensures Ring(RemoveAt(r, i))
    ensures |r| > 1 ==> entry.next == old(entry.next) && entry.prev == old(entry.prev)
  {
    assert RingAt(r, i);
    entry.next.prev := entry.prev;
    entry.prev.next := entry.next;
    ghost var t := RemoveAt(r, i);
    RemoveNoRepeats(r, i);
    assert i + 1 < |r| ==> Differ(r, i, i + 1);
    assert i > 0 ==> Differ(r, i, i - 1) && Differ(r, i, 0);
    assert i + 1 < |r| ==> Differ(r, i, |r| - 1);
    forall k: nat | k < |t| ensures RingAt(t, k) {
      ghost var j := if k < i then k else k + 1;
      assert old(RingAt(r, j));
      assert Differ(r, j, i);
      assert i > 0 ==> Differ(r, j, i - 1) || j == i - 1;
      assert i + 1 < |r| ==> Differ(r, j, i + 1) || j == i + 1;
      assert Differ(r, j, 0) || j == 0;
      assert Differ(r, j, |r| - 1) || j == |r| - 1;
    }
  }

  /** list_del: the entry points nowhere any more. */
  method ListDel(entry: ListHead, ghost r: seq<ListHead>, ghost i: nat)
    requires Ring(r) && i < |r| && entry == r[i]
    modifies r
    ensures Ring(RemoveAt(r, i)) && entry !in RemoveAt(r, i)
    ensures entry.next == null && entry.prev == null
  {
    Unlink(entry, r, i);
    RemoveNoRepeats(r, i);
    entry.next := null;
    entry.prev := null;
  }

  /** list_del_init: the entry becomes a ring of its own. */
  method ListDelInit(entry: ListHead, ghost r: seq<ListHead>, ghost i: nat)
    requires Ring(r) && i < |r| && entry == r[i]
    modifies r
    ensures Ring(RemoveAt(r, i)) && Ring([entry]) && entry !in RemoveAt(r, i)
  {
    Unlink(entry, r, i);
    RemoveNoRepeats(r, i);
    InitListHead(entry);
  }

  /** list_replace, also when the node is a ring of its own. */
  method ListReplace(was: ListHead, node: ListHead, ghost r: seq<ListHead>, ghost i: nat)
    requires Ring(r) && i < |r| && was == r[i] && node !in r
    modifies node, r
    ensures Ring(r[i := node]) && was !in r[i := node]
    ensures |r| > 1 ==> was.next == old(was.next) && was.prev == old(was.prev)
  {
    assert RingAt(r, i);
    assert i + 1 < |r| ==> Differ(r, i, i + 1);
    assert i > 0 ==> Differ(r, i, i - 1) && Differ(r, i, 0);
    assert i + 1 < |r| ==> Differ(r, i, |r| - 1);
    node.next := was.next;
    node.next.prev := node;
    node.prev := was.prev;
    node.prev.next := node;
    ghost var t := r[i := node];
    UpdateNoRepeats(r, i, node);
    forall k: nat | k < |t| ensures RingAt(t, k) {
      assert old(RingAt(r, k));
      assert Differ(r, k, i) || k == i;
      assert i > 0 ==> Differ(r, k, i - 1) || k == i - 1;
      assert i + 1 < |r| ==> Differ(r, k, i + 1) || k == i + 1;
      assert Differ(r, k, 0) || k == 0;
      assert Differ(r, k, |r| - 1) || k == |r| - 1;
    }
  }

  /** list_replace_init. */
  method ListReplaceInit(was: ListHead, node: ListHead, ghost r: seq<ListHead>, ghost i: nat)
    requires Ring(r) && i < |r| && was == r[i] && node !in r
    modifies node, r
    ensures Ring(r[i := node]) && Ring([was]) && was !in r[i := node]
  {
    ListReplace(was, node, r, i);
    InitListHead(was);
  }

  /** list_swap: two entries change places, also when one stands next to the other. */
  method ListSwap(entry1: ListHead, entry2: ListHead, ghost r: seq<ListHead>, ghost i: nat, ghost j: nat)
    requires Ring(r) && 0 < i < |r| && 0 < j < |r| && i != j && entry1 == r[i] && entry2 == r[j]
    modifies r
    ensures Ring(r[i := entry2][j := entry1])
  {
    assert RingAt(r, j) && Differ(r, i, j);
    var pos := entry2.prev;
    ListDel(entry2, r, j);
    ghost var s, i1 := RemoveAt(r, j), if i < j then i else i - 1;
    ListReplace(entry1, entry2, s, i1);
    ghost var t := s[i1 := entry2];
    if pos == entry1 {
      pos := entry2;
    }
    assert i == j - 1 || Differ(r, i, j - 1);
    assert t[j - 1] == pos && RingAt(t, j - 1);
    AddBetween(entry1, pos, pos.next, t, j - 1);
    SwapSteps(r, i, j, i1);
  }

  /** Removing one entry, replacing the other and adding it again changes their places. */
  lemma SwapSteps(r: seq<ListHead>, i: nat, j: nat, i1: nat)
    requires 0 < i < |r| && 0 < j < |r| && i != j && i1 == if i < j then i else i - 1
    ensures InsertAt(RemoveAt(r, j)[i1 := r[j]], j, r[i]) == r[i := r[j]][j := r[i]]
  {
  }

  /** list_move_tail of an entry of the same list. */
  method ListMoveTail(entry: ListHead, head: ListHead, ghost entries: seq<ListHead>, ghost i: nat)
    requires Ring([head] + entries) && i < |entries| && entry == entries[i]
    modifies [head] + entries
    ensures Ring([head] + (RemoveAt(entries, i) + [entry]))
  {
    ghost var r, rest := [head] + entries, RemoveAt(entries, i);
    Unlink(entry, r, i + 1);
    RemoveNoRepeats(r, i + 1);
    assert RemoveAt(r, i + 1) == [head] + rest;
    ListAddTail(entry, head, rest);
  }

  /** list_rotate_left: the first entry becomes the last. */
  method ListRotateLeft(head: ListHead, ghost entries: seq<ListHead>)
    requires Ring([head] + entries)
    modifies [head] + entries
    ensures Ring([head] + (if entries == [] then [] else entries[1..] + [entries[0]]))
  {
    assert RingAt([head] + entries, 0);
    if entries != [] { assert Differ([head] + entries, 0, 1); }
    if head.next != head {
      ListMoveTail(head.next, head, entries, 0);
      assert RemoveAt(entries, 0) == entries[1..];
    }
  }

  // Sections of rings

  /** The links inside a section. */
  predicate InsideAt(b: seq<ListHead>, i: nat)
    requires i < |b|
    reads b
  {
    (i + 1 < |b| ==> b[i].next == b[i + 1]) && (i > 0 ==> b[i].prev == b[i - 1])
  }

  ghost predicate Section(b: seq<ListHead>)
    reads b
  {
    NoRepeats(b) && forall i: nat {:trigger InsideAt(b, i)} :: i < |b| ==> InsideAt(b, i)
  }

  /** The neighbours of a section are linked to each other. */
  method UnlinkSection(first: ListHead, last: ListHead, ghost r: seq<ListHead>, ghost x: nat, ghost m: nat)
    requires Ring(r) && 0 < x && 0 < m && x + m <= |r| && first == r[x] && last == r[x + m - 1]
    modifies r
    ensures Ring(r[..x] + r[x + m..]) && Section(r[x..x + m])
  {
    ghost var rest, b := r[..x] + r[x + m..], r[x..x + m];
    assert RingAt(r, x) && RingAt(r, x + m - 1);
    first.prev.next := last.next;
    last.next.prev := first.prev;
    TwoParts(r, x, m, rest, b);
    forall k: nat | k < |rest| ensures RingAt(rest, k) {
      ghost var j := if k < x then k else k + m;
      assert old(RingAt(r, j));
      assert Differ(r, j, x - 1) || j == x - 1;
      assert x + m < |r| ==> Differ(r, j, x + m) || j == x + m;
      assert Differ(r, j, 0) || j == 0;
    }
    forall k: nat | k < |b| ensures InsideAt(b, k) {
      assert old(RingAt(r, x + k));
      assert Differ(r, x + k, x - 1) && Differ(r, x + k, 0);
      assert x + m < |r| ==> Differ(r, x + k, x + m);
    }
  }

  /** A section behind the last entry. */
  method AppendSection(head: ListHead, first: ListHead, last: ListHead, ghost r: seq<ListHead>, ghost b: seq<ListHead>)
    requires Ring(r) && r != [] && head == r[0] && Section(b) && b != [] && first == b[0] && last == b[|b| - 1]
    requires forall y :: y in b ==> y !in r
    modifies r, b
    ensures Ring(r + b)
  {
    assert RingAt(r, 0) && first in b && last in b && head in r && r[|r| - 1] in r;
    head.prev.next := first;
    first.prev := head.prev;
    last.next := head;
    head.prev := last;
    ghost var t := r + b;
    JoinNoRepeats(r, b);
    forall k: nat | k < |t| ensures RingAt(t, k) {
      if k < |r| {
        assert old(RingAt(r, k)) && r[k] in r;
        assert (Differ(r, k, |r| - 1) || k == |r| - 1) && (Differ(r, k, 0) || k == 0);
      } else {
        assert old(InsideAt(b, k - |r|)) && b[k - |r|] in b;
        assert (Differ(b, k - |r|, |b| - 1) || k - |r| == |b| - 1) && (Differ(b, k - |r|, 0) || k == |r|);
      }
    }
  }

  /** list_bulk_move_tail: a section goes behind what follows it. */
  method ListBulkMoveTail(head: ListHead, first: ListHead, last: ListHead, ghost a: seq<ListHead>,
      ghost b: seq<ListHead>, ghost c: seq<ListHead>)
    requires Ring([head] + a + b + c) && b != [] && first == b[0] && last == b[|b| - 1]
    modifies [head] + a + b + c
    ensures Ring([head] + a + c + b)
  {
    ghost var r, x, m := [head] + a + b + c, 1 + |a|, |b|;
    assert r[..x] + r[x + m..] == [head] + a + c && r[x..x + m] == b;
    TwoParts(r, x, m, [head] + a + c, b);
    UnlinkSection(first, last, r, x, m);
    AppendSection(head, first, last, [head] + a + c, b);
  }

  // Cutting a ring in two

  /** A new head in front of the first n entries of a ring. */
  lemma PrefixNoRepeats(r: seq<ListHead>, n: nat, list: ListHead)
    requires NoRepeats(r) && n < |r| && list !in r
    ensures NoRepeats([list] + r[1..n + 1])
  {
    var t := [list] + r[1..n + 1];
    forall i: nat, j: nat | i < |t| && j < |t| && i != j ensures Differ(t, i, j) {
      if i > 0 && j > 0 { assert Differ(r, i, j); }
    }
  }

  /** The old head in front of the others. */
  lemma SuffixNoRepeats(r: seq<ListHead>, n: nat)
    requires NoRepeats(r) && n < |r|
    ensures NoRepeats([r[0]] + r[n + 1..])
  {
    var t := [r[0]] + r[n + 1..];
    forall i: nat, j: nat | i < |t| && j < |t| && i != j ensures Differ(t, i, j) {
      assert Differ(r, if i == 0 then 0 else n + i, if j == 0 then 0 else n + j);
    }
  }

  /** The links of a cut behind entry n, which is not the head: both cuts of list.h come down to these. */
  method CutBehind(list: ListHead, head: ListHead, entry: ListHead, newFirst: ListHead, ghost r: seq<ListHead>,
      ghost n: nat)
    requires Ring(r) && 0 < n < |r| && head == r[0] && entry == r[n] && newFirst == NextIn(r, n) && list !in r
    modifies list, r
    ensures Ring([list] + r[1..n + 1]) && Ring([head] + r[n + 1..])
  {
    assert RingAt(r, 0) && Differ(r, 0, n) && Differ(r, 0, 1);
    assert n + 1 < |r| ==> Differ(r, 1, n + 1) && Differ(r, 0, n + 1) && Differ(r, n, n + 1);
    list.next := head.next;
    list.next.prev := list;
    list.prev := entry;
    entry.next := list;
    head.next := newFirst;
    newFirst.prev := head;
    ghost var a, b := [list] + r[1..n + 1], [head] + r[n + 1..];
    PrefixNoRepeats(r, n, list);
    SuffixNoRepeats(r, n);
    assert a[0] == list && a[1] == r[1] && a[n] == r[n] && |a| == n + 1;
    assert list.next == r[1] && list.prev == r[n];
    forall k: nat | k < |a| ensures RingAt(a, k) {
      if k > 0 {
        assert old(RingAt(r, k)) && a[k] == r[k] && r[k] in r;
        assert (k > 1 ==> a[k - 1] == r[k - 1]) && (k < n ==> a[k + 1] == r[k + 1]);
        assert Differ(r, k, 0) && (k == n || Differ(r, k, n)) && (k == 1 || Differ(r, k, 1));
        assert n + 1 < |r| ==> Differ(r, k, n + 1);
      }
    }
    forall k: nat | k < |b| ensures RingAt(b, k) {
      ghost var j := if k == 0 then 0 else n + k;
      assert old(RingAt(r, j)) && b[k] == r[j];
      assert j == 0 || Differ(r, j, 0);
      assert Differ(r, j, n) && Differ(r, j, 1);
      assert n + 1 < |r| ==> j == n + 1 || Differ(r, j, n + 1);
    }
  }

  /** list_cut_position: the entries up to and including `entry` move to `list`. An empty list is left
      alone, and so is `list` then. */
  method ListCutPosition(list: ListHead, head: ListHead, entry: ListHead, ghost r: seq<ListHead>, ghost n: nat)
    requires Ring(r) && n < |r| && head == r[0] && entry == r[n] && list !in r
    modifies list, r
    ensures |r| == 1 ==> unchanged(list) && unchanged(r)
    ensures |r| > 1 ==> Ring([list] + r[1..n + 1]) && Ring([head] + r[n + 1..])
  {
    assert RingAt(r, 0);
    if |r| > 1 { assert Differ(r, 0, 1); }
    if |r| > 2 { assert Differ(r, 1, |r| - 1); }
    if n > 0 { assert Differ(r, 0, n); }
    if head.next == head {
      return;
    }
    if head.next == head.prev && entry != head && entry != head.next {
      return;
    }
    if entry == head {
      InitListHead(list);
      assert [list] + r[1..n + 1] == [list] && [head] + r[n + 1..] == r;
      forall k: nat | k < |r| ensures RingAt(r, k) { assert old(RingAt(r, k)); }
    } else {
      assert RingAt(r, n);
      CutBehind(list, head, entry, entry.next, r, n);
    }
  }

  /** list_cut_before: the entries in front of `entry` move to `list`; with the head as entry, all do. */
  method ListCutBefore(list: ListHead, head: ListHead, entry: ListHead, ghost r: seq<ListHead>, ghost n: nat)
    requires Ring(r) && n < |r| && head == r[0] && entry == NextIn(r, n) && list !in r
    modifies list, r
    ensures Ring([list] + r[1..n + 1]) && Ring([head] + r[n + 1..])
  {
    assert RingAt(r, 0);
    if n > 0 {
      assert Differ(r, 0, 1) && Differ(r, 1, if n + 1 < |r| then n + 1 else 0);
    }
    if head.next == entry {
      InitListHead(list);
      assert [list] + r[1..n + 1] == [list] && [head] + r[n + 1..] == r;
      forall k: nat | k < |r| ensures RingAt(r, k) { assert old(RingAt(r, k)); }
      return;
    }
    assert RingAt(r, if n + 1 < |r| then n + 1 else 0);
    var last := entry.prev;
    CutBehind(list, head, last, entry, r, n);
  }

  // Joining rings

  /** The entries of ring q, without its head, behind position i of r. */
  function SpliceAt(r: seq<ListHead>, i: nat, q: seq<ListHead>): seq<ListHead>
    requires i < |r| && q != []
  {
    r[..i + 1] + q[1..] + r[i + 1..]
  }

  ghost predicate Disjoint(a: seq<ListHead>, b: seq<ListHead>) {
    forall x :: x in a ==> x !in b
  }

  lemma SpliceNoRepeats(r: seq<ListHead>, i: nat, q: seq<ListHead>)
    requires i < |r| && q != [] && NoRepeats(r) && NoRepeats(q) && Disjoint(r, q)
    ensures NoRepeats(SpliceAt(r, i, q))
  {
    var t, m := SpliceAt(r, i, q), |q| - 1;
    forall a: nat, b: nat | a < |t| && b < |t| && a != b ensures Differ(t, a, b) {
      if i < a <= i + m {
        if i < b <= i + m {
          assert Differ(q, a - i, b - i);
        } else {
          assert t[a] == q[a - i] && t[a] in q && t[b] == r[if b <= i then b else b - m] && t[b] in r;
        }
      } else if i < b <= i + m {
        assert t[b] == q[b - i] && t[b] in q && t[a] == r[if a <= i then a else a - m] && t[a] in r;
      } else {
        assert Differ(r, if a <= i then a else a - m, if b <= i then b else b - m);
      }
    }
  }

  /** __list_splice: the entries behind `list` go between two neighbours. */
  method SpliceBetween(list: ListHead, prev: ListHead, next: ListHead, ghost q: seq<ListHead>,
      ghost r: seq<ListHead>, ghost i: nat)
    requires Ring(q) && |q| > 1 && list == q[0] && Ring(r) && i < |r| && prev == r[i] && next == NextIn(r, i)
    requires Disjoint(r, q)
    modifies q[1..], r
    ensures Ring(SpliceAt(r, i, q))
    ensures list !in SpliceAt(r, i, q)
  {
    ghost var t, m, n := SpliceAt(r, i, q), |q| - 1, |r|;
    assert RingAt(q, 0) && Differ(q, 0, 1) && Differ(q, 0, m);
    assert q[1] in q[1..] && q[m] in q[1..] && q[1] in q && q[m] in q && r[i] in r;
    var first, last := list.next, list.prev;
    first.prev := prev;
    prev.next := first;
    last.next := next;
    next.prev := last;
    SpliceNoRepeats(r, i, q);
    assert t[i] == prev && t[i + 1] == first && t[i + m] == last;
    assert i + 1 < n ==> t[i + m + 1] == next;
    assert t[0] == r[0] && t[n + m - 1] == if i + 1 < n then r[n - 1] else last;
    forall k: nat | k < |t| ensures RingAt(t, k) && t[k] != list {
      if i < k <= i + m {
        ghost var j := k - i;
        assert old(RingAt(q, j)) && t[k] == q[j] && q[j] in q && Differ(q, 0, j);
        assert (j == 1 || Differ(q, j, 1)) && (j == m || Differ(q, j, m));
        assert (j > 1 ==> t[k - 1] == q[j - 1]) && (j < m ==> t[k + 1] == q[j + 1]);
      } else {
        ghost var j := if k <= i then k else k - m;
        assert old(RingAt(r, j)) && t[k] == r[j] && r[j] in r;
        assert j == i || Differ(r, j, i);
        assert if i + 1 < n then j == i + 1 || Differ(r, j, i + 1) else j == 0 || Differ(r, j, 0);
        assert (j > 0 && j != i + 1 ==> t[k - 1] == r[j - 1]) && (j + 1 < n && j != i ==> t[k + 1] == r[j + 1]);
      }
    }
  }

  /** list_splice_init: the entries of `list` come first in the joined ring. */
  method ListSpliceInit(list: ListHead, head: ListHead, ghost q: seq<ListHead>, ghost r: seq<ListHead>)
    requires Ring(q) && q != [] && list == q[0] && Ring(r) && r != [] && head == r[0] && Disjoint(r, q)
    modifies q, r
    ensures Ring([list]) && Ring([head] + q[1..] + r[1..])
  {
    assert RingAt(q, 0) && RingAt(r, 0);
    if |q| > 1 { assert Differ(q, 0, 1); }
    assert SpliceAt(r, 0, q) == [head] + q[1..] + r[1..];
    if list.next != list {
      SpliceBetween(list, head, head.next, q, r, 0);
      InitListHead(list);
    } else {
      assert SpliceAt(r, 0, q) == r && q == [list];
    }
  }

  /** list_splice_tail_init: the entries of `list` come last in the joined ring. */
  method ListSpliceTailInit(list: ListHead, head: ListHead, ghost q: seq<ListHead>, ghost r: seq<ListHead>)
    requires Ring(q) && q != [] && list == q[0] && Ring(r) && r != [] && head == r[0] && Disjoint(r, q)
    modifies q, r
    ensures Ring([list]) && Ring(r + q[1..])
  {
    assert RingAt(q, 0) && RingAt(r, 0);
    if |q| > 1 { assert Differ(q, 0, 1); }
    assert SpliceAt(r, |r| - 1, q) == r + q[1..];
    if list.next != list {
      SpliceBetween(list, head.prev, head, q, r, |r| - 1);
      InitListHead(list);
    } else {
      assert r + q[1..] == r && q == [list];
    }
  }

  /** Cutting a ring and splicing the part back in front restores it. */
  method CutAndSplice(list: ListHead, head: ListHead, entry: ListHead, ghost r: seq<ListHead>, ghost n: nat)
    requires Ring(r) && 0 < n < |r| && head == r[0] && entry == r[n] && list !in r
    modifies list, r
    ensures Ring(r) && Ring([list])
  {
    ListCutPosition(list, head, entry, r, n);
    ghost var q, rest := [list] + r[1..n + 1], [head] + r[n + 1..];
    PrefixNoRepeats(r, n, list);
    forall x | x in rest ensures x !in q {
      ghost var k :| 0 <= k < |rest| && rest[k] == x;
      forall j: nat | j < |q| ensures q[j] != x {
        assert j == 0 || Differ(r, j, if k == 0 then 0 else n + k);
        assert x in r;
      }
    }
    ListSpliceInit(list, head, q, rest);
    assert [head] + q[1..] + rest[1..] == r;
  }
}
