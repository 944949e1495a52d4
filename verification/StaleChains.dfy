/** Sibling chains whose first child may not know the last one, as sorting leaves them: what appending,
    detaching and sorting again make of such a chain, and of what its first child says. */
module StaleChains {
  import opened CText
  import opened Json
  import opened MergeSort
  import opened Sequences
  import opened Siblings
  import opened SiblingSort
  import opened Tails

  /** The links between the children; what the first one's prev says is left open. */
  ghost predicate Chained(parent: Item)
    reads parent, parent.children
  {
    && Linked(parent.children) && NoRepeats(parent.children) && parent !in parent.children
    && Starts(parent.child, parent.children)
  }

  /** What the first one's prev says. */
  ghost predicate Says(parent: Item, tail: Tail)
    requires Chained(parent)
    reads parent, parent.children
  {
    parent.children != [] ==> Meant(parent.children[0].prev, parent.children, tail)
  }

  predicate Meant(said: Item?, s: seq<Item>, tail: Tail) {
    match tail
    case Nowhere => said == null
    case At(k) => k < |s| && said == s[k]
    case Elsewhere => said != null && said !in s
  }

  lemma ValidIsKnowing(parent: Item)
    ensures var n := |parent.children|;
      parent.Valid() <==> Chained(parent) && (n > 0 ==> Says(parent, At(n - 1)))
  {
    var s := parent.children;
    if parent.Valid() {
      forall i: nat | i < |s| ensures LinkAt(s, i) { assert Item.LinkedAt(s, i); }
      assert s != [] ==> Item.LinkedAt(s, 0);
    }
    if Chained(parent) && (s != [] ==> Says(parent, At(|s| - 1))) {
      forall i: nat | i < |s| ensures Item.LinkedAt(s, i) { assert LinkAt(s, i); }
    }
  }

  /** What the first one says is one thing only. */
  lemma SaysOneThing(parent: Item, tail: Tail)
    requires Chained(parent) && parent.children != [] && Says(parent, tail)
    ensures Says(parent, At(|parent.children| - 1)) <==> tail == At(|parent.children| - 1)
  {
    var s := parent.children;
    assert s[|s| - 1] in s;
    if tail.At? && tail.index != |s| - 1 { assert Differ(s, tail.index, |s| - 1); }
  }

  /** sort_object: the children are sorted, but nobody tells the new first child who is last; it says what it
      said before, or nothing when it is a new one. A valid chain is valid again exactly when the first and the
      last child keep their places. */
  method SortObject(parent: Item, cs: bool, ghost tail: Tail)
    requires Chained(parent) && Says(parent, tail)
    modifies parent`child, parent`children, parent.children`next, parent.children`prev
    ensures Entries(parent.children) == Sort(Entries(old(parent.children)), cs)
    ensures multiset(parent.children) == multiset(old(parent.children))
    ensures Chained(parent) && Says(parent, AfterSort(Entries(old(parent.children)), tail, cs))
    ensures old(parent.Valid()) ==> (parent.Valid() <==> EndsStay(Entries(old(parent.children)), cs))
  {
    ghost var s := parent.children;
    ghost var said := if s == [] then null else s[0].prev;
    ValidBefore(parent, tail);
    var sorted;
    ghost var t;
    sorted, t := SortList(parent.child, s, cs);
    parent.child := sorted;
    parent.children := t;
    SameItems(t, s);
    if s != [] { SaysAfterSort(parent, s, said, tail, cs); }
  }

  lemma ValidBefore(parent: Item, tail: Tail)
    requires Chained(parent) && Says(parent, tail)
    ensures parent.Valid() <==> Knows(|parent.children|, tail)
  {
    ValidIsKnowing(parent);
    if parent.children != [] { SaysOneThing(parent, tail); }
  }

  lemma SaysAfterSort(parent: Item, s: seq<Item>, said: Item?, tail: Tail, cs: bool)
    requires Chained(parent) && NoRepeats(s) && s != [] && multiset(parent.children) == multiset(s)
    requires Entries(parent.children) == Sort(Entries(s), cs) && Meant(said, s, tail)
    requires parent.children[0].prev == if parent.children[0] == s[0] then said else null
    ensures Says(parent, AfterSort(Entries(s), tail, cs))
    ensures Knows(|s|, tail) ==> (parent.Valid() <==> EndsStay(Entries(s), cs))
  {
    SameItems(parent.children, s);
    PlacesOfItems(s, parent.children, cs);
    if Knows(|s|, tail) { SortKeepsTail(Entries(s), tail, cs); }
    ValidBefore(parent, AfterSort(Entries(s), tail, cs));
  }

  /** The places of the sorted list, as the items have them. */
  lemma PlacesOfItems(s: seq<Item>, t: seq<Item>, cs: bool)
    requires NoRepeats(s) && |t| == |s| && Entries(t) == Sort(Entries(s), cs)
    ensures s != [] ==> (t[0] == s[0] <==> SortedPlaces(Entries(s), cs)[0] == 0)
    ensures forall k :: 0 <= k < |s| ==> var j := PlaceOf(SortedPlaces(Entries(s), cs), k); j < |s| && t[j] == s[k]
  {
    var es, order := Entries(s), SortedPlaces(Entries(s), cs);
    SortMoves(es, cs);
    forall j | 0 <= j < |s| ensures t[j] == s[order[j]] { assert Entries(t)[j].value == t[j]; }
    if s != [] && order[0] != 0 { assert Differ(s, order[0], 0); }
    forall k | 0 <= k < |s| ensures var j := PlaceOf(order, k); j < |s| && t[j] == s[k] {
      PlaceIsFound(es, k, cs);
    }
  }

  /** add_item_to_array, whatever the first child says short of an item that is no child. */
  method AddItem(parent: Item, item: Item, ghost tail: Tail) returns (ok: bool)
    requires Chained(parent) && Says(parent, tail) && Points(|parent.children|, tail)
    requires item !in parent.children && item.next == null
    modifies parent`child, parent`children, parent.children`next, parent.children`prev, item`next, item`prev
    ensures ok == (item != parent)
    ensures !ok ==> unchanged(parent) && unchanged(parent.children)
    ensures var r := Appended(old(parent.children), tail, item).value;
      ok ==> parent.children == r.items && Chained(parent) && Says(parent, r.tail)
  {
    if item == parent {
      return false;
    }
    ghost var s := parent.children;
    if s != [] { assert LinkAt(s, 0); }
    if parent.child == null {
      parent.child := item;
      item.prev := item;
      item.next := null;
    } else if parent.child.prev != null {
      SuffixObject(parent.child.prev, item);
      parent.child.prev := item;
    }
    parent.children := Appended(s, tail, item).value.items;
    if s != [] && tail.At? {
      CutNoRepeats(s, tail.index, item);
      forall i: nat | i < |parent.children| ensures LinkAt(parent.children, i) {
        if i <= tail.index {
          assert old(LinkAt(s, i));
          assert i == tail.index || Differ(s, i, tail.index);
          assert i == 0 || Differ(s, i, 0);
        }
      }
    } else if s != [] {
      forall i: nat | i < |s| ensures LinkAt(s, i) { assert old(LinkAt(s, i)); }
    }
    return true;
  }

  lemma CutNoRepeats(s: seq<Item>, k: nat, x: Item)
    requires NoRepeats(s) && k < |s| && x !in s
    ensures NoRepeats(s[..k + 1] + [x])
  {
    var p := s[..k + 1];
    forall i: nat, j: nat | i < |p| && j < |p| && i != j ensures Differ(p, i, j) { assert Differ(s, i, j); }
    AppendNoRepeats(p, x);
  }

  /** cJSON_DetachItemViaPointer. */
  method DetachItem(parent: Item, item: Item, ghost i: nat, ghost tail: Tail)
    requires Chained(parent) && Says(parent, tail) && i < |parent.children| && parent.children[i] == item
    modifies parent`child, parent`children, parent.children`next, parent.children`prev
    ensures item.next == null && item.prev == null
    ensures parent.children == RemoveAt(old(parent.children), i) && Chained(parent)
    ensures Says(parent, AfterDetach(|old(parent.children)|, tail, i))
  {
    ghost var s, n := parent.children, |parent.children|;
    ghost var said := s[0].prev;
    assert LinkAt(s, i) && LinkAt(s, 0);
    if i > 0 { assert Differ(s, 0, i); }
    if item != parent.child {
      item.prev.next := item.next;
    }
    if item.next != null {
      item.next.prev := item.prev;
    }
    if item == parent.child {
      parent.child := item.next;
    } else if item.next == null {
      parent.child.prev := item.prev;
    }
    item.prev := null;
    item.next := null;
    parent.children := RemoveAt(s, i);
    RemoveNoRepeats(s, i);
    forall k: nat | k < |parent.children| ensures LinkAt(parent.children, k) {
      ghost var j := if k < i then k else k + 1;
      assert old(LinkAt(s, j));
      assert Differ(s, j, i);
      assert i > 0 ==> Differ(s, j, i - 1) || j == i - 1;
      assert i + 1 < n ==> Differ(s, j, i + 1) || j == i + 1;
      assert Differ(s, j, 0) || j == 0;
    }
    if n > 1 {
      assert i == 0 || Differ(s, 1, 0);
      assert i == 0 || i == n - 1 || Differ(s, i + 1, 0);
      assert parent.children[0].prev == if 0 < i == n - 1 then s[n - 2] else said;
      MeantAfterDetach(said, s, tail, i);
    }
  }

  lemma MeantAfterDetach(said: Item?, s: seq<Item>, tail: Tail, i: nat)
    requires NoRepeats(s) && i < |s| && |s| > 1 && Meant(said, s, tail)
    ensures Meant(if 0 < i == |s| - 1 then s[|s| - 2] else said, RemoveAt(s, i), AfterDetach(|s|, tail, i))
  {
    RemoveNoRepeats(s, i);
    assert forall x :: x in RemoveAt(s, i) ==> x in s;
  }

  /** A valid chain is sorted and then appended to: the new child comes last exactly when sorting leaves the
      ends in their places. With a new first child it is not linked at all; with the old one it goes behind the
      child that was last before, and what the sort put behind that one is lost. */
  method SortThenAdd(parent: Item, item: Item, cs: bool) returns (ghost sorted: seq<Item>, ghost k: nat)
    requires parent.Valid() && item !in parent.children && item != parent && item.next == null
    modifies parent`child, parent`children, parent.children`next, parent.children`prev, item`next, item`prev
    ensures Entries(sorted) == Sort(Entries(old(parent.children)), cs)
    ensures multiset(sorted) == multiset(old(parent.children))
    ensures parent.children == sorted + [item] <==> EndsStay(Entries(old(parent.children)), cs)
    ensures sorted != [] && sorted[0] != old(parent.children)[0] ==> parent.children == sorted
    ensures sorted != [] && sorted[0] == old(parent.children)[0] ==>
              CutBehind(parent.children, sorted, k, old(parent.children)[|sorted| - 1], item)
  {
    ghost var s := parent.children;
    ghost var said;
    sorted, said := SortValid(parent, item, cs);
    k := if said.At? then said.index else 0;
    AddedBehind(s, sorted, said, k, item);
    assert forall i :: 0 <= i < |sorted| ==> sorted[i] in s;
    var ok := AddItem(parent, item, said);
  }

  method SortValid(parent: Item, item: Item, cs: bool) returns (ghost sorted: seq<Item>, ghost said: Tail)
    requires parent.Valid() && item !in parent.children && item != parent
    modifies parent`child, parent`children, parent.children`next, parent.children`prev
    ensures sorted == parent.children && Chained(parent) && Says(parent, said)
    ensures Entries(sorted) == Sort(Entries(old(parent.children)), cs)
    ensures multiset(sorted) == multiset(old(parent.children))
    ensures forall x :: x in sorted <==> x in old(parent.children)
    ensures Points(|sorted|, said) && (Knows(|sorted|, said) <==> EndsStay(Entries(old(parent.children)), cs))
    ensures sorted != [] && sorted[0] != old(parent.children)[0] ==> said == Nowhere
    ensures sorted != [] && sorted[0] == old(parent.children)[0] ==>
      said.At? && said.index < |sorted| && sorted[said.index] == old(parent.children)[|sorted| - 1]
  {
    ghost var s := parent.children;
    ghost var tail := ValidSays(parent);
    SortObject(parent, cs, tail);
    sorted := parent.children;
    said := AfterSort(Entries(s), tail, cs);
    SaidAfterSort(s, sorted, tail, said, cs);
  }

  lemma AddedBehind(s: seq<Item>, sorted: seq<Item>, said: Tail, k: nat, item: Item)
    requires |sorted| == |s| && Points(|s|, said) && k == if said.At? then said.index else 0
    requires s != [] && sorted[0] != s[0] ==> said == Nowhere
    requires s != [] && sorted[0] == s[0] ==> said.At? && said.index < |s| && sorted[said.index] == s[|s| - 1]
    ensures var after := Appended(sorted, said, item).value.items;
      && (after == sorted + [item] <==> Knows(|s|, said))
      && (s != [] && sorted[0] != s[0] ==> after == sorted)
      && (s != [] && sorted[0] == s[0] ==> CutBehind(after, sorted, k, s[|s| - 1], item))
  {
  }

  /** The new child stands behind the one that was last before. */
  predicate CutBehind(after: seq<Item>, sorted: seq<Item>, k: nat, last: Item, item: Item) {
    k < |sorted| && sorted[k] == last && after == sorted[..k + 1] + [item]
  }

  lemma ValidSays(parent: Item) returns (tail: Tail)
    requires parent.Valid()
    ensures Chained(parent) && Says(parent, tail) && Knows(|parent.children|, tail)
  {
    tail := if parent.children == [] then Nowhere else At(|parent.children| - 1);
    ValidIsKnowing(parent);
  }

  lemma {:induction false} SaidAfterSort(s: seq<Item>, sorted: seq<Item>, tail: Tail, said: Tail, cs: bool)
    requires NoRepeats(s) && Knows(|s|, tail) && |s| == |sorted| && Entries(sorted) == Sort(Entries(s), cs)
    requires multiset(sorted) == multiset(s) && said == AfterSort(Entries(s), tail, cs)
    ensures forall x :: x in sorted <==> x in s
    ensures Points(|s|, said) && (Knows(|s|, said) <==> EndsStay(Entries(s), cs))
    ensures s != [] && sorted[0] != s[0] ==> said == Nowhere
    ensures s != [] && sorted[0] == s[0] ==> said.At? && said.index < |s| && sorted[said.index] == s[|s| - 1]
  {
    SameItems(sorted, s);
    SortKeepsPointing(Entries(s), tail, cs);
    SortKeepsTail(Entries(s), tail, cs);
    PlacesOfItems(s, sorted, cs);
  }

  /** Children "b", "a": sorted, "a" is the first one and says nothing about "b". */
  method TwoChangePlaces(cs: bool) returns (parent: Item)
    ensures fresh(parent) && !parent.Valid() && parent.child != null && parent.child.prev == null
    ensures |parent.children| == 2 && parent.children[0].name == "a" && parent.children[1].name == "b"
  {
    parent := new Item("");
    var b := new Item("b");
    var a := new Item("a");
    var ok := parent.AddItemToArray(b);
    ok := parent.AddItemToArray(a);
    ghost var es := Entries(parent.children);
    assert es == [Entry("b", b), Entry("a", a)];
    OutOfOrder(es[0], es[1], cs);
    ValidIsKnowing(parent);
    SortObject(parent, cs, At(1));
    assert Entries(parent.children)[0].key == parent.children[0].name;
    assert Entries(parent.children)[1].key == parent.children[1].name;
  }

  lemma OutOfOrder<T>(b: Entry<T>, a: Entry<T>, cs: bool)
    requires b.key == "b" && a.key == "a"
    ensures Sort([b, a], cs) == [a, b] && SortedPlaces([b, a], cs) == [1, 0]
  {
    assert Fold("a", cs) == "a" && Fold("b", cs) == "b" && "a"[0] < "b"[0];
    SortTwo(b, a, cs);
    SortTwo(Entry("b", 0 as nat), Entry("a", 1 as nat), cs);
    assert Places([b, a]) == [Entry("b", 0 as nat), Entry("a", 1 as nat)];
  }
}
