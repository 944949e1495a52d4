/** What the prev of the first child says. add_item_to_array takes it for the last child; sorting, which nobody
    follows up, leaves it null or pointing to where the last child was. */
module Tails {
  import opened CText
  import opened Json
  import opened MergeSort
  import opened Options

  /** Null, a child, or an item that is no child any more. */
  datatype Tail = Nowhere | At(index: nat) | Elsewhere

  /** The children and what the first one says about the last. */
  datatype Chain<T> = Chain(items: seq<T>, tail: Tail)

  /** The first of n children knows the last one. */
  predicate Knows(n: nat, tail: Tail) {
    n == 0 || tail == At(n - 1)
  }

  /** What it says is null or a child. */
  predicate Points(n: nat, tail: Tail) {
    n == 0 || tail == Nowhere || (tail.At? && tail.index < n)
  }

  /** add_item_to_array: the new child goes behind the one that the first child points to, and what was behind
      that one is cut off; without a pointer nothing happens. Where a pointer to an item that is no child leads
      is not said. */
  function Appended<T>(s: seq<T>, tail: Tail, x: T): (r: Option<Chain<T>>)
    ensures r.Some? <==> Points(|s|, tail)
    ensures Knows(|s|, tail) <==> r.Some? && r.value.items == s + [x]
    ensures Knows(|s|, tail) ==> Knows(|r.value.items|, r.value.tail)
  {
    if s == [] then Some(Chain([x], At(0)))
    else
      match tail
      case Nowhere => Some(Chain(s, Nowhere))
      case At(k) => if k < |s| then Some(Chain(s[..k + 1] + [x], At(k + 1))) else None
      case Elsewhere => None
  }

  /** cJSON_DetachItemViaPointer: the second child takes over what the first one says, and taking out the last
      one corrects it. */
  function AfterDetach(n: nat, tail: Tail, i: nat): (r: Tail)
    requires i < n
    ensures Knows(n, tail) ==> Knows(n - 1, r)
  {
    if 0 < i == n - 1 then At(n - 2)
    else
      match tail
      case At(k) => if k == i then Elsewhere else if k > i then At(k - 1) else tail
      case _ => tail
  }

  // Sorting

  /** The children by their places. */
  function Places<T>(es: seq<Entry<T>>): (r: seq<Entry<nat>>)
    ensures |r| == |es|
  {
    seq(|es|, i requires 0 <= i < |es| => Entry(es[i].key, i))
  }

  /** For each place of the sorted list, the place from which its child comes. */
  function SortedPlaces<T>(es: seq<Entry<T>>, cs: bool): (r: seq<nat>)
    ensures |r| == |es|
  {
    var s := Sort(Places(es), cs);
    seq(|es|, i requires 0 <= i < |es| => s[i].value)
  }

  /** Where the child from place k stands. */
  function PlaceOf(order: seq<nat>, k: nat): (j: nat)
    ensures j <= |order|
    ensures j < |order| ==> order[j] == k
    ensures forall i :: 0 <= i < j ==> order[i] != k
  {
    if order == [] then 0
    else if order[0] == k then 0
    else 1 + PlaceOf(order[1..], k)
  }

  /** sort_list: only a first child that stays first still says something, and it says what it did. */
  function AfterSort<T>(es: seq<Entry<T>>, tail: Tail, cs: bool): Tail {
    var order := SortedPlaces(es, cs);
    if es == [] then tail
    else if order[0] != 0 then Nowhere
    else if tail.At? then At(PlaceOf(order, tail.index))
    else tail
  }

  /** Sorting leaves the first and the last child in their places. */
  predicate EndsStay<T>(es: seq<Entry<T>>, cs: bool) {
    var n, order := |es|, SortedPlaces(es, cs);
    n > 0 ==> order[0] == 0 && order[n - 1] == n - 1
  }

  function Renamed<T, U>(es: seq<Entry<T>>, f: T -> U): (r: seq<Entry<U>>)
    ensures |r| == |es|
  {
    seq(|es|, i requires 0 <= i < |es| => Entry(es[i].key, f(es[i].value)))
  }

  lemma {:induction false} MergeIsNatural<T, U>(a: seq<Entry<T>>, b: seq<Entry<T>>, f: T -> U, cs: bool)
    ensures Merge(Renamed(a, f), Renamed(b, f), cs) == Renamed(Merge(a, b, cs), f)
  {
    if a != [] && b != [] {
      assert Renamed(a, f)[1..] == Renamed(a[1..], f) && Renamed(b, f)[1..] == Renamed(b[1..], f);
      if Compare(a[0].key, b[0].key, cs) < 0 {
        MergeIsNatural(a[1..], b, f, cs);
      } else {
        MergeIsNatural(a, b[1..], f, cs);
      }
    }
  }

  /** Sorting looks at keys only. */
  lemma {:induction false} SortIsNatural<T, U>(es: seq<Entry<T>>, f: T -> U, cs: bool)
    ensures Sort(Renamed(es, f), cs) == Renamed(Sort(es, cs), f)
    decreases |es|
  {
    var r := Renamed(es, f);
    assert StrictlyAscending(r, cs) <==> StrictlyAscending(es, cs) by {
      assert forall i :: 0 <= i < |es| ==> r[i].key == es[i].key;
    }
    if |es| > 1 && !StrictlyAscending(es, cs) {
      var m := (|es| + 1) / 2;
      var a, b := es[..m], es[m..];
      assert r[..m] == Renamed(a, f) && r[m..] == Renamed(b, f);
      SortIsNatural(a, f, cs);
      SortIsNatural(b, f, cs);
      MergeIsNatural(Sort(a, cs), Sort(b, cs), f, cs);
      SortUnfolds(r, Renamed(a, f), Renamed(b, f), cs);
    }
  }

  /** The sorted list, child by child: each place of the old list turns up once. */
  lemma SortMoves<T>(es: seq<Entry<T>>, cs: bool)
    ensures var order, r := SortedPlaces(es, cs), Sort(es, cs);
      && (forall j :: 0 <= j < |es| ==> order[j] < |es| && r[j] == es[order[j]])
      && (forall i, j :: 0 <= i < j < |es| ==> order[i] != order[j])
  {
    var ps, order := Places(es), SortedPlaces(es, cs);
    if es != [] {
      var f := (k: nat) => if k < |es| then es[k].value else es[0].value;
      assert Renamed(ps, f) == es;
      SortIsNatural(ps, f, cs);
      forall j | 0 <= j < |es| ensures order[j] < |es| && Sort(es, cs)[j] == es[order[j]] {
        var i := SortedFrom(ps, j, cs);
      }
      forall i, j | 0 <= i < j < |es| ensures order[i] != order[j] {
        PlacesMoveApart(es, i, j, cs);
      }
    }
  }

  lemma PlacesMoveApart<T>(es: seq<Entry<T>>, i: nat, j: nat, cs: bool)
    requires i < j < |es|
    ensures SortedPlaces(es, cs)[i] != SortedPlaces(es, cs)[j]
  {
    var ps, s := Places(es), Sort(Places(es), cs);
    SortPermutes(ps, cs);
    var a := SortedFrom(ps, i, cs);
    var b := SortedFrom(ps, j, cs);
    if a == b {
      CountAtMostOne(s, i, j);
      PlacesCountOne(es, a);
      assert false;
    }
  }

  lemma PlacesCountOne<T>(es: seq<Entry<T>>, a: nat)
    requires a < |es|
    ensures multiset(Places(es))[Places(es)[a]] == 1
  {
    var ps := Places(es);
    assert ps == ps[..a] + [ps[a]] + ps[a + 1..];
    assert ps[a] !in ps[..a] && ps[a] !in ps[a + 1..];
  }

  /** Every child stands somewhere in the sorted list. */
  lemma PlaceIsFound<T>(es: seq<Entry<T>>, k: nat, cs: bool)
    requires k < |es|
    ensures PlaceOf(SortedPlaces(es, cs), k) < |es|
  {
    var ps, s := Places(es), Sort(Places(es), cs);
    SortPermutes(ps, cs);
    assert ps[k] in multiset(s);
    var j :| 0 <= j < |s| && s[j] == ps[k];
    assert SortedPlaces(es, cs)[j] == k;
  }

  /** A first child that knew the last one still does exactly when both stay in their places. */
  lemma SortKeepsTail<T>(es: seq<Entry<T>>, tail: Tail, cs: bool)
    requires Knows(|es|, tail)
    ensures Knows(|es|, AfterSort(es, tail, cs)) <==> EndsStay(es, cs)
  {
    var n := |es|;
    if n > 0 {
      SortMoves(es, cs);
      PlaceIsFound(es, n - 1, cs);
    }
  }

  lemma SortKeepsPointing<T>(es: seq<Entry<T>>, tail: Tail, cs: bool)
    requires Points(|es|, tail)
    ensures Points(|es|, AfterSort(es, tail, cs))
  {
    if es != [] && tail.At? { PlaceIsFound(es, tail.index, cs); }
  }
}
