/** What the merge sort does with equal keys: it turns their order round. */
module SortTwins {
  import opened CText
  import opened Json
  import opened MergeSort

  function TwinOf<T>(e: Entry<T>, k: string, cs: bool): seq<Entry<T>> {
    if Compare(e.key, k, cs) == 0 then [e] else []
  }

  /** The members whose keys compare equal to k, in turn. */
  function Twins<T>(es: seq<Entry<T>>, k: string, cs: bool): seq<Entry<T>> {
    if es == [] then []
    else TwinOf(es[0], k, cs) + Twins(es[1..], k, cs)
  }

  function Reversed<T>(s: seq<T>): seq<T> {
    if s == [] then [] else Reversed(s[1..]) + [s[0]]
  }

  lemma {:induction false} ReversedJoin<T>(a: seq<T>, b: seq<T>)
    ensures Reversed(a + b) == Reversed(b) + Reversed(a)
  {
    if a == [] {
      assert a + b == b;
    } else {
      assert (a + b)[1..] == a[1..] + b;
      ReversedJoin(a[1..], b);
    }
  }

  lemma {:induction false} TwinsJoin<T>(a: seq<Entry<T>>, b: seq<Entry<T>>, k: string, cs: bool)
    ensures Twins(a + b, k, cs) == Twins(a, k, cs) + Twins(b, k, cs)
  {
    if a == [] {
      assert a + b == b;
    } else {
      assert (a + b)[1..] == a[1..] + b;
      TwinsJoin(a[1..], b, k, cs);
    }
  }

  /** Nothing equals a key below all of them. */
  lemma {:induction false} NoTwins<T>(es: seq<Entry<T>>, k: string, cs: bool)
    requires forall i :: 0 <= i < |es| ==> Compare(es[i].key, k, cs) != 0
    ensures Twins(es, k, cs) == []
  {
    if es != [] { NoTwins(es[1..], k, cs); }
  }

  lemma {:induction false} AboveHasNoTwins<T>(l: string, es: seq<Entry<T>>, k: string, cs: bool)
    requires Sorted(es, cs) && es != [] && Compare(l, es[0].key, cs) < 0 && Compare(l, k, cs) == 0
    ensures Twins(es, k, cs) == []
  {
    forall i | 0 <= i < |es| ensures Compare(es[i].key, k, cs) != 0 {
      CompareIsTotalOrder(k, l, es[0].key, cs);
      CompareIsTotalOrder(l, k, l, cs);
      CompareIsTotalOrder(k, es[0].key, es[i].key, cs);
      CompareIsTotalOrder(es[i].key, k, es[i].key, cs);
      CompareIsTotalOrder(k, es[i].key, k, cs);
    }
    NoTwins(es, k, cs);
  }

  lemma {:induction false} SortedRest<T>(es: seq<Entry<T>>, cs: bool)
    requires Sorted(es, cs) && es != []
    ensures Sorted(es[1..], cs)
  {
  }

  /** Merging puts the equal keys of the second list in front of those of the first. */
  lemma {:induction false} MergeTwins<T>(a: seq<Entry<T>>, b: seq<Entry<T>>, k: string, cs: bool)
    requires Sorted(a, cs) && Sorted(b, cs)
    ensures Twins(Merge(a, b, cs), k, cs) == Twins(b, k, cs) + Twins(a, k, cs)
    decreases |a| + |b|
  {
    if a == [] || b == [] {
      assert Twins(b, k, cs) + [] == Twins(b, k, cs);
    } else if Compare(a[0].key, b[0].key, cs) < 0 {
      SortedRest(a, cs);
      MergeTwins(a[1..], b, k, cs);
      FirstTaken(a[0], Merge(a[1..], b, cs), k, cs);
      if Compare(a[0].key, k, cs) == 0 { AboveHasNoTwins(a[0].key, b, k, cs); }
      TakenFromFirst(Twins(b, k, cs), TwinOf(a[0], k, cs), Twins(a[1..], k, cs));
    } else {
      SortedRest(b, cs);
      MergeTwins(a, b[1..], k, cs);
      FirstTaken(b[0], Merge(a, b[1..], cs), k, cs);
      TakenFromSecond(TwinOf(b[0], k, cs), Twins(b[1..], k, cs), Twins(a, k, cs));
    }
  }

  lemma {:induction false} FirstTaken<T>(e: Entry<T>, rest: seq<Entry<T>>, k: string, cs: bool)
    ensures Twins([e] + rest, k, cs) == TwinOf(e, k, cs) + Twins(rest, k, cs)
  {
    assert ([e] + rest)[1..] == rest;
  }

  lemma {:induction false} TakenFromFirst<T>(second: seq<T>, head: seq<T>, rest: seq<T>)
    requires head == [] || second == []
    ensures head + (second + rest) == second + (head + rest)
  {
  }

  lemma {:induction false} TakenFromSecond<T>(head: seq<T>, rest: seq<T>, first: seq<T>)
    ensures head + (rest + first) == (head + rest) + first
  {
  }

  lemma {:induction false} AtMostOneTwin<T>(es: seq<Entry<T>>, k: string, cs: bool)
    requires StrictlySorted(es, cs)
    ensures |Twins(es, k, cs)| <= 1
  {
    if es != [] {
      AtMostOneTwin(es[1..], k, cs);
      if Compare(es[0].key, k, cs) == 0 && |es| > 1 {
        AboveHasNoTwins(es[0].key, es[1..], k, cs);
      }
    }
  }

  lemma {:induction false} FewReversed<T>(s: seq<T>)
    requires |s| <= 1
    ensures Reversed(s) == s
  {
  }

  /** Members with equal keys come out of the sort in the reverse of the order in which they went in. */
  lemma {:induction false} SortReversesTwins<T>(es: seq<Entry<T>>, k: string, cs: bool)
    ensures Twins(Sort(es, cs), k, cs) == Reversed(Twins(es, k, cs))
    decreases |es|
  {
    if |es| <= 1 || StrictlyAscending(es, cs) {
      if |es| > 1 { AscendingIsStrict(es, cs); }
      AtMostOneTwin(es, k, cs);
      FewReversed(Twins(es, k, cs));
    } else {
      var middle := (|es| + 1) / 2;
      var a, b := es[..middle], es[middle..];
      assert es == a + b;
      SortReversesTwins(a, k, cs);
      SortReversesTwins(b, k, cs);
      SortSorts(a, cs);
      SortSorts(b, cs);
      MergeTwins(Sort(a, cs), Sort(b, cs), k, cs);
      TwinsJoin(a, b, k, cs);
      ReversedJoin(Twins(a, k, cs), Twins(b, k, cs));
      SortUnfolds(es, a, b, cs);
    }
  }

  lemma {:induction false} AscendingIsStrict<T>(es: seq<Entry<T>>, cs: bool)
    requires StrictlyAscending(es, cs)
    ensures StrictlySorted(es, cs)
  {
    forall i, j | 0 <= i < j < |es| ensures Compare(es[i].key, es[j].key, cs) < 0 { AscendingIsSorted(es, i, j, cs); }
  }
}
