/** The merge sort of sort_list, as a function from named children to named children. */
module MergeSort {
  import opened CText
  import opened Json

  /** The loop that tests for a sorted list: every neighbour is strictly larger. */
  predicate StrictlyAscending<T>(es: seq<Entry<T>>, cs: bool) {
    forall i :: 0 <= i < |es| - 1 ==> Compare(es[i].key, es[i + 1].key, cs) < 0
  }

  predicate Sorted<T>(es: seq<Entry<T>>, cs: bool) {
    forall i, j :: 0 <= i < j < |es| ==> Compare(es[i].key, es[j].key, cs) <= 0
  }

  predicate StrictlySorted<T>(es: seq<Entry<T>>, cs: bool) {
    forall i, j :: 0 <= i < j < |es| ==> Compare(es[i].key, es[j].key, cs) < 0
  }

  /** The first of two equal keys to be taken comes from the second list. */
  function Merge<T>(a: seq<Entry<T>>, b: seq<Entry<T>>, cs: bool): (r: seq<Entry<T>>)
    ensures |r| == |a| + |b|
  {
    if a == [] then b
    else if b == [] then a
    else if Compare(a[0].key, b[0].key, cs) < 0 then [a[0]] + Merge(a[1..], b, cs)
    else [b[0]] + Merge(a, b[1..], cs)
  }

  function Sort<T>(es: seq<Entry<T>>, cs: bool): (r: seq<Entry<T>>)
    ensures |r| == |es|
    decreases |es|
  {
    if |es| <= 1 || StrictlyAscending(es, cs) then es
    else
      var middle := (|es| + 1) / 2;
      Merge(Sort(es[..middle], cs), Sort(es[middle..], cs), cs)
  }

  lemma SortUnfolds<T>(es: seq<Entry<T>>, a: seq<Entry<T>>, b: seq<Entry<T>>, cs: bool)
    requires |es| > 1 && !StrictlyAscending(es, cs)
    requires a == es[..(|es| + 1) / 2] && b == es[(|es| + 1) / 2..]
    ensures Sort(es, cs) == Merge(Sort(a, cs), Sort(b, cs), cs)
  {
  }

  lemma SortTwo<T>(a: Entry<T>, b: Entry<T>, cs: bool)
    ensures Sort([a, b], cs) == if Compare(a.key, b.key, cs) < 0 then [a, b] else [b, a]
  {
    if Compare(a.key, b.key, cs) >= 0 {
      assert !StrictlyAscending([a, b], cs) by { assert [a, b][0] == a && [a, b][1] == b; }
      SortUnfolds([a, b], [a], [b], cs);
      assert Merge([a], [], cs) == [a];
    }
  }

  // Permutation

  lemma {:induction false} MergePermutes<T>(a: seq<Entry<T>>, b: seq<Entry<T>>, cs: bool)
    ensures multiset(Merge(a, b, cs)) == multiset(a) + multiset(b)
  {
    if a != [] && b != [] {
      assert a == [a[0]] + a[1..] && b == [b[0]] + b[1..];
      if Compare(a[0].key, b[0].key, cs) < 0 {
        MergePermutes(a[1..], b, cs);
      } else {
        MergePermutes(a, b[1..], cs);
      }
    }
  }

  lemma {:induction false} SortPermutes<T>(es: seq<Entry<T>>, cs: bool)
    ensures multiset(Sort(es, cs)) == multiset(es)
    decreases |es|
  {
    if |es| > 1 && !StrictlyAscending(es, cs) {
      var middle := (|es| + 1) / 2;
      var a, b := es[..middle], es[middle..];
      assert es == a + b;
      SortPermutes(a, cs);
      SortPermutes(b, cs);
      MergePermutes(Sort(a, cs), Sort(b, cs), cs);
    }
  }

  /** Sorting keeps exactly the same children. */
  lemma SortKeepsMembers<T>(es: seq<Entry<T>>, cs: bool)
    ensures forall e :: e in Sort(es, cs) <==> e in es
  {
    SortPermutes(es, cs);
    forall e ensures e in Sort(es, cs) <==> e in es {
      assert e in Sort(es, cs) <==> e in multiset(Sort(es, cs));
      assert e in es <==> e in multiset(es);
    }
  }

  lemma SortedFrom<T>(es: seq<Entry<T>>, i: nat, cs: bool) returns (j: nat)
    requires i < |es|
    ensures j < |es| && Sort(es, cs)[i] == es[j]
  {
    SortPermutes(es, cs);
    assert Sort(es, cs)[i] in multiset(Sort(es, cs));
    j :| 0 <= j < |es| && es[j] == Sort(es, cs)[i];
  }

  // Order

  /** k is no larger than any key of es. */
  predicate AtMost<T>(k: string, es: seq<Entry<T>>, cs: bool) {
    forall i :: 0 <= i < |es| ==> Compare(k, es[i].key, cs) <= 0
  }

  lemma SortedCons<T>(e: Entry<T>, es: seq<Entry<T>>, cs: bool)
    requires Sorted(es, cs) && AtMost(e.key, es, cs)
    ensures Sorted([e] + es, cs)
  {
    var r := [e] + es;
    forall i, j | 0 <= i < j < |r| ensures Compare(r[i].key, r[j].key, cs) <= 0 {
      assert r[j] == es[j - 1];
      if i > 0 { assert r[i] == es[i - 1]; }
    }
  }

  lemma AtMostHead<T>(k: string, es: seq<Entry<T>>, cs: bool)
    requires Sorted(es, cs) && es != [] && Compare(k, es[0].key, cs) <= 0
    ensures AtMost(k, es, cs)
  {
    forall i | 0 <= i < |es| ensures Compare(k, es[i].key, cs) <= 0 {
      CompareIsTotalOrder(k, es[0].key, es[i].key, cs);
      if i > 0 { assert Compare(es[0].key, es[i].key, cs) <= 0; }
    }
  }

  lemma {:induction false} MergeAtMost<T>(k: string, a: seq<Entry<T>>, b: seq<Entry<T>>, cs: bool)
    requires AtMost(k, a, cs) && AtMost(k, b, cs)
    ensures AtMost(k, Merge(a, b, cs), cs)
  {
    if a != [] && b != [] {
      if Compare(a[0].key, b[0].key, cs) < 0 {
        MergeAtMost(k, a[1..], b, cs);
      } else {
        MergeAtMost(k, a, b[1..], cs);
      }
    }
  }

  lemma SortedTail<T>(es: seq<Entry<T>>, cs: bool)
    requires Sorted(es, cs) && es != []
    ensures Sorted(es[1..], cs) && AtMost(es[0].key, es[1..], cs)
  {
  }

  lemma {:induction false} MergeSorts<T>(a: seq<Entry<T>>, b: seq<Entry<T>>, cs: bool)
    requires Sorted(a, cs) && Sorted(b, cs)
    ensures Sorted(Merge(a, b, cs), cs)
  {
    if a != [] && b != [] {
      SortedTail(a, cs);
      SortedTail(b, cs);
      CompareIsTotalOrder(a[0].key, b[0].key, a[0].key, cs);
      if Compare(a[0].key, b[0].key, cs) < 0 {
        MergeSorts(a[1..], b, cs);
        AtMostHead(a[0].key, b, cs);
        MergeAtMost(a[0].key, a[1..], b, cs);
        SortedCons(a[0], Merge(a[1..], b, cs), cs);
      } else {
        MergeSorts(a, b[1..], cs);
        AtMostHead(b[0].key, a, cs);
        MergeAtMost(b[0].key, a, b[1..], cs);
        SortedCons(b[0], Merge(a, b[1..], cs), cs);
      }
    }
  }

  /** The neighbour test of the sorted-list shortcut is enough: the order is transitive. */
  lemma {:induction false} AscendingIsSorted<T>(es: seq<Entry<T>>, i: nat, j: nat, cs: bool)
    requires StrictlyAscending(es, cs) && i < j < |es|
    ensures Compare(es[i].key, es[j].key, cs) < 0
    decreases j - i
  {
    assert Compare(es[i].key, es[i + 1].key, cs) < 0;
    if i + 1 < j {
      AscendingIsSorted(es, i + 1, j, cs);
      CompareIsTotalOrder(es[i].key, es[i + 1].key, es[j].key, cs);
    }
  }

  /** The result is ordered by key. */
  lemma {:induction false} SortSorts<T>(es: seq<Entry<T>>, cs: bool)
    ensures Sorted(Sort(es, cs), cs)
    decreases |es|
  {
    if |es| <= 1 {
    } else if StrictlyAscending(es, cs) {
      forall i, j | 0 <= i < j < |es| ensures Compare(es[i].key, es[j].key, cs) <= 0 {
        AscendingIsSorted(es, i, j, cs);
      }
    } else {
      var middle := (|es| + 1) / 2;
      SortSorts(es[..middle], cs);
      SortSorts(es[middle..], cs);
      MergeSorts(Sort(es[..middle], cs), Sort(es[middle..], cs), cs);
    }
  }

  // Distinct keys

  /** A member that stands at two places of a list with distinct keys would break distinctness. */
  lemma CountAtMostOne<T>(es: seq<Entry<T>>, i: nat, j: nat)
    requires i < j < |es|
    ensures multiset(es)[es[i]] >= 1
    ensures es[i] == es[j] ==> multiset(es)[es[i]] >= 2
  {
    assert es == es[..i] + [es[i]] + es[i + 1..j] + [es[j]] + es[j + 1..];
  }

  lemma {:induction false} DistinctCountOne<T>(es: seq<Entry<T>>, e: Entry<T>, cs: bool)
    requires DistinctKeys(es, cs)
    ensures multiset(es)[e] <= 1
  {
    if es != [] {
      assert es == [es[0]] + es[1..];
      DistinctCountOne(es[1..], e, cs);
      if e in es[1..] {
        var i :| 0 <= i < |es[1..]| && es[1..][i] == e;
        KeyOf(es[1..], i, cs);
      }
    }
  }

  lemma PermutationKeepsDistinct<T>(es: seq<Entry<T>>, fs: seq<Entry<T>>, cs: bool)
    requires DistinctKeys(es, cs) && multiset(es) == multiset(fs)
    ensures DistinctKeys(fs, cs)
  {
    forall i, j | 0 <= i < j < |fs| ensures Fold(fs[i].key, cs) != Fold(fs[j].key, cs) {
      PermutationKeepsApart(es, fs, i, j, cs);
    }
    DistinctIntro(fs, cs);
  }

  lemma PermutationKeepsApart<T>(es: seq<Entry<T>>, fs: seq<Entry<T>>, i: nat, j: nat, cs: bool)
    requires DistinctKeys(es, cs) && multiset(es) == multiset(fs) && i < j < |fs|
    ensures Fold(fs[i].key, cs) != Fold(fs[j].key, cs)
  {
    DistinctCountOne(es, fs[i], cs);
    CountAtMostOne(fs, i, j);
    assert fs[i] in multiset(es) && fs[j] in multiset(es);
    var a :| 0 <= a < |es| && es[a] == fs[i];
    var b :| 0 <= b < |es| && es[b] == fs[j];
    if a < b { DistinctAt(es, a, b, cs); } else { DistinctAt(es, b, a, cs); }
  }

  /** With distinct keys the result is strictly ordered and keeps its keys distinct. */
  lemma SortIsStrict<T>(es: seq<Entry<T>>, cs: bool)
    requires DistinctKeys(es, cs)
    ensures DistinctKeys(Sort(es, cs), cs) && StrictlySorted(Sort(es, cs), cs)
  {
    var r := Sort(es, cs);
    SortPermutes(es, cs);
    SortSorts(es, cs);
    PermutationKeepsDistinct(es, r, cs);
    forall i, j | 0 <= i < j < |r| ensures Compare(r[i].key, r[j].key, cs) < 0 {
      DistinctAt(r, i, j, cs);
      CompareIsTotalOrder(r[i].key, r[j].key, r[i].key, cs);
    }
  }

  /** Strictly ordered input is left untouched, so sorting twice is sorting once. */
  lemma SortIdempotent<T>(es: seq<Entry<T>>, cs: bool)
    ensures StrictlySorted(es, cs) ==> Sort(es, cs) == es
    ensures DistinctKeys(es, cs) ==> Sort(Sort(es, cs), cs) == Sort(es, cs)
  {
    if DistinctKeys(es, cs) { SortIsStrict(es, cs); }
  }

  /** Sorting the members of an object does not change the map it stands for. */
  lemma SortKeepsCanon(ms: seq<Entry<Value>>, cs: bool)
    requires DistinctKeys(ms, cs)
    ensures CanonMembers(Sort(ms, cs), cs) == CanonMembers(ms, cs)
  {
    SortIsStrict(ms, cs);
    SortKeepsMembers(ms, cs);
    CanonIgnoresOrder(Sort(ms, cs), ms, cs);
  }
}
