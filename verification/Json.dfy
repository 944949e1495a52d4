/** Trees of cJSON items as values, and what a tree means once member order is forgotten. */
module Json {
  import opened CText
  import opened Options
  import opened Sequences

  const INT_MIN: int := -0x8000_0000
  const INT_MAX: nat := 0x7FFF_FFFF

  type Int32 = n: int | INT_MIN <= n <= INT_MAX

  /** One named child of an object. */
  datatype Entry<+T> = Entry(key: string, value: T)

  /** An item and everything below it. valuedouble is not modelled: numbers are their valueint. */
  datatype Value =
    | Invalid
    | Null
    | False
    | True
    | Number(n: Int32)
    | String(s: string)
    | Array(items: seq<Value>)
    | Object(members: seq<Entry<Value>>)

  /** The type field without its flag bits. */
  predicate SameType(a: Value, b: Value) {
    || (a.Invalid? && b.Invalid?)
    || (a.Null? && b.Null?)
    || (a.False? && b.False?)
    || (a.True? && b.True?)
    || (a.Number? && b.Number?)
    || (a.String? && b.String?)
    || (a.Array? && b.Array?)
    || (a.Object? && b.Object?)
  }

  /** The keys of a member list, as comparisons see them. */
  function KeySet<T>(ms: seq<Entry<T>>, cs: bool): set<string> {
    if ms == [] then {} else {Fold(ms[0].key, cs)} + KeySet(ms[1..], cs)
  }

  /** No key stands twice. */
  predicate DistinctKeys<T>(ms: seq<Entry<T>>, cs: bool) {
    ms == [] || (Fold(ms[0].key, cs) !in KeySet(ms[1..], cs) && DistinctKeys(ms[1..], cs))
  }

  lemma {:induction false} KeyOf<T>(ms: seq<Entry<T>>, i: nat, cs: bool)
    requires i < |ms|
    ensures Fold(ms[i].key, cs) in KeySet(ms, cs)
  {
    if i > 0 { KeyOf(ms[1..], i - 1, cs); }
  }

  lemma {:induction false} KeyWitness<T>(ms: seq<Entry<T>>, k: string, cs: bool) returns (i: nat)
    requires k in KeySet(ms, cs)
    ensures i < |ms| && Fold(ms[i].key, cs) == k
  {
    if k == Fold(ms[0].key, cs) {
      i := 0;
    } else {
      i := KeyWitness(ms[1..], k, cs);
      i := i + 1;
    }
  }

  lemma {:induction false} DistinctAt<T>(ms: seq<Entry<T>>, i: nat, j: nat, cs: bool)
    requires DistinctKeys(ms, cs) && i < j < |ms|
    ensures Fold(ms[i].key, cs) != Fold(ms[j].key, cs)
  {
    if i == 0 {
      KeyOf(ms[1..], j - 1, cs);
    } else {
      DistinctAt(ms[1..], i - 1, j - 1, cs);
    }
  }

  lemma {:induction false} DistinctIntro<T>(ms: seq<Entry<T>>, cs: bool)
    requires forall i, j :: 0 <= i < j < |ms| ==> Fold(ms[i].key, cs) != Fold(ms[j].key, cs)
    ensures DistinctKeys(ms, cs)
  {
    if ms != [] {
      DistinctIntro(ms[1..], cs);
      if Fold(ms[0].key, cs) in KeySet(ms[1..], cs) {
        var i := KeyWitness(ms[1..], Fold(ms[0].key, cs), cs);
        assert false;
      }
    }
  }

  /** get_object_item: the position of the first member whose key compares equal, or the length. */
  function FindMember<T>(ms: seq<Entry<T>>, key: string, cs: bool): (i: nat)
    ensures i <= |ms|
    ensures i < |ms| ==> Fold(ms[i].key, cs) == Fold(key, cs)
    ensures i < |ms| <==> Fold(key, cs) in KeySet(ms, cs)
  {
    if ms == [] then 0
    else if Fold(ms[0].key, cs) == Fold(key, cs) then 0
    else 1 + FindMember(ms[1..], key, cs)
  }

  function Lookup<T>(ms: seq<Entry<T>>, key: string, cs: bool): Option<T> {
    var i := FindMember(ms, key, cs);
    if i < |ms| then Some(ms[i].value) else None
  }

  /** Delete the first member with the key, if there is one. */
  function DeleteKey<T>(ms: seq<Entry<T>>, key: string, cs: bool): seq<Entry<T>> {
    var i := FindMember(ms, key, cs);
    if i < |ms| then RemoveAt(ms, i) else ms
  }

  /** Keys are distinct in every object of the tree, and no item is invalid. */
  predicate Distinct(v: Value, cs: bool) {
    match v
    case Invalid => false
    case Array(items) => forall i :: 0 <= i < |items| ==> Distinct(items[i], cs)
    case Object(ms) =>
      && DistinctKeys(ms, cs)
      && forall i :: 0 <= i < |ms| ==> Distinct(ms[i].value, cs)
    case _ => true
  }

  /** A tree up to member order (and letter case when cs is false): objects are finite maps. */
  datatype Canon =
    | CInvalid
    | CNull
    | CFalse
    | CTrue
    | CNumber(n: int)
    | CString(s: string)
    | CArray(items: seq<Canon>)
    | CObject(members: map<string, Canon>)

  function Canonical(v: Value, cs: bool): Canon
    decreases v
  {
    match v
    case Invalid => CInvalid
    case Null => CNull
    case False => CFalse
    case True => CTrue
    case Number(n) => CNumber(n)
    case String(s) => CString(s)
    case Array(items) => CArray(CanonItems(items, cs))
    case Object(ms) => CObject(CanonMembers(ms, cs))
  }

  function CanonItems(items: seq<Value>, cs: bool): (r: seq<Canon>)
    ensures |r| == |items|
    decreases items
  {
    seq(|items|, i requires 0 <= i < |items| => Canonical(items[i], cs))
  }

  /** The first member with a key decides, as it does for get_object_item. */
  function CanonMembers(ms: seq<Entry<Value>>, cs: bool): map<string, Canon>
    decreases ms
  {
    if ms == [] then map[]
    else CanonMembers(ms[1..], cs)[Fold(ms[0].key, cs) := Canonical(ms[0].value, cs)]
  }

  lemma {:induction false} CanonKeys(ms: seq<Entry<Value>>, cs: bool)
    ensures CanonMembers(ms, cs).Keys == KeySet(ms, cs)
  {
    if ms != [] { CanonKeys(ms[1..], cs); }
  }

  /** get_object_item reads the map. */
  lemma {:induction false} LookupReadsMap(ms: seq<Entry<Value>>, key: string, cs: bool)
    ensures FindMember(ms, key, cs) < |ms| <==> Fold(key, cs) in CanonMembers(ms, cs)
    ensures var i := FindMember(ms, key, cs);
            i < |ms| ==> CanonMembers(ms, cs)[Fold(key, cs)] == Canonical(ms[i].value, cs)
  {
    if ms != [] && Fold(ms[0].key, cs) != Fold(key, cs) {
      LookupReadsMap(ms[1..], key, cs);
    }
  }

  /** With distinct keys every member is found and is in the map. */
  lemma {:induction false} CanonAt(ms: seq<Entry<Value>>, i: nat, cs: bool)
    requires DistinctKeys(ms, cs) && i < |ms|
    ensures FindMember(ms, ms[i].key, cs) == i
    ensures Fold(ms[i].key, cs) in CanonMembers(ms, cs)
    ensures CanonMembers(ms, cs)[Fold(ms[i].key, cs)] == Canonical(ms[i].value, cs)
  {
    if i > 0 {
      CanonAt(ms[1..], i - 1, cs);
      KeyOf(ms[1..], i - 1, cs);
    }
  }

  /** Two member lists with distinct keys have the same map when they have the same members. */
  lemma CanonIgnoresOrder(ms: seq<Entry<Value>>, ns: seq<Entry<Value>>, cs: bool)
    requires DistinctKeys(ms, cs) && DistinctKeys(ns, cs)
    requires forall e :: e in ms <==> e in ns
    ensures CanonMembers(ms, cs) == CanonMembers(ns, cs)
  {
    CanonCovers(ms, ns, cs);
    CanonCovers(ns, ms, cs);
  }

  lemma CanonCovers(ms: seq<Entry<Value>>, ns: seq<Entry<Value>>, cs: bool)
    requires DistinctKeys(ms, cs) && DistinctKeys(ns, cs)
    requires forall e :: e in ms ==> e in ns
    ensures forall k :: k in CanonMembers(ms, cs) ==>
      k in CanonMembers(ns, cs) && CanonMembers(ns, cs)[k] == CanonMembers(ms, cs)[k]
  {
    forall k | k in CanonMembers(ms, cs)
      ensures k in CanonMembers(ns, cs) && CanonMembers(ns, cs)[k] == CanonMembers(ms, cs)[k]
    {
      var e := CanonWitness(ms, k, cs);
      CanonMember(ns, e, cs);
    }
  }

  /** The member that put k in the map. */
  lemma {:induction false} CanonWitness(ms: seq<Entry<Value>>, k: string, cs: bool) returns (e: Entry<Value>)
    requires k in CanonMembers(ms, cs)
    ensures e in ms && Fold(e.key, cs) == k && CanonMembers(ms, cs)[k] == Canonical(e.value, cs)
  {
    if k == Fold(ms[0].key, cs) {
      e := ms[0];
    } else {
      e := CanonWitness(ms[1..], k, cs);
    }
  }

  lemma CanonMember(ms: seq<Entry<Value>>, e: Entry<Value>, cs: bool)
    requires DistinctKeys(ms, cs) && e in ms
    ensures Fold(e.key, cs) in CanonMembers(ms, cs)
    ensures CanonMembers(ms, cs)[Fold(e.key, cs)] == Canonical(e.value, cs)
  {
    var i :| 0 <= i < |ms| && ms[i] == e;
    CanonAt(ms, i, cs);
  }

  lemma {:induction false} CanonAppend(ms: seq<Entry<Value>>, e: Entry<Value>, cs: bool)
    requires Fold(e.key, cs) !in CanonMembers(ms, cs)
    ensures CanonMembers(ms + [e], cs) == CanonMembers(ms, cs)[Fold(e.key, cs) := Canonical(e.value, cs)]
  {
    if ms == [] {
      assert ms + [e] == [e];
    } else {
      assert (ms + [e])[1..] == ms[1..] + [e];
      CanonAppend(ms[1..], e, cs);
    }
  }

  lemma WithoutTail<T>(s: seq<T>, i: nat)
    requires i < |s|
    ensures i == 0 ==> RemoveAt(s, i) == s[1..]
    ensures var r := RemoveAt(s, i);
      i > 0 ==> |r| > 0 && r[0] == s[0] && r[1..] == RemoveAt(s[1..], i - 1)
  {
  }

  lemma {:induction false} KeySetWithout<T>(ms: seq<Entry<T>>, i: nat, cs: bool)
    requires DistinctKeys(ms, cs) && i < |ms|
    ensures KeySet(RemoveAt(ms, i), cs) == KeySet(ms, cs) - {Fold(ms[i].key, cs)}
    ensures DistinctKeys(RemoveAt(ms, i), cs)
  {
    WithoutTail(ms, i);
    if i > 0 {
      KeySetWithout(ms[1..], i - 1, cs);
      KeyOf(ms[1..], i - 1, cs);
    }
  }

  lemma PutThenRemove<K, V>(m: map<K, V>, k: K, v: V, l: K)
    ensures k != l ==> m[k := v] - {l} == (m - {l})[k := v]
    ensures k !in m ==> m[k := v] - {k} == m
  {
  }

  lemma {:induction false} CanonWithout(ms: seq<Entry<Value>>, i: nat, cs: bool)
    requires DistinctKeys(ms, cs) && i < |ms|
    ensures CanonMembers(RemoveAt(ms, i), cs) == CanonMembers(ms, cs) - {Fold(ms[i].key, cs)}
  {
    WithoutTail(ms, i);
    CanonKeys(ms[1..], cs);
    PutThenRemove(CanonMembers(ms[1..], cs), Fold(ms[0].key, cs), Canonical(ms[0].value, cs), Fold(ms[i].key, cs));
    if i > 0 {
      CanonWithout(ms[1..], i - 1, cs);
      KeyOf(ms[1..], i - 1, cs);
    }
  }

  lemma {:induction false} KeySetAppend<T>(ms: seq<Entry<T>>, e: Entry<T>, cs: bool)
    ensures KeySet(ms + [e], cs) == KeySet(ms, cs) + {Fold(e.key, cs)}
    ensures DistinctKeys(ms, cs) && Fold(e.key, cs) !in KeySet(ms, cs) ==> DistinctKeys(ms + [e], cs)
  {
    if ms == [] {
      assert ms + [e] == [e];
    } else {
      assert (ms + [e])[1..] == ms[1..] + [e];
      KeySetAppend(ms[1..], e, cs);
    }
  }

  lemma PutTwice<K, V>(m: map<K, V>, k: K, v: V, l: K, w: V)
    ensures k != l ==> m[k := v][l := w] == m[l := w][k := v]
    ensures m[k := v][k := w] == m[k := w]
  {
  }

  function WithValue<T>(ms: seq<Entry<T>>, i: nat, v: T): seq<Entry<T>>
    requires i < |ms|
  {
    ms[i := Entry(ms[i].key, v)]
  }

  lemma WithValueTail<T>(ms: seq<Entry<T>>, i: nat, v: T)
    requires i < |ms|
    ensures i == 0 ==> WithValue(ms, i, v)[0] == Entry(ms[0].key, v) && WithValue(ms, i, v)[1..] == ms[1..]
    ensures i > 0 ==> WithValue(ms, i, v)[0] == ms[0] && WithValue(ms, i, v)[1..] == WithValue(ms[1..], i - 1, v)
  {
  }

  /** Replacing the value of one member replaces it in the map. */
  lemma {:induction false} CanonUpdate(ms: seq<Entry<Value>>, i: nat, v: Value, cs: bool)
    requires DistinctKeys(ms, cs) && i < |ms|
    ensures KeySet(WithValue(ms, i, v), cs) == KeySet(ms, cs)
    ensures DistinctKeys(WithValue(ms, i, v), cs)
    ensures CanonMembers(WithValue(ms, i, v), cs)
         == CanonMembers(ms, cs)[Fold(ms[i].key, cs) := Canonical(v, cs)]
  {
    WithValueTail(ms, i, v);
    PutTwice(CanonMembers(ms[1..], cs), Fold(ms[0].key, cs), Canonical(ms[0].value, cs),
             Fold(ms[i].key, cs), Canonical(v, cs));
    if i > 0 {
      KeyOf(ms[1..], i - 1, cs);
      CanonUpdate(ms[1..], i - 1, v, cs);
    }
  }
}
