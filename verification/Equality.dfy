/** The two equality tests of the engine and the one relation they both decide. */
module Equality {
  import opened CText
  import opened Json
  import opened MergeSort

  /** Nesting depth, the reason the recursions below end. */
  ghost function Height(v: Value): (h: nat)
    decreases v
  {
    match v
    case Array(items) => 1 + ItemsHeight(items)
    case Object(ms) => 1 + MembersHeight(ms)
    case _ => 0
  }

  ghost function ItemsHeight(items: seq<Value>): (h: nat)
    decreases items
  {
    if items == [] then 0
    else
      var h, rest := Height(items[0]), ItemsHeight(items[1..]);
      if h > rest then h else rest
  }

  ghost function MembersHeight(ms: seq<Entry<Value>>): (h: nat)
    decreases ms
  {
    if ms == [] then 0
    else
      var h, rest := Height(ms[0].value), MembersHeight(ms[1..]);
      if h > rest then h else rest
  }

  lemma {:induction false} MemberHeight(ms: seq<Entry<Value>>, i: nat)
    requires i < |ms|
    ensures Height(ms[i].value) <= MembersHeight(ms)
  {
    if i > 0 { MemberHeight(ms[1..], i - 1); }
  }

  lemma {:induction false} ItemHeight(items: seq<Value>, i: nat)
    requires i < |items|
    ensures Height(items[i]) <= ItemsHeight(items)
  {
    if i > 0 { ItemHeight(items[1..], i - 1); }
  }

  lemma {:induction false} MembersHeightLeast(s: seq<Entry<Value>>, ms: seq<Entry<Value>>)
    requires forall i :: 0 <= i < |s| ==> Height(s[i].value) <= MembersHeight(ms)
    ensures MembersHeight(s) <= MembersHeight(ms)
  {
    if s != [] { MembersHeightLeast(s[1..], ms); }
  }

  lemma SortKeepsHeight(ms: seq<Entry<Value>>, cs: bool)
    ensures MembersHeight(Sort(ms, cs)) <= MembersHeight(ms)
  {
    var s := Sort(ms, cs);
    forall i | 0 <= i < |s| ensures Height(s[i].value) <= MembersHeight(ms) {
      var j := SortedFrom(ms, i, cs);
      MemberHeight(ms, j);
    }
    MembersHeightLeast(s, ms);
  }

  // cJSON_Utils.c: sort both objects, then walk them side by side

  predicate CompareJson(a: Value, b: Value, cs: bool)
    decreases Height(a), 0
  {
    SameType(a, b) &&
    match a
    case Number(n) => n == b.n
    case String(s) => s == b.s
    case Array(items) => WalkItems(items, b.items, cs)
    case Object(ms) =>
      SortKeepsHeight(ms, cs);
      WalkMembers(Sort(ms, cs), Sort(b.members, cs), cs)
    case _ => true
  }

  predicate WalkItems(a: seq<Value>, b: seq<Value>, cs: bool)
    decreases ItemsHeight(a), |a|
  {
    if a == [] || b == [] then a == [] && b == []
    else CompareJson(a[0], b[0], cs) && WalkItems(a[1..], b[1..], cs)
  }

  predicate WalkMembers(a: seq<Entry<Value>>, b: seq<Entry<Value>>, cs: bool)
    decreases MembersHeight(a), |a|
  {
    if a == [] || b == [] then a == [] && b == []
    else
      && Compare(a[0].key, b[0].key, cs) == 0
      && CompareJson(a[0].value, b[0].value, cs)
      && WalkMembers(a[1..], b[1..], cs)
  }

  // cJSON.c: look every member of each object up in the other

  predicate CompareItems(a: Value, b: Value, cs: bool)
    decreases Height(a) + Height(b), 0
  {
    SameType(a, b) &&
    match a
    case Number(n) => n == b.n
    case String(s) => s == b.s
    case Invalid => false
    case Array(items) => ZipItems(items, b.items, cs)
    case Object(ms) => LookupAll(ms, b.members, cs) && LookupAll(b.members, ms, cs)
    case _ => true
  }

  predicate ZipItems(a: seq<Value>, b: seq<Value>, cs: bool)
    decreases ItemsHeight(a) + ItemsHeight(b), |a|
  {
    if a == [] || b == [] then a == [] && b == []
    else CompareItems(a[0], b[0], cs) && ZipItems(a[1..], b[1..], cs)
  }

  /** One of the two loops over members: each is found in the other object with an equal value. */
  predicate LookupAll(ms: seq<Entry<Value>>, ns: seq<Entry<Value>>, cs: bool)
    decreases MembersHeight(ms) + MembersHeight(ns), |ms|
  {
    if ms == [] then true
    else
      var j := FindMember(ns, ms[0].key, cs);
      && j < |ns|
      && (MemberHeight(ns, j); CompareItems(ms[0].value, ns[j].value, cs))
      && LookupAll(ms[1..], ns, cs)
  }

  // Both decide equality of the nested finite maps

  lemma StrictTail<T>(es: seq<Entry<T>>, cs: bool)
    requires StrictlySorted(es, cs) && es != []
    ensures StrictlySorted(es[1..], cs)
  {
  }

  lemma StrictIsDistinct<T>(es: seq<Entry<T>>, cs: bool)
    requires StrictlySorted(es, cs)
    ensures DistinctKeys(es, cs)
  {
    forall i, j | 0 <= i < j < |es| ensures Fold(es[i].key, cs) != Fold(es[j].key, cs) {
      CompareIsTotalOrder(es[i].key, es[j].key, es[i].key, cs);
    }
    DistinctIntro(es, cs);
  }

  /** A key below the first one is not in a strictly sorted list. */
  lemma BelowHeadIsAbsent<T>(k: string, ms: seq<Entry<T>>, cs: bool)
    requires StrictlySorted(ms, cs)
    requires ms != [] ==> Compare(k, ms[0].key, cs) < 0
    ensures Fold(k, cs) !in KeySet(ms, cs)
  {
    if Fold(k, cs) in KeySet(ms, cs) {
      var i := KeyWitness(ms, Fold(k, cs), cs);
      CompareIsTotalOrder(k, ms[0].key, ms[i].key, cs);
      CompareIsTotalOrder(k, ms[i].key, k, cs);
      assert false;
    }
  }

  lemma MapStep<K, V>(m: map<K, V>, n: map<K, V>, k: K, v: V, w: V)
    requires k !in m && k !in n
    ensures m[k := v] == n[k := w] <==> v == w && m == n
  {
    if m[k := v] == n[k := w] {
      assert m == m[k := v] - {k};
      assert n == n[k := w] - {k};
      assert m[k := v][k] == n[k := w][k];
    }
  }

  predicate AllDistinct(items: seq<Value>, cs: bool) {
    forall i :: 0 <= i < |items| ==> Distinct(items[i], cs)
  }

  predicate AllValuesDistinct(ms: seq<Entry<Value>>, cs: bool) {
    forall i :: 0 <= i < |ms| ==> Distinct(ms[i].value, cs)
  }

  lemma SortKeepsValuesDistinct(ms: seq<Entry<Value>>, cs: bool, other: bool)
    requires AllValuesDistinct(ms, other)
    ensures AllValuesDistinct(Sort(ms, cs), other)
  {
    var s := Sort(ms, cs);
    forall i | 0 <= i < |s| ensures Distinct(s[i].value, other) {
      var j := SortedFrom(ms, i, cs);
    }
  }

  lemma CanonItemsStep(a: seq<Value>, b: seq<Value>, cs: bool)
    requires a != [] && b != []
    ensures CanonItems(a, cs) == CanonItems(b, cs) <==>
      Canonical(a[0], cs) == Canonical(b[0], cs) && CanonItems(a[1..], cs) == CanonItems(b[1..], cs)
  {
    CanonItemsCons(a, cs);
    CanonItemsCons(b, cs);
    var x, y := [Canonical(a[0], cs)] + CanonItems(a[1..], cs), [Canonical(b[0], cs)] + CanonItems(b[1..], cs);
    assert x[0] == Canonical(a[0], cs) && y[0] == Canonical(b[0], cs);
    assert x[1..] == CanonItems(a[1..], cs) && y[1..] == CanonItems(b[1..], cs);
  }

  lemma CanonItemsCons(a: seq<Value>, cs: bool)
    requires a != []
    ensures CanonItems(a, cs) == [Canonical(a[0], cs)] + CanonItems(a[1..], cs)
  {
  }

  /** Sort-then-walk decides equality of the nested finite maps. */
  lemma {:induction false} CompareJsonIsCanonEquality(a: Value, b: Value, cs: bool)
    requires Distinct(a, cs) && Distinct(b, cs)
    ensures CompareJson(a, b, cs) <==> Canonical(a, cs) == Canonical(b, cs)
    decreases Height(a), 0
  {
    if SameType(a, b) {
      match a
      case Array(items) =>
        WalkItemsIsEquality(items, b.items, cs);
      case Object(ms) =>
        var ns := b.members;
        SortKeepsHeight(ms, cs);
        SortIsStrict(ms, cs);
        SortIsStrict(ns, cs);
        SortKeepsValuesDistinct(ms, cs, cs);
        SortKeepsValuesDistinct(ns, cs, cs);
        WalkMembersIsEquality(Sort(ms, cs), Sort(ns, cs), cs);
        SortKeepsCanon(ms, cs);
        SortKeepsCanon(ns, cs);
      case _ =>
    }
  }

  lemma {:induction false} WalkItemsIsEquality(a: seq<Value>, b: seq<Value>, cs: bool)
    requires AllDistinct(a, cs) && AllDistinct(b, cs)
    ensures WalkItems(a, b, cs) <==> CanonItems(a, cs) == CanonItems(b, cs)
    decreases ItemsHeight(a), |a|
  {
    if a != [] && b != [] {
      CompareJsonIsCanonEquality(a[0], b[0], cs);
      WalkItemsIsEquality(a[1..], b[1..], cs);
      CanonItemsStep(a, b, cs);
    }
  }

  lemma {:induction false} WalkMembersIsEquality(a: seq<Entry<Value>>, b: seq<Entry<Value>>, cs: bool)
    requires StrictlySorted(a, cs) && StrictlySorted(b, cs)
    requires AllValuesDistinct(a, cs) && AllValuesDistinct(b, cs)
    ensures WalkMembers(a, b, cs) <==> CanonMembers(a, cs) == CanonMembers(b, cs)
    decreases MembersHeight(a), |a|
  {
    CanonKeys(a, cs);
    CanonKeys(b, cs);
    if a != [] && b != [] {
      var k, l := a[0].key, b[0].key;
      CompareIsTotalOrder(k, l, k, cs);
      StrictTail(a, cs);
      StrictTail(b, cs);
      if Compare(k, l, cs) < 0 {
        BelowHeadIsAbsent(k, b, cs);
      } else if Compare(k, l, cs) > 0 {
        BelowHeadIsAbsent(l, a, cs);
      } else {
        CompareJsonIsCanonEquality(a[0].value, b[0].value, cs);
        WalkMembersIsEquality(a[1..], b[1..], cs);
        HeadAbsentFromTail(a, cs);
        HeadAbsentFromTail(b, cs);
        MapStep(CanonMembers(a[1..], cs), CanonMembers(b[1..], cs), Fold(k, cs),
                Canonical(a[0].value, cs), Canonical(b[0].value, cs));
      }
    }
  }

  lemma HeadAbsentFromTail(a: seq<Entry<Value>>, cs: bool)
    requires StrictlySorted(a, cs) && a != []
    ensures Fold(a[0].key, cs) !in CanonMembers(a[1..], cs)
  {
    StrictIsDistinct(a, cs);
    CanonKeys(a[1..], cs);
  }

  /** The map of ms is part of the map of ns. */
  predicate SubMap(m: map<string, Canon>, n: map<string, Canon>) {
    forall k :: k in m ==> k in n && n[k] == m[k]
  }

  lemma MutualInclusion(m: map<string, Canon>, n: map<string, Canon>)
    ensures SubMap(m, n) && SubMap(n, m) <==> m == n
  {
    if SubMap(m, n) && SubMap(n, m) {
      assert m.Keys == n.Keys;
    }
  }

  /** The double lookup decides the same equality. */
  lemma {:induction false} CompareItemsIsCanonEquality(a: Value, b: Value, cs: bool)
    requires Distinct(a, cs) && Distinct(b, cs)
    ensures CompareItems(a, b, cs) <==> Canonical(a, cs) == Canonical(b, cs)
    decreases Height(a) + Height(b), 0
  {
    if SameType(a, b) {
      match a
      case Array(items) =>
        ZipItemsIsEquality(items, b.items, cs);
      case Object(ms) =>
        LookupAllIsInclusion(ms, b.members, cs);
        LookupAllIsInclusion(b.members, ms, cs);
        MutualInclusion(CanonMembers(ms, cs), CanonMembers(b.members, cs));
      case _ =>
    }
  }

  lemma {:induction false} ZipItemsIsEquality(a: seq<Value>, b: seq<Value>, cs: bool)
    requires AllDistinct(a, cs) && AllDistinct(b, cs)
    ensures ZipItems(a, b, cs) <==> CanonItems(a, cs) == CanonItems(b, cs)
    decreases ItemsHeight(a) + ItemsHeight(b), |a|
  {
    if a != [] && b != [] {
      CompareItemsIsCanonEquality(a[0], b[0], cs);
      ZipItemsIsEquality(a[1..], b[1..], cs);
      CanonItemsStep(a, b, cs);
    }
  }

  lemma {:induction false} LookupAllIsInclusion(ms: seq<Entry<Value>>, ns: seq<Entry<Value>>, cs: bool)
    requires DistinctKeys(ms, cs)
    requires AllValuesDistinct(ms, cs) && AllValuesDistinct(ns, cs)
    ensures LookupAll(ms, ns, cs) <==> SubMap(CanonMembers(ms, cs), CanonMembers(ns, cs))
    decreases MembersHeight(ms) + MembersHeight(ns), |ms|
  {
    if ms != [] {
      var m, n, k := CanonMembers(ms[1..], cs), CanonMembers(ns, cs), Fold(ms[0].key, cs);
      LookupReadsMap(ns, ms[0].key, cs);
      LookupAllIsInclusion(ms[1..], ns, cs);
      CanonKeys(ms[1..], cs);
      var j := FindMember(ns, ms[0].key, cs);
      if j < |ns| {
        MemberHeight(ns, j);
        CompareItemsIsCanonEquality(ms[0].value, ns[j].value, cs);
        SubMapStep(m, n, k, Canonical(ms[0].value, cs));
      } else {
        assert k in CanonMembers(ms, cs);
      }
    }
  }

  lemma SubMapStep(m: map<string, Canon>, n: map<string, Canon>, k: string, v: Canon)
    requires k !in m && k in n
    ensures SubMap(m[k := v], n) <==> SubMap(m, n) && n[k] == v
  {
    if SubMap(m[k := v], n) {
      forall l | l in m ensures l in n && n[l] == m[l] {
        assert l in m[k := v];
      }
      assert k in m[k := v];
    }
  }

  /** The two algorithms agree on trees with distinct keys, and what they decide is an equivalence. */
  lemma EqualitiesAgree(a: Value, b: Value, c: Value, cs: bool)
    requires Distinct(a, cs) && Distinct(b, cs) && Distinct(c, cs)
    ensures CompareJson(a, b, cs) == CompareItems(a, b, cs)
    ensures CompareJson(a, a, cs)
    ensures CompareJson(a, b, cs) == CompareJson(b, a, cs)
    ensures CompareJson(a, b, cs) && CompareJson(b, c, cs) ==> CompareJson(a, c, cs)
  {
    CompareJsonIsCanonEquality(a, b, cs);
    CompareJsonIsCanonEquality(b, a, cs);
    CompareJsonIsCanonEquality(b, c, cs);
    CompareJsonIsCanonEquality(a, c, cs);
    CompareJsonIsCanonEquality(a, a, cs);
    CompareItemsIsCanonEquality(a, b, cs);
  }
}
