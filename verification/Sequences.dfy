/** Sequences of distinct elements, and small facts about slices. */
module Sequences {

  predicate Differ<T(==)>(s: seq<T>, i: nat, j: nat)
    requires i < |s| && j < |s|
  {
    s[i] != s[j]
  }

  ghost predicate NoRepeats<T>(s: seq<T>) {
    forall i: nat, j: nat {:trigger Differ(s, i, j)} :: i < |s| && j < |s| && i != j ==> Differ(s, i, j)
  }

  /** The same, element by element. */
  predicate AllDifferent<T(==)>(s: seq<T>) {
    s == [] || (s[0] !in s[1..] && AllDifferent(s[1..]))
  }

  function InsertAt<T>(s: seq<T>, i: nat, x: T): seq<T>
    requires i <= |s|
  {
    s[..i] + [x] + s[i..]
  }

  function RemoveAt<T>(s: seq<T>, i: nat): seq<T>
    requires i < |s|
  {
    s[..i] + s[i + 1..]
  }

  lemma InsertNoRepeats<T>(s: seq<T>, i: nat, x: T)
    requires NoRepeats(s) && i <= |s| && x !in s
    ensures NoRepeats(InsertAt(s, i, x))
  {
    var r := InsertAt(s, i, x);
    forall a: nat, b: nat | a < |r| && b < |r| && a != b ensures Differ(r, a, b) {
      if a != i && b != i { assert Differ(s, if a < i then a else a - 1, if b < i then b else b - 1); }
    }
  }

  lemma RemoveNoRepeats<T>(s: seq<T>, i: nat)
    requires NoRepeats(s) && i < |s|
    ensures NoRepeats(RemoveAt(s, i)) && s[i] !in RemoveAt(s, i)
  {
    var r := RemoveAt(s, i);
    forall a: nat, b: nat | a < |r| && b < |r| && a != b ensures Differ(r, a, b) {
      assert Differ(s, if a < i then a else a + 1, if b < i then b else b + 1);
    }
    forall a: nat | a < |r| ensures r[a] != s[i] {
      assert Differ(s, i, if a < i then a else a + 1);
    }
  }

  lemma UpdateNoRepeats<T>(s: seq<T>, i: nat, x: T)
    requires NoRepeats(s) && i < |s| && (x !in s || x == s[i])
    ensures NoRepeats(s[i := x]) && (x != s[i] ==> s[i] !in s[i := x])
  {
    var r := s[i := x];
    forall a: nat, b: nat | a < |r| && b < |r| && a != b ensures Differ(r, a, b) {
      assert Differ(s, a, b);
    }
    if x != s[i] {
      forall a: nat | a < |r| ensures r[a] != s[i] {
        if a != i { assert Differ(s, i, a); }
      }
    }
  }

  lemma JoinNoRepeats<T>(a: seq<T>, b: seq<T>)
    requires NoRepeats(a) && NoRepeats(b) && forall y :: y in b ==> y !in a
    ensures NoRepeats(a + b)
  {
    var t := a + b;
    forall i: nat, j: nat | i < |t| && j < |t| && i != j ensures Differ(t, i, j) {
      if i < |a| && j < |a| {
        assert Differ(a, i, j);
      } else if i >= |a| && j >= |a| {
        assert Differ(b, i - |a|, j - |a|);
      } else {
        assert t[if i < |a| then i else j] in a && t[if i < |a| then j else i] in b;
      }
    }
  }

  /** A section and what is left without it. */
  lemma TwoParts<T>(s: seq<T>, x: nat, m: nat, rest: seq<T>, part: seq<T>)
    requires NoRepeats(s) && x + m <= |s| && rest == s[..x] + s[x + m..] && part == s[x..x + m]
    ensures NoRepeats(rest) && NoRepeats(part)
    ensures forall y :: y in part ==> y !in rest
  {
    forall i: nat, j: nat | i < |rest| && j < |rest| && i != j ensures Differ(rest, i, j) {
      assert Differ(s, if i < x then i else i + m, if j < x then j else j + m);
    }
    forall i: nat, j: nat | i < |part| && j < |part| && i != j ensures Differ(part, i, j) {
      assert Differ(s, x + i, x + j);
    }
    forall i: nat, j: nat | i < |part| && j < |rest| ensures part[i] != rest[j] {
      assert Differ(s, x + i, if j < x then j else j + m);
    }
  }

  lemma HeadAndTail<T>(s: seq<T>, i: nat)
    requires i < |s|
    ensures s[i..] != [] && s[i..][0] == s[i] && s[i..][1..] == s[i + 1..]
  {
  }

  lemma Regroup<T>(a: seq<T>, b: seq<T>, c: seq<T>)
    ensures a + (b + c) == (a + b) + c
  {
  }
}
