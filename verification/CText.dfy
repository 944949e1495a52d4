/** C strings and how they compare. */
module CText {
  // A C string is modelled by its contents, the characters before the terminating NUL.

  const NUL: char := '\0'

  /** No character of s is the terminator. */
  predicate NulFree(s: string) {
    forall i :: 0 <= i < |s| ==> s[i] != NUL
  }

  /** The character a C program reads at index i, the terminator included. */
  function At(s: string, i: nat): char {
    if i < |s| then s[i] else NUL
  }

  function Lower(c: char): char {
    if 'A' <= c <= 'Z' then c + 32 as char else c
  }

  /** What a key is compared as: itself, or its lower-case form. */
  function Fold(s: string, caseSensitive: bool): (r: string)
    ensures |r| == |s|
  {
    if caseSensitive || s == [] then s else [Lower(s[0])] + Fold(s[1..], caseSensitive)
  }

  function FoldChar(c: char, caseSensitive: bool): char {
    if caseSensitive then c else Lower(c)
  }

  /** The sign of strcmp. */
  function Order(s: string, t: string): (sign: int)
    ensures -1 <= sign <= 1
  {
    if s == [] then (if t == [] then 0 else -1)
    else if t == [] then 1
    else if s[0] == t[0] then Order(s[1..], t[1..])
    else if s[0] < t[0] then -1 else 1
  }

  function Compare(s: string, t: string, caseSensitive: bool): int {
    Order(Fold(s, caseSensitive), Fold(t, caseSensitive))
  }

  lemma {:induction false} OrderZero(s: string, t: string)
    ensures Order(s, t) == 0 <==> s == t
  {
    if s != [] && t != [] {
      OrderZero(s[1..], t[1..]);
      assert s == [s[0]] + s[1..] && t == [t[0]] + t[1..];
    }
  }

  lemma {:induction false} OrderFlip(s: string, t: string)
    ensures Order(t, s) == -Order(s, t)
  {
    if s != [] && t != [] { OrderFlip(s[1..], t[1..]); }
  }

  lemma {:induction false} OrderTransitive(s: string, t: string, u: string)
    requires Order(s, t) <= 0 && Order(t, u) <= 0
    ensures Order(s, u) <= 0
    ensures Order(s, t) < 0 || Order(t, u) < 0 ==> Order(s, u) < 0
  {
    if s != [] && t != [] && u != [] && s[0] == t[0] == u[0] {
      OrderTransitive(s[1..], t[1..], u[1..]);
    }
  }

  /** The comparison both sorts and both lookups rely on is a total order on folded keys. */
  lemma CompareIsTotalOrder(s: string, t: string, u: string, cs: bool)
    ensures Compare(s, t, cs) == 0 <==> Fold(s, cs) == Fold(t, cs)
    ensures Compare(t, s, cs) == -Compare(s, t, cs)
    ensures Compare(s, t, cs) <= 0 && Compare(t, u, cs) <= 0 ==> Compare(s, u, cs) <= 0
    ensures Compare(s, t, cs) <= 0 && Compare(t, u, cs) < 0 ==> Compare(s, u, cs) < 0
    ensures Compare(s, t, cs) < 0 && Compare(t, u, cs) <= 0 ==> Compare(s, u, cs) < 0
  {
    var a, b, c := Fold(s, cs), Fold(t, cs), Fold(u, cs);
    OrderZero(a, b);
    OrderFlip(a, b);
    if Order(a, b) <= 0 && Order(b, c) <= 0 { OrderTransitive(a, b, c); }
  }

  lemma {:induction false} OrderSkipsCommonPrefix(s: string, t: string, n: nat)
    requires n <= |s| && n <= |t| && s[..n] == t[..n]
    ensures Order(s, t) == Order(s[n..], t[n..])
  {
    if n > 0 {
      assert s[0] == s[..n][0] == t[..n][0] == t[0];
      assert s[1..][..n - 1] == s[..n][1..] && t[1..][..n - 1] == t[..n][1..];
      OrderSkipsCommonPrefix(s[1..], t[1..], n - 1);
      assert s[1..][n - 1..] == s[n..] && t[1..][n - 1..] == t[n..];
    } else {
      assert s[0..] == s && t[0..] == t;
    }
  }

  lemma {:induction false} FoldAt(s: string, i: nat, cs: bool)
    requires i < |s|
    ensures Fold(s, cs)[i] == FoldChar(s[i], cs)
  {
    if !cs && i > 0 { FoldAt(s[1..], i - 1, cs); }
  }

  /** Two characters are the same letter, the second one in lower case. */
  predicate LowerOf(c: char, d: char) {
    'A' <= c <= 'Z' && d as int - c as int == 'a' as int - 'A' as int
  }

  /** At n stands the first difference: there s ends, or has the smaller character. */
  ghost predicate SmallerAt(s: string, t: string, n: nat, cs: bool) {
    && n <= |s| && n < |t| && (n == |s| || FoldChar(s[n], cs) < FoldChar(t[n], cs))
    && forall i :: 0 <= i < n ==> s[i] == t[i] || (!cs && (LowerOf(s[i], t[i]) || LowerOf(t[i], s[i])))
  }

  lemma {:induction false} OrderFindsDifference(s: string, t: string) returns (n: nat)
    requires Order(s, t) < 0
    ensures n <= |s| && n < |t| && s[..n] == t[..n] && (n == |s| || s[n] < t[n])
  {
    if s != [] && s[0] == t[0] {
      n := OrderFindsDifference(s[1..], t[1..]);
      assert s[..n + 1] == [s[0]] + s[1..][..n] && t[..n + 1] == [t[0]] + t[1..][..n];
      n := n + 1;
    } else {
      n := 0;
    }
  }

  /** A key is the smaller one exactly when it is at the first difference; letters differ in more than their case
      or case counts. */
  lemma {:induction false} SmallerAtFirstDifference(s: string, t: string, cs: bool)
    ensures Compare(s, t, cs) < 0 <==> exists n: nat :: SmallerAt(s, t, n, cs)
  {
    var a, b := Fold(s, cs), Fold(t, cs);
    if Compare(s, t, cs) < 0 {
      var n := OrderFindsDifference(a, b);
      forall i | 0 <= i < n ensures FoldChar(s[i], cs) == FoldChar(t[i], cs) {
        assert a[..n][i] == b[..n][i];
        FoldAt(s, i, cs);
        FoldAt(t, i, cs);
      }
      if n < |s| { FoldAt(s, n, cs); }
      FoldAt(t, n, cs);
      assert SmallerAt(s, t, n, cs);
    }
    if n: nat :| SmallerAt(s, t, n, cs) {
      forall i | 0 <= i < n ensures a[i] == b[i] {
        FoldAt(s, i, cs);
        FoldAt(t, i, cs);
      }
      assert a[..n] == b[..n];
      OrderSkipsCommonPrefix(a, b, n);
      if n < |s| { FoldAt(s, n, cs); }
      FoldAt(t, n, cs);
    }
  }

  /** The two-pointer loop of compare_strings: its result has the sign of the total order. */
  method CompareStrings(s: string, t: string, caseSensitive: bool) returns (diff: int)
    requires NulFree(s) && NulFree(t)
    ensures diff < 0 <==> Compare(s, t, caseSensitive) < 0
    ensures diff == 0 <==> Fold(s, caseSensitive) == Fold(t, caseSensitive)
  {
    ghost var a, b := Fold(s, caseSensitive), Fold(t, caseSensitive);
    OrderZero(a, b);
    var i := 0;
    while FoldChar(At(s, i), caseSensitive) == FoldChar(At(t, i), caseSensitive)
      invariant 0 <= i <= |s| && i <= |t|
      invariant a[..i] == b[..i]
      decreases |s| - i
    {
      if At(s, i) == NUL {
        assert i == |s| && i == |t|;
        assert a == a[..i] && b == b[..i];
        return 0;
      }
      FoldAt(s, i, caseSensitive);
      FoldAt(t, i, caseSensitive);
      i := i + 1;
    }
    OrderSkipsCommonPrefix(a, b, i);
    if i < |s| { FoldAt(s, i, caseSensitive); }
    if i < |t| { FoldAt(t, i, caseSensitive); }
    diff := FoldChar(At(s, i), caseSensitive) as int - FoldChar(At(t, i), caseSensitive) as int;
  }
}
