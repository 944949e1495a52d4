/** cJSON_Minify: blanks and comments are dropped in place, with one cursor that reads and one that
    writes. */
module Minifying {
  import opened CText
  import opened Sequences

  // Specification

  function AfterLine(s: string): (r: string)
    ensures |r| <= |s|
  {
    if s == [] then [] else if s[0] == '\n' then s[1..] else AfterLine(s[1..])
  }

  function AfterBlock(s: string): (r: string)
    ensures |r| <= |s|
  {
    if s == [] then [] else if s[0] == '*' && |s| > 1 && s[1] == '/' then s[2..] else AfterBlock(s[1..])
  }

  predicate Whitespace(c: char) {
    c == ' ' || c == '\t' || c == '\r' || c == '\n'
  }

  /** What is kept of a text, read from inside a string (quoted) or from outside. */
  function Kept(s: string, quoted: bool): string
    decreases |s|
  {
    if s == [] then []
    else if quoted then
      if s[0] == '\"' then ['\"'] + Kept(s[1..], false)
      else if s[0] == '\\' && |s| > 1 && s[1] == '\"' then ['\\', '\"'] + Kept(s[2..], true)
      else [s[0]] + Kept(s[1..], true)
    else if Whitespace(s[0]) then Kept(s[1..], false)
    else if s[0] == '/' then
      if |s| > 1 && s[1] == '/' then Kept(AfterLine(s[2..]), false)
      else if |s| > 1 && s[1] == '*' then Kept(AfterBlock(s[2..]), false)
      else Kept(s[1..], false)
    else if s[0] == '\"' then ['\"'] + Kept(s[1..], true)
    else [s[0]] + Kept(s[1..], false)
  }

  // Minifying twice

  /** A character that stands alone is kept as it is. */
  predicate Verbatim(c: char) {
    !Whitespace(c) && c != '/' && c != '\"'
  }

  /** Inside a string the next character is kept too, so nothing new can look like an escaped quote. */
  lemma KeptStartsAlike(s: string)
    requires s != []
    ensures Kept(s, true) != [] && Kept(s, true)[0] == s[0]
  {
  }

  lemma {:induction false} KeptTwice(s: string, quoted: bool)
    ensures Kept(Kept(s, quoted), quoted) == Kept(s, quoted)
    decreases |s|
  {
    if s == [] {
    } else if quoted {
      if s[0] == '\"' {
        KeptTwice(s[1..], false);
        Behind('\"', Kept(s[1..], false));
      } else if s[0] == '\\' && |s| > 1 && s[1] == '\"' {
        var rest := Kept(s[2..], true);
        KeptTwice(s[2..], true);
        assert (['\\', '\"'] + rest)[2..] == rest;
      } else {
        var rest := Kept(s[1..], true);
        KeptTwice(s[1..], true);
        if |s| > 1 { KeptStartsAlike(s[1..]); }
        Behind(s[0], rest);
      }
    } else if Whitespace(s[0]) {
      KeptTwice(s[1..], false);
    } else if s[0] == '/' {
      if |s| > 1 && s[1] == '/' { KeptTwice(AfterLine(s[2..]), false); }
      else if |s| > 1 && s[1] == '*' { KeptTwice(AfterBlock(s[2..]), false); }
      else { KeptTwice(s[1..], false); }
    } else {
      KeptTwice(s[1..], s[0] == '\"');
      Behind(s[0], Kept(s[1..], s[0] == '\"'));
    }
  }

  lemma Behind(c: char, rest: string)
    ensures ([c] + rest)[0] == c && ([c] + rest)[1..] == rest
  {
  }

  // The two cursors

  /** The terminator of a C string that reaches from p to n. */
  predicate TextFrom(a: array<char>, p: nat, n: nat)
    reads a
  {
    p <= n < a.Length && a[n] == NUL && NulFree(a[p..n])
  }

  lemma CharAt(a: array<char>, p: nat, n: nat)
    requires TextFrom(a, p, n)
    ensures a[p] == NUL <==> p == n
    ensures p < n ==> a[p..n][0] == a[p] && a[p..n][1..] == a[p + 1..n] && TextFrom(a, p + 1, n)
  {
    if p < n {
      assert a[p..n][0] == a[p];
      assert a[p..n][1..] == a[p + 1..n];
    }
  }

  method SkipOnelineComment(a: array<char>, ghost n: nat, p: nat) returns (q: nat)
    requires p + 2 <= n && TextFrom(a, p + 2, n)
    ensures p + 2 <= q <= n && TextFrom(a, q, n) && a[q..n] == AfterLine(a[p + 2..n])
  {
    q := p + 2;
    CharAt(a, q, n);
    while a[q] != NUL
      invariant p + 2 <= q <= n && TextFrom(a, q, n) && AfterLine(a[p + 2..n]) == AfterLine(a[q..n])
      decreases n - q
    {
      CharAt(a, q, n);
      if a[q] == '\n' {
        q := q + 1;
        return;
      }
      q := q + 1;
    }
    CharAt(a, q, n);
  }

  method SkipMultilineComment(a: array<char>, ghost n: nat, p: nat) returns (q: nat)
    requires p + 2 <= n && TextFrom(a, p + 2, n)
    ensures p + 2 <= q <= n && TextFrom(a, q, n) && a[q..n] == AfterBlock(a[p + 2..n])
  {
    q := p + 2;
    CharAt(a, q, n);
    while a[q] != NUL
      invariant p + 2 <= q <= n && TextFrom(a, q, n) && AfterBlock(a[p + 2..n]) == AfterBlock(a[q..n])
      decreases n - q
    {
      CharAt(a, q, n);
      CharAt(a, q + 1, n);
      if a[q] == '*' && a[q + 1] == '/' {
        q := q + 2;
        return;
      }
      q := q + 1;
    }
    CharAt(a, q, n);
  }

  /** One character moves from the reading to the writing cursor. */
  method Move(a: array<char>, ghost n: nat, q: nat, to: nat)
    requires to <= q < n && TextFrom(a, q, n)
    modifies a
    ensures TextFrom(a, q + 1, n) && a[q + 1..n] == old(a[q..n])[1..]
    ensures a[..to + 1] == old(a[..to]) + [old(a[q])] && old(a[q]) == old(a[q..n])[0]
    ensures forall k :: to < k < a.Length ==> a[k] == old(a[k])
  {
    CharAt(a, q, n);
    ghost var rest := a[q + 1..n];
    a[to] := a[q];
    assert a[q + 1..n] == rest;
  }

  /** A quote opens or closes a string. */
  method MoveQuote(a: array<char>, ghost n: nat, q: nat, to: nat, ghost quoted: bool)
    requires to <= q < n && TextFrom(a, q, n) && a[q] == '\"'
    modifies a
    ensures TextFrom(a, q + 1, n)
    ensures a[..to + 1] + Kept(a[q + 1..n], !quoted) == old(a[..to]) + old(Kept(a[q..n], quoted))
    ensures forall k :: to < k < a.Length ==> a[k] == old(a[k])
  {
    CharAt(a, q, n);
    Regroup(a[..to], [a[q]], Kept(a[q..n][1..], !quoted));
    Move(a, n, q, to);
  }

  /** One character inside a string, or an escaped quote. */
  method CopyQuoted(a: array<char>, ghost n: nat, q: nat, to: nat) returns (next: nat, behind: nat)
    requires to <= q < n && TextFrom(a, q, n) && a[q] != '\"'
    modifies a
    ensures q < next <= n && to < behind <= next && TextFrom(a, next, n)
    ensures a[..behind] + Kept(a[next..n], true) == old(a[..to]) + old(Kept(a[q..n], true))
    ensures forall k :: behind <= k < a.Length ==> a[k] == old(a[k])
  {
    ghost var written, rest := a[..to], a[q..n];
    CharAt(a, q, n);
    CharAt(a, q + 1, n);
    if a[q] == '\\' && a[q + 1] == '\"' {
      Move(a, n, q, to);
      Move(a, n, q + 1, to + 1);
      next, behind := q + 2, to + 2;
      assert a[..behind] == written + ['\\', '\"'] && a[next..n] == rest[2..];
      Regroup(written, ['\\', '\"'], Kept(rest[2..], true));
    } else {
      Regroup(written, [rest[0]], Kept(rest[1..], true));
      Move(a, n, q, to);
      next, behind := q + 1, to + 1;
    }
  }

  /** A string with its quotes; one that is not closed reaches to the end of the text. */
  method MinifyString(a: array<char>, ghost n: nat, p: nat, into: nat) returns (q: nat, to: nat)
    requires into <= p < n && TextFrom(a, p, n) && a[p] == '\"'
    modifies a
    ensures p < q <= n && into < to <= q && TextFrom(a, q, n)
    ensures a[..to] + Kept(a[q..n], false) == old(a[..into]) + old(Kept(a[p..n], false))
    ensures forall k :: to <= k < a.Length ==> a[k] == old(a[k])
  {
    ghost var whole := a[..into] + Kept(a[p..n], false);
    MoveQuote(a, n, p, into, false);
    q, to := p + 1, into + 1;
    CharAt(a, q, n);
    while a[q] != NUL
      invariant p < q <= n && into < to <= q && TextFrom(a, q, n)
      invariant whole == a[..to] + Kept(a[q..n], true)
      invariant forall k :: to <= k < a.Length ==> a[k] == old(a[k])
      decreases n - q
    {
      CharAt(a, q, n);
      if a[q] == '\"' {
        MoveQuote(a, n, q, to, true);
        q, to := q + 1, to + 1;
        return;
      }
      q, to := CopyQuoted(a, n, q, to);
      CharAt(a, q, n);
    }
    CharAt(a, q, n);
  }

  /** cJSON_Minify: the text that is left, its terminator, and nothing behind that was touched. */
  method Minify(a: array<char>, ghost n: nat) returns (ghost m: nat)
    requires TextFrom(a, 0, n)
    modifies a
    ensures m <= n && a[..m] == Kept(old(a[..n]), false) && a[m] == NUL
    ensures forall k :: m < k < a.Length ==> a[k] == old(a[k])
  {
    ghost var whole := Kept(a[0..n], false);
    assert a[..n] == a[0..n];
    var json: nat, into: nat := 0, 0;
    assert whole == a[..0] + whole;
    CharAt(a, 0, n);
    while a[json] != NUL
      invariant into <= json <= n && TextFrom(a, json, n)
      invariant whole == a[..into] + Kept(a[json..n], false)
      invariant forall k :: into <= k < a.Length ==> a[k] == old(a[k])
      decreases n - json
    {
      CharAt(a, json, n);
      CharAt(a, json + 1, n);
      if Whitespace(a[json]) {
        json := json + 1;
      } else if a[json] == '/' {
        json := SkipSlash(a, n, json);
      } else if a[json] == '\"' {
        json, into := MinifyString(a, n, json, into);
      } else {
        Regroup(a[..into], [a[json]], Kept(a[json..n][1..], false));
        Move(a, n, json, into);
        json, into := json + 1, into + 1;
      }
      CharAt(a, json, n);
    }
    CharAt(a, json, n);
    assert a[json..n] == [];
    assert a[..into] + [] == a[..into];
    a[into] := NUL;
    m := into;
  }

  method SkipSlash(a: array<char>, ghost n: nat, p: nat) returns (q: nat)
    requires p < n && TextFrom(a, p, n) && a[p] == '/'
    ensures p < q <= n && TextFrom(a, q, n) && Kept(a[q..n], false) == Kept(a[p..n], false)
  {
    CharAt(a, p, n);
    CharAt(a, p + 1, n);
    if a[p + 1] == '/' {
      CharAt(a, p + 2, n);
      assert a[p..n][2..] == a[p + 2..n];
      q := SkipOnelineComment(a, n, p);
    } else if a[p + 1] == '*' {
      CharAt(a, p + 2, n);
      assert a[p..n][2..] == a[p + 2..n];
      q := SkipMultilineComment(a, n, p);
    } else {
      q := p + 1;
    }
  }
}
