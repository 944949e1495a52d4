/** Strings that the minifier reads the wrong way round: after a string that ends in a backslash it takes what is
    inside quotes for outside, and drops blanks and slashes from it. */
module QuotesFlipped {
  import opened CText
  import opened Options
  import opened Rendering
  import opened Unescaping
  import opened Scanning
  import opened Minifying
  import opened MinifyPrinted

  /** The state behind the closing quote of a string whose contents are read from outside; none when something
      is dropped from them. An escaped quote lets the minifier in again. */
  function OutsideMode(s: string): Option<bool> {
    if s == [] then Some(true)
    else if s[0] == ' ' || s[0] == '/' then None
    else if s[0] == '\"' then Some(EndsInBackslash(s[1..]))
    else OutsideMode(s[1..])
  }

  /** The state behind a string: true when the minifier takes what follows for quoted. */
  function StringMode(s: string, quoted: bool): Option<bool> {
    if quoted then OutsideMode(s) else Some(EndsInBackslash(s))
  }

  // Strings that are kept

  lemma EscapeIsVerbatim(x: char)
    requires x != ' ' && x != '/' && x != '\"'
    ensures forall i :: 0 <= i < |EscapeChar(x)| ==> Verbatim(EscapeChar(x)[i])
  {
  }

  lemma {:induction false} OutsideTurns(s: string)
    requires OutsideMode(s).Some?
    ensures Turns(Escape(s) + "\"", Escape(s) + "\"", false, OutsideMode(s).value)
  {
    if s == [] {
      QuoteTurns(false, true);
      assert Escape(s) + "\"" == "\"";
    } else {
      var e, tail := EscapeChar(s[0]), Escape(s[1..]) + "\"";
      assert Escape(s) + "\"" == e + tail;
      if s[0] == '\"' {
        EscapedTurns(s[1..]);
        VerbatimTurns('\\');
        QuoteTurns(false, true);
        TurnsJoin("\\", "\\", "\"", "\"", false, false, true);
        assert e == "\\" + "\"";
        TurnsJoin(e, e, tail, tail, false, true, EndsInBackslash(s[1..]));
      } else {
        OutsideTurns(s[1..]);
        EscapeIsVerbatim(s[0]);
        AllVerbatimTurns(e);
        TurnsJoin(e, e, tail, tail, false, false, OutsideMode(s).value);
      }
    }
  }

  lemma KeptStringTurns(s: string, quoted: bool)
    requires StringMode(s, quoted).Some?
    ensures Turns(RenderString(s), RenderString(s), quoted, StringMode(s, quoted).value)
  {
    if quoted {
      QuoteTurns(true, false);
      OutsideTurns(s);
      TurnsJoin("\"", "\"", Escape(s) + "\"", Escape(s) + "\"", true, false, OutsideMode(s).value);
      assert RenderString(s) == "\"" + (Escape(s) + "\"");
    } else {
      StringTurns(s);
    }
  }

  // Printed text, escape sequence by escape sequence

  predicate ShortPair(t: string) {
    |t| >= 2 && t[0] == '\\'
    && (t[1] == '\"' || t[1] == '\\' || t[1] == 'b' || t[1] == 'f' || t[1] == 'n' || t[1] == 'r' || t[1] == 't')
  }

  predicate HexChar(c: char) {
    '0' <= c <= '9' || 'a' <= c <= 'f'
  }

  /** "\u00", a zero or a one, and a digit: a control character. */
  predicate ControlCode(t: string) {
    && |t| >= 6 && t[0] == '\\' && t[1] == 'u' && t[2] == '0' && t[3] == '0'
    && (t[4] == '0' || t[4] == '1') && HexChar(t[5])
  }

  /** Every backslash starts an escape sequence that the printer writes. */
  predicate Tidy(t: string) {
    t == [] || (t[0] != '\\' && Tidy(t[1..])) || (ShortPair(t) && Tidy(t[2..])) || (ControlCode(t) && Tidy(t[6..]))
  }

  lemma {:induction false} TidyJoin(a: string, b: string)
    requires Tidy(a) && Tidy(b)
    ensures Tidy(a + b)
    decreases |a|
  {
    if a == [] {
      assert a + b == b;
    } else if a[0] != '\\' && Tidy(a[1..]) {
      TidyJoin(a[1..], b);
      assert (a + b)[1..] == a[1..] + b;
    } else if ShortPair(a) && Tidy(a[2..]) {
      TidyJoin(a[2..], b);
      assert (a + b)[2..] == a[2..] + b;
    } else {
      TidyJoin(a[6..], b);
      assert (a + b)[6..] == a[6..] + b;
    }
  }

  lemma {:induction false} PlainIsTidy(t: string)
    requires forall i :: 0 <= i < |t| ==> t[i] != '\\'
    ensures Tidy(t)
  {
    if t != [] { PlainIsTidy(t[1..]); }
  }

  lemma EscapeCharIsTidy(x: char)
    ensures Tidy(EscapeChar(x))
  {
    var e := EscapeChar(x);
    if !Plain(x) && ShortEscape(x).None? {
      assert ControlCode(e) && e[6..] == [];
    } else if !Plain(x) {
      assert ShortPair(e) && e[2..] == [];
    } else {
      assert e[1..] == [];
    }
  }

  lemma {:induction false} EscapeIsTidy(s: string)
    ensures Tidy(Escape(s))
  {
    if s != [] {
      EscapeCharIsTidy(s[0]);
      EscapeIsTidy(s[1..]);
      TidyJoin(EscapeChar(s[0]), Escape(s[1..]));
    }
  }

  lemma {:induction false} AfterLineIsTidy(t: string)
    requires Tidy(t)
    ensures Tidy(AfterLine(t))
    decreases |t|
  {
    if t == [] {
    } else if t[0] != '\\' && Tidy(t[1..]) {
      AfterLineIsTidy(t[1..]);
    } else if ShortPair(t) && Tidy(t[2..]) {
      AfterLineIsTidy(t[2..]);
      assert AfterLine(t[1..]) == AfterLine(t[1..][1..]) && t[1..][1..] == t[2..];
    } else {
      AfterLineIsTidy(t[6..]);
      SkipsLine(t, 6);
    }
  }

  lemma {:induction false} SkipsLine(t: string, n: nat)
    requires n <= |t| && forall i :: 0 <= i < n ==> t[i] != '\n'
    ensures AfterLine(t) == AfterLine(t[n..])
    decreases n
  {
    if n > 0 {
      SkipsLine(t[1..], n - 1);
      assert t[1..][n - 1..] == t[n..];
    }
  }

  lemma {:induction false} AfterBlockIsTidy(t: string)
    requires Tidy(t)
    ensures Tidy(AfterBlock(t))
    decreases |t|
  {
    if t == [] {
    } else if t[0] != '\\' && Tidy(t[1..]) {
      if t[0] == '*' && |t| > 1 && t[1] == '/' {
        assert t[1..][1..] == t[2..];
      } else {
        AfterBlockIsTidy(t[1..]);
      }
    } else if ShortPair(t) && Tidy(t[2..]) {
      AfterBlockIsTidy(t[2..]);
      SkipsBlock(t, 2);
    } else {
      AfterBlockIsTidy(t[6..]);
      SkipsBlock(t, 6);
    }
  }

  lemma {:induction false} SkipsBlock(t: string, n: nat)
    requires n <= |t| && forall i :: 0 <= i < n ==> t[i] != '*'
    ensures AfterBlock(t) == AfterBlock(t[n..])
    decreases n
  {
    if n > 0 {
      SkipsBlock(t[1..], n - 1);
      assert t[1..][n - 1..] == t[n..];
    }
  }

  /** What stands in the text the minifier has left, where it was outside: no blank and no slash, and a backslash
      only in front of an escape sequence that stands for neither. */
  predicate OutsideStart(z: string) {
    z != [] ==>
      && !Whitespace(z[0]) && z[0] != '/'
      && (z[0] == '\\' ==> ShortPair(z) || ControlCode(z))
  }

  lemma {:induction false} KeptStartsOutside(t: string)
    requires Tidy(t)
    ensures OutsideStart(Kept(t, false))
    decreases |t|
  {
    if t == [] {
    } else if Whitespace(t[0]) {
      KeptStartsOutside(t[1..]);
    } else if t[0] == '/' {
      assert Tidy(t[1..]);
      if |t| > 1 && t[1] == '/' {
        assert t[1..][1..] == t[2..];
        AfterLineIsTidy(t[2..]);
        KeptStartsOutside(AfterLine(t[2..]));
      } else if |t| > 1 && t[1] == '*' {
        assert t[1..][1..] == t[2..];
        AfterBlockIsTidy(t[2..]);
        KeptStartsOutside(AfterBlock(t[2..]));
      } else {
        KeptStartsOutside(t[1..]);
      }
    } else if t[0] == '\\' {
      if ShortPair(t) { PairIsKept(t); } else { CodeIsKept(t); }
    }
  }

  lemma PairIsKept(t: string)
    requires ShortPair(t)
    ensures ShortPair(Kept(t, false))
  {
    var half := t[1..];
    assert Kept(t, false) == [t[0]] + Kept(half, false);
    assert Kept(half, false) == [half[0]] + Kept(half[1..], half[0] == '\"');
  }

  lemma CodeIsKept(t: string)
    requires ControlCode(t)
    ensures ControlCode(Kept(t, false))
  {
    var a := t[..6];
    AllVerbatimTurns(a);
    assert TurnsAt(a, a, false, false, t[6..]);
    assert a + t[6..] == t;
  }

  // Strings that lose something

  /** What is left of the buffer from p on, up to the terminator. */
  predicate Stands(c: string, p: nat, t: string) {
    p <= |c| && c[p..] == t + [NUL]
  }

  lemma StandsBehind(c: string, p: nat, a: string, t: string)
    requires Stands(c, p, a + t)
    ensures TextAt(c, p, a) && Stands(c, p + |a|, t) && p + |a| < |c|
  {
    var all := (a + t) + [NUL];
    assert |c[p..]| == |all|;
    forall i: nat | i < |a| ensures Unescaping.CharAt(c, p, a, i) { assert c[p..][i] == all[i]; }
    assert c[p + |a|..] == c[p..][|a|..] == all[|a|..] == t + [NUL];
  }

  /** The character that was dropped is not what is decoded in its place. */
  lemma {:induction false} DroppedIsMissed(c: string, p: nat, z: string, s: string, end: nat)
    requires Stands(c, p, z) && OutsideStart(z) && s != [] && (s[0] == ' ' || s[0] == '/')
    requires StringEnd(c, |c|, p) == Some(end)
    ensures Decode(c, p, end).Some? ==> UntilNul(Decode(c, p, end).value) != s
  {
    assert forall i :: 0 <= i < |z| ==> c[p + i] == c[p..][i] == z[i];
    assert c[p + |z|] == c[p..][|z|] == NUL;
    if p < end && c[p] == '\\' {
      if c[p + 1] == 'u' {
        CodeIsControl(c, p, end);
      }
    }
  }

  lemma {:induction false} CodeIsControl(c: string, p: nat, end: nat)
    requires p + 6 <= |c| && p <= end < |c| && ControlCode(c[p..])
    ensures var r := Utf16Literal(c, p, end); r.Some? ==> |r.value.0| == 1 && r.value.0[0] < ' '
  {
    var t := c[p..];
    assert t[2] == c[p + 2] && t[3] == c[p + 3] && t[4] == c[p + 4] && t[5] == c[p + 5];
    assert ParseHex4(c, p + 2) < 0x20;
  }

  lemma {:induction false} ContentsAreMisread(c: string, p: nat, s: string, rest: string, end: nat)
    requires NulFree(s) && OutsideMode(s).None? && Tidy(rest)
    requires Stands(c, p, Kept(Escape(s) + rest, false)) && StringEnd(c, |c|, p) == Some(end)
    ensures Decode(c, p, end).Some? ==> UntilNul(Decode(c, p, end).value) != s
    decreases |s|
  {
    var x := s[0];
    if x == ' ' || x == '/' {
      EscapeIsTidy(s);
      TidyJoin(Escape(s), rest);
      KeptStartsOutside(Escape(s) + rest);
      DroppedIsMissed(c, p, Kept(Escape(s) + rest, false), s, end);
    } else {
      var q := ContentsGoOn(c, p, s, rest, end);
      ContentsAreMisread(c, q, s[1..], rest, end);
      DecodedBehind(x, s[1..], s, Decode(c, q, end));
    }
  }

  lemma DecodedBehind(x: char, tail: string, s: string, d: Option<string>)
    requires s == [x] + tail && x != NUL && (d.Some? ==> UntilNul(d.value) != tail)
    ensures Push([x], d).Some? ==> UntilNul(Push([x], d).value) != s
  {
    if d.Some? {
      var all := [x] + d.value;
      assert all[1..] == d.value;
      assert UntilNul(all) == [x] + UntilNul(d.value);
      assert ([x] + UntilNul(d.value))[1..] == UntilNul(d.value) && s[1..] == tail;
    }
  }

  lemma {:induction false} FirstCharStands(c: string, p: nat, s: string, rest: string)
    requires s != [] && s[0] != ' ' && s[0] != '/' && s[0] != '\"' && Stands(c, p, Kept(Escape(s) + rest, false))
    ensures var q := p + |EscapeChar(s[0])|;
      TextAt(c, p, EscapeChar(s[0])) && q < |c| && Stands(c, q, Kept(Escape(s[1..]) + rest, false))
  {
    var e, tail := EscapeChar(s[0]), Escape(s[1..]) + rest;
    assert Escape(s) + rest == e + tail;
    EscapeIsVerbatim(s[0]);
    AllVerbatimTurns(e);
    assert TurnsAt(e, e, false, false, tail);
    StandsBehind(c, p, e, Kept(tail, false));
  }

  /** The first character is read as it was printed. */
  lemma {:induction false} ContentsGoOn(c: string, p: nat, s: string, rest: string, end: nat) returns (q: nat)
    requires NulFree(s) && s != [] && s[0] != ' ' && s[0] != '/' && s[0] != '\"'
    requires Stands(c, p, Kept(Escape(s) + rest, false)) && StringEnd(c, |c|, p) == Some(end)
    ensures q < |c| && Stands(c, q, Kept(Escape(s[1..]) + rest, false)) && StringEnd(c, |c|, q) == Some(end)
    ensures s == [s[0]] + s[1..] && Decode(c, p, end) == Push([s[0]], Decode(c, q, end))
  {
    var e := EscapeChar(s[0]);
    FirstCharStands(c, p, s, rest);
    q := p + |e|;
    DecodeChar(c, |c|, p, |c| - 1, s[0]);
    DecodeChar(c, |c|, p, end, s[0]);
  }

  /** A string from which something is dropped is not read. */
  lemma {:induction false} StringIsMisread(c: string, p: nat, s: string, rest: string)
    requires NulFree(s) && OutsideMode(s).None? && Tidy(rest)
    requires Stands(c, p, Kept(RenderString(s) + rest, true))
    ensures p < |c| && c[p] == '\"'
    ensures var r := ParseString(c, |c|, p); r.Parsed? ==> r.value != s
  {
    var tail := Escape(s) + ("\"" + rest);
    QuoteTurns(true, false);
    assert TurnsAt("\"", "\"", true, false, tail);
    assert RenderString(s) + rest == "\"" + tail;
    StandsBehind(c, p, "\"", Kept(tail, false));
    TextAtIndex(c, p, "\"", 0);
    PlainIsTidy("\"");
    TidyJoin("\"", rest);
    var stop := StringEnd(c, |c|, p + 1);
    if stop.Some? { ContentsAreMisread(c, p + 1, s, "\"" + rest, stop.value); }
  }
}
