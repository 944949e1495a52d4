/** Minifying a formatted print gives the unformatted print, and exactly when it does not. */
module MinifyPrinted {
  import opened Json
  import opened Rendering
  import opened ParsePrinted
  import opened Minifying
  import opened Sequences

  // Pieces of text

  /** a and a rest of text, read from state q, leave b and the rest as read from state r. */
  predicate TurnsAt(a: string, b: string, q: bool, r: bool, rest: string) {
    Kept(a + rest, q) == b + Kept(rest, r)
  }

  /** a is kept as b, and reading goes on in state r. */
  ghost predicate Turns(a: string, b: string, q: bool, r: bool) {
    forall rest: string :: TurnsAt(a, b, q, r, rest)
  }

  ghost predicate Apart(x: string, y: string) {
    exists k :: 0 <= k < |x| && k < |y| && x[k] != y[k]
  }

  ghost predicate PartsAt(a: string, b: string, q: bool, rest: string, other: string) {
    Apart(Kept(a + rest, q), b + other)
  }

  /** Whatever follows, a is not kept as something that starts with b. */
  ghost predicate Parts(a: string, b: string, q: bool) {
    forall rest: string, other: string :: PartsAt(a, b, q, rest, other)
  }

  lemma TurnsNothing(q: bool)
    ensures Turns("", "", q, q)
  {
    forall rest: string ensures TurnsAt("", "", q, q, rest) {
      assert "" + rest == rest;
      assert "" + Kept(rest, q) == Kept(rest, q);
    }
  }

  lemma TurnsJoin(a: string, b: string, c: string, d: string, q: bool, r: bool, t: bool)
    requires Turns(a, b, q, r) && Turns(c, d, r, t)
    ensures Turns(a + c, b + d, q, t)
  {
    forall rest: string ensures TurnsAt(a + c, b + d, q, t, rest) {
      Regroup(a, c, rest);
      Regroup(b, d, Kept(rest, t));
      assert TurnsAt(a, b, q, r, c + rest);
      assert TurnsAt(c, d, r, t, rest);
    }
  }

  lemma PartsBehind(a: string, b: string, c: string, d: string, q: bool, r: bool)
    requires Turns(a, b, q, r) && Parts(c, d, r)
    ensures Parts(a + c, b + d, q)
  {
    forall rest: string, other: string ensures PartsAt(a + c, b + d, q, rest, other) {
      Regroup(a, c, rest);
      Regroup(b, d, other);
      assert TurnsAt(a, b, q, r, c + rest);
      assert PartsAt(c, d, r, rest, other);
      ApartBehind(b, Kept(c + rest, r), d + other);
    }
  }

  lemma ApartBehind(b: string, x: string, y: string)
    requires Apart(x, y)
    ensures Apart(b + x, b + y)
  {
    var k :| 0 <= k < |x| && k < |y| && x[k] != y[k];
    assert (b + x)[|b| + k] == x[k] && (b + y)[|b| + k] == y[k];
  }

  lemma PartsBefore(a: string, b: string, c: string, d: string, q: bool)
    requires Parts(a, b, q)
    ensures Parts(a + c, b + d, q)
  {
    forall rest: string, other: string ensures PartsAt(a + c, b + d, q, rest, other) {
      Regroup(a, c, rest);
      Regroup(b, d, other);
      assert PartsAt(a, b, q, c + rest, d + other);
    }
  }

  // Characters

  lemma VerbatimTurns(x: char)
    requires Verbatim(x)
    ensures Turns([x], [x], false, false)
  {
    forall rest: string ensures TurnsAt([x], [x], false, false, rest) {
      assert ([x] + rest)[1..] == rest;
    }
  }

  lemma BlankTurns(x: char)
    requires Whitespace(x)
    ensures Turns([x], "", false, false)
  {
    forall rest: string ensures TurnsAt([x], "", false, false, rest) {
      assert ([x] + rest)[1..] == rest;
      assert "" + Kept(rest, false) == Kept(rest, false);
    }
  }

  /** Inside a string every character but a quote or a backslash. */
  lemma QuotedTurns(x: char)
    requires x != '\"' && x != '\\'
    ensures Turns([x], [x], true, true)
  {
    forall rest: string ensures TurnsAt([x], [x], true, true, rest) {
      assert ([x] + rest)[1..] == rest;
    }
  }

  lemma {:induction false} AllVerbatimTurns(s: string)
    requires forall i :: 0 <= i < |s| ==> Verbatim(s[i])
    ensures Turns(s, s, false, false)
  {
    if s == [] {
      TurnsNothing(false);
    } else {
      VerbatimTurns(s[0]);
      AllVerbatimTurns(s[1..]);
      TurnsJoin([s[0]], [s[0]], s[1..], s[1..], false, false, false);
      assert s == [s[0]] + s[1..];
    }
  }

  lemma {:induction false} TabsTurn(n: nat)
    ensures Turns(Tabs(n), "", false, false)
  {
    if n == 0 {
      TurnsNothing(false);
    } else {
      BlankTurns('\t');
      TabsTurn(n - 1);
      TurnsJoin("\t", "", Tabs(n - 1), "", false, false, false);
      assert "" + "" == "";
    }
  }

  // Strings

  predicate EndsInBackslash(s: string) {
    s != [] && s[|s| - 1] == '\\'
  }

  /** A backslash that is not the last character, escaped: its second half never meets the quote. */
  lemma BackslashKept(all: string, next: string)
    requires all == ['\\', '\\'] + next && next != [] && next[0] != '\"'
    ensures Kept(all, true) == ['\\', '\\'] + Kept(next, true)
  {
    var half := all[1..];
    assert half[0] == '\\' && half[1] == next[0] && half[1..] == next;
    Regroup(['\\'], ['\\'], Kept(next, true));
  }

  lemma BackslashTurns(tail: string, r: bool)
    requires tail != [] && tail[0] != '\"' && Turns(tail, tail, true, r)
    ensures Turns(['\\', '\\'] + tail, ['\\', '\\'] + tail, true, r)
  {
    var pair := ['\\', '\\'];
    forall rest: string ensures TurnsAt(pair + tail, pair + tail, true, r, rest) {
      Regroup(pair, tail, rest);
      BackslashKept((pair + tail) + rest, tail + rest);
      assert TurnsAt(tail, tail, true, r, rest);
      Regroup(pair, tail, Kept(rest, r));
    }
  }

  lemma EscapedQuoteTurns()
    ensures Turns(['\\', '\"'], ['\\', '\"'], true, true)
  {
    forall rest: string ensures TurnsAt(['\\', '\"'], ['\\', '\"'], true, true, rest) {
      assert (['\\', '\"'] + rest)[2..] == rest;
    }
  }

  lemma EscapeLetterTurns(x: char)
    requires x != '\"' && x != '\\'
    ensures Turns(['\\', x], ['\\', x], true, true)
  {
    forall rest: string ensures TurnsAt(['\\', x], ['\\', x], true, true, rest) {
      EscapeLetterKept(['\\', x] + rest, x, rest);
    }
  }

  lemma EscapeLetterKept(all: string, x: char, rest: string)
    requires all == ['\\', x] + rest && x != '\"' && x != '\\'
    ensures Kept(all, true) == ['\\', x] + Kept(rest, true)
  {
    var half := all[1..];
    assert half[0] == x && half[1..] == rest;
    Regroup(['\\'], [x], Kept(rest, true));
  }

  lemma {:induction false} PlainTextTurns(s: string)
    requires forall i :: 0 <= i < |s| ==> s[i] != '\"' && s[i] != '\\'
    ensures Turns(s, s, true, true)
  {
    if s == [] {
      TurnsNothing(true);
    } else {
      QuotedTurns(s[0]);
      PlainTextTurns(s[1..]);
      TurnsJoin([s[0]], [s[0]], s[1..], s[1..], true, true, true);
      assert s == [s[0]] + s[1..];
    }
  }

  lemma EscapeTurns(x: char)
    requires x != '\\'
    ensures Turns(EscapeChar(x), EscapeChar(x), true, true)
  {
    if Plain(x) {
      QuotedTurns(x);
    } else if x == '\"' {
      EscapedQuoteTurns();
    } else if ShortEscape(x).Some? {
      EscapeLetterTurns(ShortEscape(x).value);
    } else {
      EscapeLetterTurns('u');
      PlainTextTurns(Hex4(x));
      TurnsJoin(['\\', 'u'], ['\\', 'u'], Hex4(x), Hex4(x), true, true, true);
      assert EscapeChar(x) == ['\\', 'u'] + Hex4(x);
    }
  }

  /** A string behind its opening quote: when it ends in a backslash its closing quote looks escaped. */
  lemma {:induction false} EscapedTurns(s: string)
    ensures Turns(Escape(s) + "\"", Escape(s) + "\"", true, EndsInBackslash(s))
  {
    if s == [] {
      QuoteTurns(true, false);
      assert Escape(s) + "\"" == "\"";
    } else {
      var x, tail := s[0], Escape(s[1..]) + "\"";
      EscapedTurns(s[1..]);
      assert Escape(s) + "\"" == EscapeChar(x) + tail;
      if x != '\\' {
        EscapeTurns(x);
        TurnsJoin(EscapeChar(x), EscapeChar(x), tail, tail, true, true, EndsInBackslash(s));
      } else if |s| == 1 {
        LastBackslash();
        assert tail == "\"";
        assert Escape(s) + "\"" == ['\\', '\\', '\"'];
      } else {
        EscapeStartsNoQuote(s[1..]);
        BackslashTurns(tail, EndsInBackslash(s));
      }
    }
  }

  lemma LastBackslash()
    ensures Turns(['\\', '\\', '\"'], ['\\', '\\', '\"'], true, true)
  {
    forall rest: string ensures TurnsAt(['\\', '\\', '\"'], ['\\', '\\', '\"'], true, true, rest) {
      var half := ['\\', '\"'] + rest;
      assert (['\\', '\\', '\"'] + rest)[1..] == half && half[2..] == rest;
      Regroup(['\\'], ['\\', '\"'], Kept(rest, true));
    }
  }

  lemma QuoteTurns(quoted: bool, after: bool)
    requires after == !quoted
    ensures Turns("\"", "\"", quoted, after)
  {
    forall rest: string ensures TurnsAt("\"", "\"", quoted, after, rest) {
      assert ("\"" + rest)[1..] == rest;
    }
  }

  lemma EscapeStartsNoQuote(s: string)
    requires s != []
    ensures Escape(s) != [] && Escape(s)[0] != '\"'
  {
  }

  lemma StringTurns(s: string)
    ensures Turns(RenderString(s), RenderString(s), false, EndsInBackslash(s))
  {
    QuoteTurns(false, true);
    EscapedTurns(s);
    TurnsJoin("\"", "\"", Escape(s) + "\"", Escape(s) + "\"", false, true, EndsInBackslash(s));
    assert RenderString(s) == "\"" + (Escape(s) + "\"");
  }

  // Trees

  /** No string and no key ends in a backslash. */
  predicate Closed(v: Value)
    decreases v
  {
    match v
    case String(s) => !EndsInBackslash(s)
    case Array(items) => ClosedItems(items)
    case Object(ms) => ClosedMembers(ms)
    case _ => true
  }

  predicate ClosedItems(items: seq<Value>)
    decreases items
  {
    items == [] || (Closed(items[0]) && ClosedItems(items[1..]))
  }

  predicate ClosedMembers(ms: seq<Entry<Value>>)
    decreases ms
  {
    ms == [] || (!EndsInBackslash(ms[0].key) && Closed(ms[0].value) && ClosedMembers(ms[1..]))
  }

  /** Only brackets follow a string that ends in a backslash. */
  predicate ClosedUpToLast(v: Value)
    decreases v
  {
    match v
    case Array(items) => ItemsUpToLast(items)
    case Object(ms) => ClosedMembers(ms)
    case _ => true
  }

  predicate ItemsUpToLast(items: seq<Value>)
    decreases items
  {
    items == []
    || (|items| == 1 && ClosedUpToLast(items[0]))
    || (|items| > 1 && Closed(items[0]) && ItemsUpToLast(items[1..]))
  }

  lemma {:induction false} ClosedIsUpToLast(v: Value)
    requires Closed(v)
    ensures ClosedUpToLast(v)
    decreases v, 1
  {
    if v.Array? { ItemsClosedAreUpToLast(v.items); }
  }

  lemma {:induction false} ItemsClosedAreUpToLast(items: seq<Value>)
    requires ClosedItems(items)
    ensures ItemsUpToLast(items)
    decreases items, 0
  {
    if |items| == 1 {
      ClosedIsUpToLast(items[0]);
    } else if items != [] {
      ItemsClosedAreUpToLast(items[1..]);
    }
  }

  // Where the text of a tree leads

  lemma {:induction false} ValueTurns(v: Value, depth: nat, flat: nat)
    requires Clean(v) && ClosedUpToLast(v)
    ensures Turns(Render(v, true, depth), Render(v, false, flat), false, !Closed(v))
    decreases v, 1
  {
    match v
    case Number(n) =>
      IntTextVerbatim(n);
      AllVerbatimTurns(IntText(n));
    case String(s) => StringTurns(s);
    case Array(items) =>
      VerbatimTurns('[');
      ItemsTurn(items, depth + 1, flat + 1);
      BracketTurns(!ClosedItems(items));
      TurnsJoin("[", "[", RenderItems(items, true, depth + 1), RenderItems(items, false, flat + 1), false, false,
        !ClosedItems(items));
      TurnsJoin("[" + RenderItems(items, true, depth + 1), "[" + RenderItems(items, false, flat + 1), "]", "]",
        false, !ClosedItems(items), !ClosedItems(items));
    case Object(ms) =>
      MembersTurn(ms, depth + 1, flat + 1);
      BracesTurn(
        RenderMembers(ms, true, depth + 1), RenderMembers(ms, false, flat + 1), depth, Render(v, true, depth),
        Render(v, false, flat));
    case _ => AllVerbatimTurns(Render(v, true, depth));
  }

  lemma IntTextVerbatim(n: int)
    ensures forall i :: 0 <= i < |IntText(n)| ==> Verbatim(IntText(n)[i])
  {
    IntTextNumberChars(n);
  }

  lemma BracketTurns(quoted: bool)
    ensures Turns("]", "]", quoted, quoted)
  {
    if quoted { QuotedTurns(']'); } else { VerbatimTurns(']'); }
  }

  /** An opening brace, a member list that reads to its end outside of strings, and the last line. */
  lemma BracesTurn(lines: string, line: string, depth: nat, all: string, flat: string)
    requires Turns(lines, line, false, false)
    requires all == Opening(true) + lines + Closing(true, depth) && flat == "{" + line + "}"
    ensures Turns(all, flat, false, false)
  {
    VerbatimTurns('{');
    BlankTurns('\n');
    TurnsJoin("{", "{", "\n", "", false, false, false);
    assert "{" + "\n" == Opening(true) && "{" + "" == "{";
    TurnsJoin(Opening(true), "{", lines, line, false, false, false);
    TabsTurn(depth);
    VerbatimTurns('}');
    TurnsJoin(Tabs(depth), "", "}", "}", false, false, false);
    assert "" + "}" == "}";
    TurnsJoin(Opening(true) + lines, "{" + line, Closing(true, depth), "}", false, false, false);
  }

  lemma {:induction false} ItemsTurn(items: seq<Value>, depth: nat, flat: nat)
    requires CleanItems(items) && ItemsUpToLast(items)
    ensures Turns(RenderItems(items, true, depth), RenderItems(items, false, flat), false, !ClosedItems(items))
    decreases items, 0
  {
    if items == [] {
      TurnsNothing(false);
    } else {
      var more := |items| > 1;
      if more { ClosedIsUpToLast(items[0]); }
      ValueTurns(items[0], depth, flat);
      if more {
        ItemsTurn(items[1..], depth, flat);
        SeparatorTurns();
      } else {
        assert items[1..] == [] && ClosedItems(items[1..]);
        TurnsNothing(!ClosedItems(items));
      }
      ItemsTextTurns(
        Render(items[0], true, depth), Render(items[0], false, flat), !Closed(items[0]), more,
        RenderItems(items[1..], true, depth), RenderItems(items[1..], false, flat), !ClosedItems(items));
    }
  }

  lemma SeparatorTurns()
    ensures Turns(", ", ",", false, false)
  {
    VerbatimTurns(',');
    BlankTurns(' ');
    TurnsJoin(",", ",", " ", "", false, false, false);
    assert "," + " " == ", " && "," + "" == ",";
  }

  /** An element, its separator if more follow, and the others. */
  lemma ItemsTextTurns(a: string, b: string, r: bool, more: bool, c: string, d: string, t: bool)
    requires Turns(a, b, false, r)
    requires if more then !r && Turns(", ", ",", false, false) && Turns(c, d, false, t)
             else r == t && c == d == "" && Turns("", "", t, t)
    ensures Turns(a + ItemSeparator(more, true) + c, b + ItemSeparator(more, false) + d, false, t)
  {
    if more {
      TurnsJoin(a, b, ", ", ",", false, false, false);
      TurnsJoin(a + ", ", b + ",", c, d, false, false, t);
    } else {
      assert a + "" + "" == a && b + "" + "" == b;
    }
  }

  lemma {:induction false} MembersTurn(ms: seq<Entry<Value>>, depth: nat, flat: nat)
    requires CleanMembers(ms) && ClosedMembers(ms)
    ensures Turns(RenderMembers(ms, true, depth), RenderMembers(ms, false, flat), false, false)
    decreases ms, 0
  {
    if ms == [] {
      TurnsNothing(false);
    } else {
      ClosedIsUpToLast(ms[0].value);
      ValueTurns(ms[0].value, depth, flat);
      StartTurns(ms[0].key, depth, flat);
      var a, b := MemberStart(ms[0].key, true, depth), MemberStart(ms[0].key, false, flat);
      var c, d := Render(ms[0].value, true, depth), Render(ms[0].value, false, flat);
      TurnsJoin(a, b, c, d, false, false, false);
      EndTurns(|ms| > 1);
      TurnsJoin(a + c, b + d, MemberEnd(|ms| > 1, true), MemberEnd(|ms| > 1, false), false, false, false);
      MembersTurn(ms[1..], depth, flat);
      TurnsJoin(
        a + c + MemberEnd(|ms| > 1, true), b + d + MemberEnd(|ms| > 1, false), RenderMembers(ms[1..], true, depth),
        RenderMembers(ms[1..], false, flat), false, false, false);
    }
  }

  /** Indentation and key, up to the blank behind the colon. */
  lemma StartTurns(key: string, depth: nat, flat: nat)
    requires !EndsInBackslash(key)
    ensures Turns(MemberStart(key, true, depth), MemberStart(key, false, flat), false, false)
  {
    var k := RenderString(key);
    TabsTurn(depth);
    StringTurns(key);
    TurnsJoin(Tabs(depth), "", k, k, false, false, false);
    VerbatimTurns(':');
    BlankTurns('\t');
    TurnsJoin(":", ":", "\t", "", false, false, false);
    assert ":" + "\t" == ":\t" && ":" + "" == ":";
    TurnsJoin(Tabs(depth) + k, "" + k, ":\t", ":", false, false, false);
  }

  lemma EndTurns(more: bool)
    ensures Turns(MemberEnd(more, true), MemberEnd(more, false), false, false)
  {
    VerbatimTurns(',');
    BlankTurns('\n');
    TurnsJoin(",", ",", "\n", "", false, false, false);
    if more {
      assert "," + "\n" == MemberEnd(true, true) && "," + "" == MemberEnd(true, false);
    } else {
      assert MemberEnd(false, true) == "\n" && MemberEnd(false, false) == "";
    }
  }

  // Where minifying fails

  /** A blank inside a string is kept, where the unformatted text goes on at once. */
  lemma BlankParts(blank: char, b: string)
    requires blank <= ' ' && b != [] && b[0] > ' '
    ensures Parts([blank], b, true)
  {
    forall rest: string, other: string ensures PartsAt([blank], b, true, rest, other) {
      assert ([blank] + rest)[1..] == rest;
      assert Kept([blank] + rest, true)[0] == blank && (b + other)[0] == b[0];
    }
  }

  /** The same behind a separator. */
  lemma SeparatorParts(sep: char, blank: char, b: string)
    requires sep != '\"' && sep != '\\' && blank <= ' ' && b != [] && b[0] > ' '
    ensures Parts([sep, blank], [sep] + b, true)
  {
    QuotedTurns(sep);
    BlankParts(blank, b);
    PartsBehind([sep], [sep], [blank], b, true, true);
    assert [sep] + [blank] == [sep, blank];
  }

  lemma ValueStartsVisible(v: Value, depth: nat)
    requires Clean(v)
    ensures Render(v, false, depth) != [] && Render(v, false, depth)[0] > ' '
  {
    RenderStarts(v, false, depth);
  }

  lemma ItemsStartVisible(items: seq<Value>, depth: nat)
    requires items != [] && CleanItems(items)
    ensures RenderItems(items, false, depth) != [] && RenderItems(items, false, depth)[0] > ' '
  {
    ValueStartsVisible(items[0], depth);
  }

  lemma {:induction false} ValueParts(v: Value, depth: nat, flat: nat)
    requires Clean(v) && !ClosedUpToLast(v)
    ensures Parts(Render(v, true, depth), Render(v, false, flat), false)
    decreases v, 1
  {
    match v
    case Array(items) =>
      var a, b := RenderItems(items, true, depth + 1), RenderItems(items, false, flat + 1);
      ItemsPart(items, depth + 1, flat + 1);
      VerbatimTurns('[');
      PartsBehind("[", "[", a, b, false, false);
      PartsBefore("[" + a, "[" + b, "]", "]", false);
    case Object(ms) =>
      var a, b := RenderMembers(ms, true, depth + 1), RenderMembers(ms, false, flat + 1);
      MembersPart(ms, depth + 1, flat + 1, b + "}");
      VerbatimTurns('{');
      BlankTurns('\n');
      TurnsJoin("{", "{", "\n", "", false, false, false);
      assert "{" + "\n" == Opening(true) && "{" + "" == "{";
      PartsBehind(Opening(true), "{", a, b + "}", false, false);
      PartsBefore(Opening(true) + a, "{" + (b + "}"), Closing(true, depth), "", false);
      assert "{" + (b + "}") + "" == Render(v, false, flat);
  }

  /** What is misread at a separator stays so, whatever comes next. */
  lemma PartsBetween(a: string, b: string, s: string, t: string, c: string, d: string)
    requires Turns(a, b, false, true) && Parts(s, t + d, true)
    ensures Parts((a + s) + c, (b + t) + d, false)
  {
    PartsBehind(a, b, s, t + d, false, true);
    PartsBefore(a + s, b + (t + d), c, "", false);
    assert b + (t + d) + "" == (b + t) + d;
  }

  lemma {:induction false} ItemsPart(items: seq<Value>, depth: nat, flat: nat)
    requires CleanItems(items) && !ItemsUpToLast(items)
    ensures Parts(RenderItems(items, true, depth), RenderItems(items, false, flat), false)
    decreases items, 0
  {
    var a, b := Render(items[0], true, depth), Render(items[0], false, flat);
    var c, d := RenderItems(items[1..], true, depth), RenderItems(items[1..], false, flat);
    var more := |items| > 1;
    if !ClosedUpToLast(items[0]) {
      ValueParts(items[0], depth, flat);
      PartsBefore(a, b, ItemSeparator(more, true), ItemSeparator(more, false), false);
      PartsBefore(a + ItemSeparator(more, true), b + ItemSeparator(more, false), c, d, false);
    } else {
      ValueTurns(items[0], depth, flat);
      assert more;
      if Closed(items[0]) {
        SeparatorTurns();
        ItemsPart(items[1..], depth, flat);
        TurnsJoin(a, b, ", ", ",", false, false, false);
        PartsBehind(a + ", ", b + ",", c, d, false, false);
      } else {
        ItemsStartVisible(items[1..], flat);
        SeparatorParts(',', ' ', d);
        PartsBetween(a, b, ", ", ",", c, d);
      }
    }
  }

  /** The unformatted text of the members and the closing brace. */
  lemma {:induction false} MembersPart(ms: seq<Entry<Value>>, depth: nat, flat: nat, line: string)
    requires CleanMembers(ms) && !ClosedMembers(ms) && line == RenderMembers(ms, false, flat) + "}"
    ensures Parts(RenderMembers(ms, true, depth), line, false)
    decreases ms, 0
  {
    var e, more := ms[0], |ms| > 1;
    var a, b := MemberText(e, true, depth), MemberText(e, false, flat);
    var s, t := MemberEnd(more, true), MemberEnd(more, false);
    var c, d := RenderMembers(ms[1..], true, depth), RenderMembers(ms[1..], false, flat) + "}";
    assert line == (b + t) + d;
    if EndsInBackslash(e.key) || !ClosedUpToLast(e.value) {
      MemberParts(e, depth, flat);
      PartsBefore(a, b, s, t, false);
      PartsBefore(a + s, b + t, c, d, false);
    } else {
      MemberTurns(e, depth, flat);
      if Closed(e.value) {
        EndTurns(more);
        TurnsJoin(a, b, s, t, false, false, false);
        MembersPart(ms[1..], depth, flat, d);
        PartsBehind(a + s, b + t, c, d, false, false);
      } else {
        LineEndParts(ms[1..], flat, s, t, d);
        PartsBetween(a, b, s, t, c, d);
      }
    }
  }

  lemma LineEndParts(others: seq<Entry<Value>>, flat: nat, s: string, t: string, d: string)
    requires s == MemberEnd(others != [], true) && t == MemberEnd(others != [], false)
    requires d == RenderMembers(others, false, flat) + "}"
    ensures Parts(s, t + d, true)
  {
    if others == [] {
      BlankParts('\n', d);
      assert s == ['\n'] && t + d == d;
    } else {
      SeparatorParts(',', '\n', d);
      assert s == [',', '\n'] && t == [','];
    }
  }

  /** A member with a sound key: its value may leave a string open. */
  lemma MemberTurns(e: Entry<Value>, depth: nat, flat: nat)
    requires Clean(e.value) && !EndsInBackslash(e.key) && ClosedUpToLast(e.value)
    ensures Turns(MemberText(e, true, depth), MemberText(e, false, flat), false, !Closed(e.value))
  {
    StartTurns(e.key, depth, flat);
    ValueTurns(e.value, depth, flat);
    TurnsJoin(
      MemberStart(e.key, true, depth), MemberStart(e.key, false, flat), Render(e.value, true, depth),
      Render(e.value, false, flat), false, false, !Closed(e.value));
  }

  lemma {:induction false} MemberParts(e: Entry<Value>, depth: nat, flat: nat)
    requires Clean(e.value) && (EndsInBackslash(e.key) || !ClosedUpToLast(e.value))
    ensures Parts(MemberText(e, true, depth), MemberText(e, false, flat), false)
    decreases e, 2
  {
    var c, d := Render(e.value, true, depth), Render(e.value, false, flat);
    if EndsInBackslash(e.key) {
      var k := RenderString(e.key);
      TabsTurn(depth);
      StringTurns(e.key);
      TurnsJoin(Tabs(depth), "", k, k, false, false, true);
      ValueStartsVisible(e.value, flat);
      SeparatorParts(':', '\t', d);
      PartsBehind(Tabs(depth) + k, "" + k, ":\t", ":" + d, false, true);
      PartsBefore((Tabs(depth) + k) + ":\t", ("" + k) + (":" + d), c, "", false);
      assert ("" + k) + (":" + d) + "" == MemberText(e, false, flat);
    } else {
      StartTurns(e.key, depth, flat);
      ValueParts(e.value, depth, flat);
      PartsBehind(MemberStart(e.key, true, depth), MemberStart(e.key, false, flat), c, d, false, false);
    }
  }

  // The theorems

  /** Minifying a formatted print gives the unformatted print exactly when nothing but closing brackets
      follows a string or key that ends in a backslash. */
  lemma MinifiedPrint(v: Value)
    requires Printable(v) && NulFreeTree(v)
    ensures Kept(Render(v, true, 0), false) == Render(v, false, 0) <==> ClosedUpToLast(v)
  {
    var r, flat := Render(v, true, 0), Render(v, false, 0);
    PrintableIsClean(v);
    assert r + "" == r && flat + "" == flat;
    if ClosedUpToLast(v) {
      ValueTurns(v, 0, 0);
      assert TurnsAt(r, flat, false, !Closed(v), "");
    } else {
      ValueParts(v, 0, 0);
      assert PartsAt(r, flat, false, "", "");
    }
  }

  /** The shortest print that is misread: the blank inside the second string of ["\\", " "] is taken for one
      between two values, and the one between the strings for one inside. */
  lemma BackslashIsMisread()
    ensures var v := Array([String("\\"), String(" ")]);
      && Render(v, true, 0) == ['[', '\"', '\\', '\\', '\"', ',', ' ', '\"', ' ', '\"', ']']
      && Kept(Render(v, true, 0), false) == ['[', '\"', '\\', '\\', '\"', ',', ' ', '\"', '\"', ']']
      && Render(v, false, 0) == ['[', '\"', '\\', '\\', '\"', ',', '\"', ' ', '\"', ']']
  {
    var quoted := ['\"', '\\', '\\', '\"'];
    TwoStringsText();
    VerbatimTurns('[');
    StringTurns("\\");
    TurnsJoin("[", "[", quoted, quoted, false, false, true);
    PlainTextTurns(", ");
    TurnsJoin("[" + quoted, "[" + quoted, ", ", ", ", false, true, true);
    var start := "[" + quoted + ", ";
    BlankBetween(start);
    assert start == ['[', '\"', '\\', '\\', '\"', ',', ' '];
    assert start + ['\"', ' ', '\"', ']'] == ['[', '\"', '\\', '\\', '\"', ',', ' ', '\"', ' ', '\"', ']'];
    assert start + ['\"', '\"', ']'] == ['[', '\"', '\\', '\\', '\"', ',', ' ', '\"', '\"', ']'];
  }

  lemma TwoStringsText()
    ensures RenderString("\\") == ['\"', '\\', '\\', '\"']
    ensures var v := Array([String("\\"), String(" ")]);
      && Render(v, true, 0) == ['[', '\"', '\\', '\\', '\"', ',', ' ', '\"', ' ', '\"', ']']
      && Render(v, false, 0) == ['[', '\"', '\\', '\\', '\"', ',', '\"', ' ', '\"', ']']
  {
    var quoted, blank := RenderString("\\"), RenderString(" ");
    TwoStrings();
    TwoItemsText("\\", " ", true);
    TwoItemsText("\\", " ", false);
    assert "[" + (quoted + ", " + blank) + "]" == ['[', '\"', '\\', '\\', '\"', ',', ' ', '\"', ' ', '\"', ']'];
    assert "[" + (quoted + "," + blank) + "]" == ['[', '\"', '\\', '\\', '\"', ',', '\"', ' ', '\"', ']'];
  }

  lemma TwoStrings()
    ensures RenderString("\\") == ['\"', '\\', '\\', '\"'] && RenderString(" ") == ['\"', ' ', '\"']
  {
    assert Escape("\\") == EscapeChar('\\') + Escape("") == ['\\', '\\'];
    assert Escape(" ") == EscapeChar(' ') + Escape("") == [' '];
  }

  lemma TwoItemsText(s: string, t: string, format: bool)
    ensures Render(Array([String(s), String(t)]), format, 0)
         == "[" + (RenderString(s) + (if format then ", " else ",") + RenderString(t)) + "]"
  {
    var items := [String(s), String(t)];
    assert items[1..] == [String(t)] && items[1..][1..] == [];
    assert RenderItems(items[1..], format, 1) == RenderString(t) + [] + [] == RenderString(t);
    assert RenderItems(items, format, 1)
        == RenderString(s) + (if format then ", " else ",") + RenderItems(items[1..], format, 1);
  }

  /** What is left of a blank in quotes that are taken the wrong way round. */
  lemma BlankBetween(a: string)
    requires Turns(a, a, false, true)
    ensures Kept(a + ['\"', ' ', '\"', ']'], false) == a + ['\"', '\"', ']']
  {
    QuoteTurns(true, false);
    TurnsJoin(a, a, "\"", "\"", false, true, false);
    BlankTurns(' ');
    TurnsJoin(a + "\"", a + "\"", " ", "", false, false, false);
    QuoteTurns(false, true);
    TurnsJoin(a + "\"" + " ", a + "\"" + "", "\"", "\"", false, false, true);
    BracketTurns(true);
    TurnsJoin(a + "\"" + " " + "\"", a + "\"" + "" + "\"", "]", "]", false, true, true);
    var r, k := a + "\"" + " " + "\"" + "]", a + "\"" + "" + "\"" + "]";
    assert r + "" == a + ['\"', ' ', '\"', ']'] && k + "" == a + ['\"', '\"', ']'];
    assert TurnsAt(r, k, false, true, "");
  }
}
