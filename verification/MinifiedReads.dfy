/** When a minified print still parses to the tree that was printed. */
module MinifiedReads {
  import opened CText
  import opened Json
  import opened Options
  import opened Equality
  import opened Rendering
  import opened Unescaping
  import opened Scanning
  import opened Parsing
  import opened ParsePrinted
  import opened Minifying
  import opened MinifyPrinted
  import opened QuotesFlipped

  // The state behind a value

  /** The state in which the minifier leaves a value that it enters in a state; none when a string or key on the
      way loses something. */
  function ValueMode(v: Value, quoted: bool): Option<bool>
    decreases v
  {
    match v
    case String(s) => StringMode(s, quoted)
    case Array(items) => ItemsMode(items, quoted)
    case Object(ms) => MembersMode(ms, quoted)
    case _ => Some(quoted)
  }

  function ItemsMode(items: seq<Value>, quoted: bool): Option<bool>
    decreases items
  {
    if items == [] then Some(quoted)
    else
      match ValueMode(items[0], quoted)
      case None => None
      case Some(next) => ItemsMode(items[1..], next)
  }

  function MemberMode(e: Entry<Value>, quoted: bool): Option<bool>
    decreases e
  {
    match StringMode(e.key, quoted)
    case None => None
    case Some(next) => ValueMode(e.value, next)
  }

  function MembersMode(ms: seq<Entry<Value>>, quoted: bool): Option<bool>
    decreases ms
  {
    if ms == [] then Some(quoted)
    else
      match MemberMode(ms[0], quoted)
      case None => None
      case Some(next) => MembersMode(ms[1..], next)
  }

  // Printed text is tidy

  lemma {:induction false} NumberIsTidy(n: int)
    ensures Tidy(IntText(n))
  {
    IntTextVerbatim(n);
    IntTextNumberChars(n);
    PlainIsTidy(IntText(n));
  }

  lemma {:induction false} StringIsTidy(s: string)
    ensures Tidy(RenderString(s))
  {
    EscapeIsTidy(s);
    PlainIsTidy("\"");
    TidyJoin("\"", Escape(s));
    TidyJoin("\"" + Escape(s), "\"");
  }

  lemma {:induction false} TabsAreTidy(n: nat)
    ensures Tidy(Tabs(n))
  {
    if n > 0 { TabsAreTidy(n - 1); }
  }

  lemma {:induction false} ValueIsTidy(v: Value, depth: nat)
    ensures Tidy(Render(v, true, depth))
    decreases v, 1
  {
    match v
    case Number(n) => NumberIsTidy(n);
    case String(s) => StringIsTidy(s);
    case Array(items) =>
      ItemsAreTidy(items, depth + 1);
      PlainIsTidy("[");
      PlainIsTidy("]");
      TidyJoin("[", RenderItems(items, true, depth + 1));
      TidyJoin("[" + RenderItems(items, true, depth + 1), "]");
    case Object(ms) =>
      MembersAreTidy(ms, depth + 1);
      TabsAreTidy(depth);
      PlainIsTidy("{\n");
      PlainIsTidy("}");
      TidyJoin(Tabs(depth), "}");
      TidyJoin("{\n", RenderMembers(ms, true, depth + 1));
      TidyJoin("{\n" + RenderMembers(ms, true, depth + 1), Tabs(depth) + "}");
    case _ => PlainIsTidy(Render(v, true, depth));
  }

  lemma {:induction false} ItemsAreTidy(items: seq<Value>, depth: nat)
    ensures Tidy(RenderItems(items, true, depth))
    decreases items, 0
  {
    if items != [] {
      var a, s := Render(items[0], true, depth), ItemSeparator(|items| > 1, true);
      ValueIsTidy(items[0], depth);
      PlainIsTidy(s);
      TidyJoin(a, s);
      ItemsAreTidy(items[1..], depth);
      TidyJoin(a + s, RenderItems(items[1..], true, depth));
    }
  }

  lemma {:induction false} MemberIsTidy(e: Entry<Value>, depth: nat)
    ensures Tidy(MemberText(e, true, depth))
    decreases e, 2
  {
    var k := RenderString(e.key);
    TabsAreTidy(depth);
    StringIsTidy(e.key);
    PlainIsTidy(":\t");
    TidyJoin(Tabs(depth), k);
    TidyJoin(Tabs(depth) + k, ":\t");
    ValueIsTidy(e.value, depth);
    TidyJoin(MemberStart(e.key, true, depth), Render(e.value, true, depth));
  }

  lemma {:induction false} MembersAreTidy(ms: seq<Entry<Value>>, depth: nat)
    ensures Tidy(RenderMembers(ms, true, depth))
    decreases ms, 0
  {
    if ms != [] {
      var a, s := MemberText(ms[0], true, depth), MemberEnd(|ms| > 1, true);
      MemberIsTidy(ms[0], depth);
      PlainIsTidy(s);
      TidyJoin(a, s);
      MembersAreTidy(ms[1..], depth);
      TidyJoin(a + s, RenderMembers(ms[1..], true, depth));
    }
  }

  // What follows a value

  predicate EndsNumberAt(rest: string, quoted: bool) {
    !NumberChar((Kept(rest, quoted) + [NUL])[0])
  }

  /** What is left of the text behind a value does not start with a character that could belong to a number. */
  predicate EndsNumber(rest: string) {
    EndsNumberAt(rest, true) && EndsNumberAt(rest, false)
  }

  /** A sign that is kept ends a number. */
  lemma SignEndsNumber(sign: char, rest: string)
    requires Verbatim(sign) && sign != '\\' && !NumberChar(sign)
    ensures EndsNumber([sign] + rest)
  {
    VerbatimTurns(sign);
    QuotedTurns(sign);
    assert TurnsAt([sign], [sign], false, false, rest) && TurnsAt([sign], [sign], true, true, rest);
  }

  /** Blanks of the layout: dropped outside, kept inside. */
  predicate Layout(w: string) {
    forall i :: 0 <= i < |w| ==> Whitespace(w[i])
  }

  function KeptLayout(w: string, quoted: bool): string {
    if quoted then w else []
  }

  lemma {:induction false} LayoutTurns(w: string, quoted: bool)
    requires Layout(w)
    ensures Turns(w, KeptLayout(w, quoted), quoted, quoted)
  {
    if quoted {
      PlainTextTurns(w);
    } else if w == [] {
      TurnsNothing(false);
    } else {
      BlankTurns(w[0]);
      LayoutTurns(w[1..], false);
      TurnsJoin([w[0]], "", w[1..], "", false, false, false);
      assert w == [w[0]] + w[1..] && KeptLayout(w, false) == "" + "";
    }
  }

  lemma BlankEndsNumber(blank: char, rest: string)
    requires Whitespace(blank) && EndsNumber(rest)
    ensures EndsNumber([blank] + rest)
  {
    QuotedTurns(blank);
    BlankTurns(blank);
    assert TurnsAt([blank], [blank], true, true, rest) && TurnsAt([blank], "", false, false, rest);
    assert "" + Kept(rest, false) == Kept(rest, false);
  }

  lemma {:induction false} LayoutEndsNumber(w: string, rest: string)
    requires Layout(w) && EndsNumber(rest)
    ensures EndsNumber(w + rest)
  {
    if w == [] {
      assert w + rest == rest;
    } else {
      LayoutEndsNumber(w[1..], rest);
      BlankEndsNumber(w[0], w[1..] + rest);
      assert [w[0]] + (w[1..] + rest) == w + rest;
    }
  }

  /** The parser steps over the layout, kept or not. */
  lemma {:induction false} StepOver(c: string, from: nat, w: string, rest: string, quoted: bool) returns (p: nat)
    requires Stands(c, from, Kept(w + rest, quoted)) && Layout(w)
    ensures p == from + |KeptLayout(w, quoted)| < |c| && Stands(c, p, Kept(rest, quoted)) && BlanksTo(c, from, p)
  {
    p := from + |KeptLayout(w, quoted)|;
    LayoutTurns(w, quoted);
    assert TurnsAt(w, KeptLayout(w, quoted), quoted, quoted, rest);
    StandsBehind(c, from, KeptLayout(w, quoted), Kept(rest, quoted));
    BlankText(c, from, KeptLayout(w, quoted), 0);
  }

  // Scalars

  /** A text that is kept as it is stands in the buffer, and what is left of the rest behind it. */
  lemma {:induction false} KeptStands(c: string, p: nat, t: string, rest: string, quoted: bool, next: bool)
    requires Stands(c, p, Kept(t + rest, quoted)) && Turns(t, t, quoted, next)
    ensures TextAt(c, p, t) && Stands(c, p + |t|, Kept(rest, next)) && p + |t| < |c|
    ensures c[p + |t|] == (Kept(rest, next) + [NUL])[0]
  {
    assert TurnsAt(t, t, quoted, next, rest);
    StandsBehind(c, p, t, Kept(rest, next));
    assert c[p + |t|] == c[p + |t|..][0];
  }

  /** The result of a parse is something else than v. */
  ghost predicate Misses(r: Parsed<Value>, v: Value) {
    r.Parsed? ==> r.value != v
  }

  ghost predicate ItemsMiss(r: Parsed<seq<Value>>, items: seq<Value>) {
    r.Parsed? ==> r.value != items
  }

  predicate MisreadAt(b: Input, s: string, rest: string, p: nat) {
    NulFree(s) && OutsideMode(s).None? && Tidy(rest) && Stands(b.c, p, Kept(RenderString(s) + rest, true)) ==>
      && p < |b.c| && b.c[p] == '\"'
      && (b.quoted(p).Parsed? ==> b.quoted(p).value != s)
      && (b.scalar(p).Parsed? ==> b.scalar(p).value != String(s))
  }

  /** A buffer that is read as the C program does: what is printed is read back, and strings that lost something
      are not. */
  ghost predicate Reader(b: Input) {
    && Faithful(b) && b.length == |b.c|
    && forall s: string, rest: string, p: nat {:trigger MisreadAt(b, s, rest, p)} :: MisreadAt(b, s, rest, p)
  }

  lemma InputIsReader(c: string)
    requires Readable(c, |c|)
    ensures Reader(InputOf(c, |c|))
  {
    var b := InputOf(c, |c|);
    InputIsFaithful(c, |c|);
    forall s: string, rest: string, p: nat ensures MisreadAt(b, s, rest, p) { MisreadInput(c, s, rest, p); }
  }

  lemma {:induction false} MisreadInput(c: string, s: string, rest: string, p: nat)
    requires Readable(c, |c|)
    ensures MisreadAt(InputOf(c, |c|), s, rest, p)
  {
    if NulFree(s) && OutsideMode(s).None? && Tidy(rest) && Stands(c, p, Kept(RenderString(s) + rest, true)) {
      StringIsMisread(c, p, s, rest);
      OtherValuesAreNoLiterals(c, |c|, p);
    }
  }

  lemma {:induction false} ScalarTurns(v: Value, depth: nat, quoted: bool)
    requires Clean(v) && !v.Array? && !v.Object? && ValueMode(v, quoted).Some?
    ensures Turns(Render(v, true, depth), Render(v, true, depth), quoted, ValueMode(v, quoted).value)
  {
    match v
    case String(s) => KeptStringTurns(s, quoted);
    case Number(n) => WordTurns(IntText(n), quoted) by { IntTextVerbatim(n); IntTextNumberChars(n); }
    case _ => WordTurns(Render(v, true, depth), quoted);
  }

  lemma WordTurns(t: string, quoted: bool)
    requires forall i :: 0 <= i < |t| ==> Verbatim(t[i]) && t[i] != '\\'
    ensures Turns(t, t, quoted, quoted)
  {
    if quoted { PlainTextTurns(t); } else { AllVerbatimTurns(t); }
  }

  lemma {:induction false} ScalarIsRead(
      b: Input, v: Value, depth: nat, quoted: bool, rest: string, p: nat, nesting: nat)
    requires Clean(v) && !v.Array? && !v.Object? && ValueMode(v, quoted).Some?
    requires Stands(b.c, p, Kept(Render(v, true, depth) + rest, quoted)) && EndsNumber(rest) && Reader(b)
    ensures var end := p + |Render(v, true, depth)|;
      && p < end < b.length && ParseValue(b, p, nesting) == Parsed(v, end)
      && Stands(b.c, end, Kept(rest, ValueMode(v, quoted).value))
  {
    var t, next := Render(v, true, depth), ValueMode(v, quoted).value;
    ScalarTurns(v, depth, quoted);
    KeptStands(b.c, p, t, rest, quoted, next);
    assert EndsNumberAt(rest, next);
    RenderStarts(v, true, depth);
    assert ScalarReadsAt(b, p, p + |t|, v, true, depth);
  }

  lemma {:induction false} StringValueIsMisread(
      b: Input, s: string, depth: nat, rest: string, p: nat, nesting: nat)
    requires NulFree(s) && OutsideMode(s).None? && Tidy(rest) && Reader(b)
    requires Stands(b.c, p, Kept(RenderString(s) + rest, true))
    ensures p < b.length && Misses(ParseValue(b, p, nesting), String(s))
  {
    assert MisreadAt(b, s, rest, p);
  }

  // Values: what is kept is read, and what lost something is not

  /** What a parse comes to: it hits the value and goes on with the rest of the text, or it misses. */
  ghost predicate Outcome(c: string, hit: bool, miss: bool, mode: Option<bool>, end: nat, rest: string) {
    match mode
    case None => miss
    case Some(next) => hit && end < |c| && Stands(c, end, Kept(rest, next))
  }

  lemma {:induction false} ValueOutcome(
      b: Input, v: Value, depth: nat, quoted: bool, rest: string, p: nat, nesting: nat) returns (end: nat)
    requires Reader(b) && Clean(v) && nesting + Height(v) <= NESTING_LIMIT && EndsNumber(rest) && Tidy(rest)
    requires Stands(b.c, p, Kept(Render(v, true, depth) + rest, quoted))
    ensures p < b.length
    ensures var r := ParseValue(b, p, nesting);
      Outcome(b.c, r == Parsed(v, end), Misses(r, v), ValueMode(v, quoted), end, rest)
    ensures ValueMode(v, quoted).Some? ==> p < end
    ensures StartChar(v, b.c[p])
    decreases v, 1
  {
    end := p + |Render(v, true, depth)|;
    match v
    case Array(items) =>
      end := ArrayOutcome(b, items, depth, quoted, rest, p, nesting);
    case Object(ms) =>
      end := ObjectOutcome(b, ms, depth, quoted, rest, p, nesting);
    case String(s) =>
      if StringMode(s, quoted).Some? {
        ScalarIsRead(b, v, depth, quoted, rest, p, nesting);
        ScalarStart(b.c, v, depth, quoted, rest, p);
      } else {
        StringValueIsMisread(b, s, depth, rest, p, nesting);
      }
    case _ =>
      ScalarIsRead(b, v, depth, quoted, rest, p, nesting);
      ScalarStart(b.c, v, depth, quoted, rest, p);
  }

  lemma {:induction false} ScalarStart(c: string, v: Value, depth: nat, quoted: bool, rest: string, p: nat)
    requires Clean(v) && !v.Array? && !v.Object? && ValueMode(v, quoted).Some?
    requires Stands(c, p, Kept(Render(v, true, depth) + rest, quoted))
    ensures p < |c| && StartChar(v, c[p])
  {
    ScalarTurns(v, depth, quoted);
    KeptStands(c, p, Render(v, true, depth), rest, quoted, ValueMode(v, quoted).value);
    StartOf(c, p, v, true, depth);
  }

  lemma {:induction false} SignStands(c: string, p: nat, sign: char, rest: string, quoted: bool)
    requires Stands(c, p, Kept([sign] + rest, quoted)) && Verbatim(sign) && sign != '\\'
    ensures p + 1 < |c| && c[p] == sign && Stands(c, p + 1, Kept(rest, quoted))
  {
    WordTurns([sign], quoted);
    KeptStands(c, p, [sign], rest, quoted, quoted);
    TextAtIndex(c, p, [sign], 0);
  }

  lemma {:induction false} BehindSign(c: string, p: nat, sign: char, rest: string, quoted: bool) returns (q: nat)
    requires Stands(c, p, Kept([sign] + rest, quoted)) && Verbatim(sign) && sign != '\\'
    ensures q == p + 1 < |c| && c[p] == sign && Stands(c, q, Kept(rest, quoted))
  {
    SignStands(c, p, sign, rest, quoted);
    q := p + 1;
  }

  lemma {:induction false} ArrayOutcome(
      b: Input, items: seq<Value>, depth: nat, quoted: bool, rest: string, p: nat, nesting: nat) returns (end: nat)
    requires Reader(b) && CleanItems(items) && nesting + 1 + ItemsHeight(items) <= NESTING_LIMIT
    requires EndsNumber(rest) && Tidy(rest)
    requires Stands(b.c, p, Kept(Render(Array(items), true, depth) + rest, quoted))
    ensures p < b.length && b.c[p] == '['
    ensures var r := ParseValue(b, p, nesting);
      Outcome(b.c, r == Parsed(Array(items), end), Misses(r, Array(items)), ItemsMode(items, quoted), end, rest)
    ensures ItemsMode(items, quoted).Some? ==> p < end
    decreases items, 4
  {
    BracketStands(b.c, p, RenderItems(items, true, depth + 1), rest, quoted);
    if items == [] {
      EmptyArray(b, p, quoted, rest, nesting);
      end := p + 2;
    } else {
      end := FullArray(b, items, depth + 1, quoted, rest, p, nesting);
    }
  }

  lemma {:induction false} BracketStands(c: string, p: nat, list: string, rest: string, quoted: bool)
    requires Stands(c, p, Kept("[" + list + "]" + rest, quoted))
    ensures p + 1 < |c| && c[p] == '[' && Stands(c, p + 1, Kept(list + ("]" + rest), quoted))
    ensures list == [] ==> Stands(c, p + 1, Kept([']'] + rest, quoted))
  {
    assert "[" + list + "]" + rest == ['['] + (list + ("]" + rest));
    SignStands(c, p, '[', list + ("]" + rest), quoted);
    assert list == [] ==> list + ("]" + rest) == [']'] + rest;
  }

  lemma {:induction false} FullArray(
      b: Input, items: seq<Value>, depth: nat, quoted: bool, rest: string, p: nat, nesting: nat) returns (end: nat)
    requires ElementsGiven(b, items, depth, quoted, rest, p + 1, p + 1, nesting + 1)
    requires nesting < NESTING_LIMIT && p + 1 < b.length && b.c[p] == '['
    ensures var r := ParseValue(b, p, nesting);
      Outcome(b.c, r == Parsed(Array(items), end), Misses(r, Array(items)), ItemsMode(items, quoted), end, rest)
    ensures ItemsMode(items, quoted).Some? ==> p < end
    decreases items, 3
  {
    end := ElementsOutcome(b, items, depth, quoted, rest, p + 1, p + 1, nesting + 1);
    SkipTo(b.c, b.length, p + 1, p + 1);
    ArrayFromElements(b, items, p, nesting);
  }

  lemma {:induction false} EmptyArray(b: Input, p: nat, quoted: bool, rest: string, nesting: nat)
    requires Reader(b) && nesting < NESTING_LIMIT && p + 1 < b.length && b.c[p] == '['
    requires Stands(b.c, p + 1, Kept([']'] + rest, quoted))
    ensures ParseValue(b, p, nesting) == Parsed(Array([]), p + 2)
    ensures p + 2 < b.length && Stands(b.c, p + 2, Kept(rest, quoted))
  {
    SignStands(b.c, p + 1, ']', rest, quoted);
    SkipTo(b.c, b.length, p + 1, p + 1);
  }

  lemma {:induction false} ArrayFromElements(b: Input, items: seq<Value>, p: nat, nesting: nat)
    requires Sound(b) && nesting < NESTING_LIMIT && p + 1 < b.length && b.c[p] == '[' && items != []
    requires Skip(b, p + 1) == p + 1 && b.c[p + 1] != ']'
    ensures var r := ParseElements(b, p + 1, nesting + 1);
      ParseValue(b, p, nesting) == if r.Parsed? then Parsed(Array(r.value), r.offset) else Failed
  {
  }

  // Elements

  lemma {:induction false} FirstElementMissed(b: Input, from: nat, p: nat, items: seq<Value>, nesting: nat)
    requires Sound(b) && from <= b.length && p <= b.length && Skip(b, from) == p && items != []
    requires Misses(ParseValue(b, p, nesting), items[0])
    ensures ItemsMiss(ParseElements(b, from, nesting), items)
  {
  }

  lemma {:induction false} OtherElementsMissed(
      b: Input, from: nat, p: nat, end: nat, items: seq<Value>, nesting: nat)
    requires Sound(b) && from <= b.length && p < end < b.length && Skip(b, from) == p && |items| > 1
    requires ParseValue(b, p, nesting) == Parsed(items[0], end) && b.c[end] == ','
    requires ItemsMiss(ParseElements(b, end + 1, nesting), items[1..])
    ensures ItemsMiss(ParseElements(b, from, nesting), items)
  {
    SkipTo(b.c, b.length, end, end);
    var rest := ParseElements(b, end + 1, nesting);
    if rest.Parsed? { assert ([items[0]] + rest.value)[1..] == rest.value; }
  }

  ghost predicate ElementsGiven(b: Input, items: seq<Value>, depth: nat, quoted: bool, rest: string,
                                from: nat, p: nat, nesting: nat) {
    && Reader(b) && CleanItems(items) && nesting + ItemsHeight(items) <= NESTING_LIMIT && items != []
    && EndsNumber(rest) && Tidy(rest) && BlanksTo(b.c, from, p)
    && Stands(b.c, p, Kept(RenderItems(items, true, depth) + ("]" + rest), quoted))
  }

  /** The elements from the one at p on, which is reached from `from` over blanks. */
  lemma {:induction false} ElementsOutcome(
      b: Input, items: seq<Value>, depth: nat, quoted: bool, rest: string, from: nat, p: nat, nesting: nat)
      returns (end: nat)
    requires ElementsGiven(b, items, depth, quoted, rest, from, p, nesting)
    ensures p < b.length && b.c[p] > ' ' && b.c[p] != ']'
    ensures var r := ParseElements(b, from, nesting);
      Outcome(b.c, r == Parsed(items, end), ItemsMiss(r, items), ItemsMode(items, quoted), end, rest)
    ensures ItemsMode(items, quoted).Some? ==> p < end
    decreases items, 2
  {
    var stop, after := FirstElement(b, items, depth, quoted, rest, from, p, nesting);
    var mode := ValueMode(items[0], quoted);
    ItemsModeStep(items, quoted);
    end := ElementsGoOn(b, items, depth, mode, rest, from, p, stop, after, nesting);
  }

  function AfterElement(items: seq<Value>, depth: nat, rest: string): string
    requires items != []
  {
    ItemSeparator(|items| > 1, true) + (RenderItems(items[1..], true, depth) + ("]" + rest))
  }

  lemma {:induction false} FirstElement(
      b: Input, items: seq<Value>, depth: nat, quoted: bool, rest: string, from: nat, p: nat, nesting: nat)
      returns (stop: nat, after: string)
    requires ElementsGiven(b, items, depth, quoted, rest, from, p, nesting)
    ensures p < b.length && b.c[p] > ' ' && b.c[p] != ']' && from <= p && Skip(b, from) == p
    ensures after == AfterElement(items, depth, rest)
    ensures var r := ParseValue(b, p, nesting);
      Outcome(b.c, r == Parsed(items[0], stop), Misses(r, items[0]), ValueMode(items[0], quoted), stop, after)
    ensures ValueMode(items[0], quoted).Some? ==> p < stop
    decreases items, 1
  {
    after := AfterElement(items, depth, rest);
    FirstText(items, depth, rest, after);
    stop := ValueOutcome(b, items[0], depth, quoted, after, p, nesting);
    SkipTo(b.c, b.length, from, p);
  }

  lemma {:induction false} FirstText(items: seq<Value>, depth: nat, rest: string, after: string)
    requires items != [] && Tidy(rest) && after == AfterElement(items, depth, rest)
    ensures RenderItems(items, true, depth) + ("]" + rest) == Render(items[0], true, depth) + after
    ensures EndsNumber(after) && Tidy(after)
  {
    ItemsAreTidy(items[1..], depth);
    BehindElement(|items| > 1, RenderItems(items[1..], true, depth), rest, after);
  }

  /** What the list comes to once its first element has. */
  lemma {:induction false} ElementsGoOn(
      b: Input, items: seq<Value>, depth: nat, mode: Option<bool>, rest: string, from: nat, p: nat, stop: nat,
      after: string, nesting: nat) returns (end: nat)
    requires Reader(b) && CleanItems(items) && nesting + ItemsHeight(items) <= NESTING_LIMIT && items != []
    requires EndsNumber(rest) && Tidy(rest) && from <= p < b.length && Skip(b, from) == p
    requires after == AfterElement(items, depth, rest) && (mode.Some? ==> p < stop)
    requires var r := ParseValue(b, p, nesting);
      Outcome(b.c, r == Parsed(items[0], stop), Misses(r, items[0]), mode, stop, after)
    ensures var r := ParseElements(b, from, nesting);
      var all := if mode.Some? then ItemsMode(items[1..], mode.value) else None;
      Outcome(b.c, r == Parsed(items, end), ItemsMiss(r, items), all, end, rest) && (all.Some? ==> p < end)
    decreases items, 1
  {
    end := stop;
    if mode.None? {
      FirstElementMissed(b, from, p, items, nesting);
    } else if |items| == 1 {
      assert items[1..] == [] && after == [']'] + rest;
      end := LastElementOutcome(b, items, mode.value, rest, from, p, stop, nesting);
    } else {
      end := MoreElements(b, items, depth, mode.value, rest, from, p, stop, nesting);
    }
  }

  lemma {:induction false} ItemsModeStep(items: seq<Value>, quoted: bool)
    requires items != []
    ensures var mode := ValueMode(items[0], quoted);
      && (mode.None? ==> ItemsMode(items, quoted) == None)
      && (mode.Some? ==> ItemsMode(items, quoted) == ItemsMode(items[1..], mode.value))
      && (mode.Some? && |items| == 1 ==> ItemsMode(items, quoted) == mode)
  {
    if |items| == 1 { assert items[1..] == []; }
  }

  lemma {:induction false} LastElementOutcome(
      b: Input, items: seq<Value>, next: bool, rest: string, from: nat, p: nat, stop: nat, nesting: nat)
      returns (end: nat)
    requires Reader(b) && |items| == 1 && from <= p < stop < b.length && Skip(b, from) == p
    requires ParseValue(b, p, nesting) == Parsed(items[0], stop)
    requires Stands(b.c, stop, Kept([']'] + rest, next))
    ensures var r := ParseElements(b, from, nesting);
      Outcome(b.c, r == Parsed(items, end), ItemsMiss(r, items), Some(next), end, rest)
    ensures p < end
  {
    SignStands(b.c, stop, ']', rest, next);
    LastElement(b, from, p, stop, items, nesting);
    end := stop + 1;
  }

  lemma {:induction false} BehindComma(c: string, stop: nat, others: string, next: bool) returns (q: nat)
    requires Stands(c, stop, Kept(", " + others, next))
    ensures stop + 1 <= q < |c| && c[stop] == ',' && Stands(c, q, Kept(others, next)) && BlanksTo(c, stop + 1, q)
  {
    assert ", " + others == [','] + ([' '] + others);
    SignStands(c, stop, ',', [' '] + others, next);
    q := StepOver(c, stop + 1, [' '], others, next);
  }

  lemma {:induction false} MoreElements(
      b: Input, items: seq<Value>, depth: nat, next: bool, rest: string, from: nat, p: nat, stop: nat, nesting: nat)
      returns (end: nat)
    requires Reader(b) && CleanItems(items) && nesting + ItemsHeight(items) <= NESTING_LIMIT && |items| > 1
    requires EndsNumber(rest) && Tidy(rest) && from <= p < stop < b.length && Skip(b, from) == p
    requires ParseValue(b, p, nesting) == Parsed(items[0], stop)
    requires Stands(b.c, stop, Kept(AfterElement(items, depth, rest), next))
    ensures var r := ParseElements(b, from, nesting);
      Outcome(b.c, r == Parsed(items, end), ItemsMiss(r, items), ItemsMode(items[1..], next), end, rest)
    ensures ItemsMode(items[1..], next).Some? ==> p < end
    decreases items, 0
  {
    var others := RenderItems(items[1..], true, depth) + ("]" + rest);
    assert AfterElement(items, depth, rest) == ", " + others;
    var q := BehindComma(b.c, stop, others, next);
    end := ElementsOutcome(b, items[1..], depth, next, rest, stop + 1, q, nesting);
    if ItemsMode(items[1..], next).Some? {
      OneMoreElement(b, from, p, stop, items, nesting, end);
    } else {
      OtherElementsMissed(b, from, p, stop, items, nesting);
    }
  }

  lemma {:induction false} BehindElement(more: bool, others: string, rest: string, after: string)
    requires Tidy(rest) && Tidy(others) && (!more ==> others == [])
    requires after == ItemSeparator(more, true) + (others + ("]" + rest))
    ensures EndsNumber(after) && Tidy(after)
  {
    TidyBehind("]", rest);
    if more {
      var tail := others + ("]" + rest);
      TidyJoin(others, "]" + rest);
      TidyBehind(", ", tail);
      CommaEndsNumber([' '] + tail);
      assert after == [','] + ([' '] + tail) && after == ", " + tail;
    } else {
      BracketEndsNumber(rest);
      assert after == [']'] + rest && after == "]" + rest;
    }
  }

  lemma {:induction false} TidyBehind(a: string, rest: string)
    requires Tidy(rest) && forall i :: 0 <= i < |a| ==> a[i] != '\\'
    ensures Tidy(a + rest)
  {
    PlainIsTidy(a);
    TidyJoin(a, rest);
  }

  lemma CommaEndsNumber(rest: string)
    ensures EndsNumber([','] + rest)
  {
    assert !NumberChar(',');
    SignEndsNumber(',', rest);
  }

  lemma BracketEndsNumber(rest: string)
    ensures EndsNumber([']'] + rest) && EndsNumber(['}'] + rest)
  {
    assert !NumberChar(']') && !NumberChar('}');
    SignEndsNumber(']', rest);
    SignEndsNumber('}', rest);
  }

  // Members

  ghost predicate MemberMisses(r: Parsed<Entry<Value>>, e: Entry<Value>) {
    r.Parsed? ==> r.value != e
  }

  ghost predicate MembersMiss(r: Parsed<seq<Entry<Value>>>, ms: seq<Entry<Value>>) {
    r.Parsed? ==> r.value != ms
  }

  ghost predicate KeyMisses(r: Parsed<string>, key: string) {
    r.Parsed? ==> r.value != key
  }

  lemma {:induction false} KeyOutcome(b: Input, key: string, quoted: bool, rest: string, p: nat)
      returns (end: nat)
    requires Reader(b) && NulFree(key) && Tidy(rest)
    requires Stands(b.c, p, Kept(RenderString(key) + rest, quoted))
    ensures p < b.length && b.c[p] == '\"'
    ensures var r := b.quoted(p);
      Outcome(b.c, r == Parsed(key, end), KeyMisses(r, key), StringMode(key, quoted), end, rest)
    ensures StringMode(key, quoted).Some? ==> p < end
  {
    end := p + |RenderString(key)|;
    if StringMode(key, quoted).Some? {
      KeptStringTurns(key, quoted);
      KeptStands(b.c, p, RenderString(key), rest, quoted, StringMode(key, quoted).value);
      TextAtIndex(b.c, p, RenderString(key), 0);
      assert KeyReads(b, key, RenderString(key));
      assert KeyReadsAt(b, key, RenderString(key), p, end);
    } else {
      assert MisreadAt(b, key, rest, p);
    }
  }

  /** From behind the key to the value. */
  lemma {:induction false} BehindKey(c: string, colon: nat, text: string, quoted: bool) returns (at: nat)
    requires Stands(c, colon, Kept(":\t" + text, quoted))
    ensures colon + 1 <= at < |c| && c[colon] == ':' && BlanksTo(c, colon + 1, at)
    ensures Stands(c, at, Kept(text, quoted))
  {
    assert ":\t" + text == [':'] + (['\t'] + text);
    SignStands(c, colon, ':', ['\t'] + text, quoted);
    at := StepOver(c, colon + 1, ['\t'], text, quoted);
  }

  lemma {:induction false} KeyIsMissed(b: Input, from: nat, p: nat, e: Entry<Value>, nesting: nat)
    requires Sound(b) && from <= b.length && Skip(b, from) == p && KeyMisses(b.quoted(p), e.key)
    ensures MemberMisses(ParseMember(b, from, nesting), e)
  {
  }

  /** What the parse of a member comes to once its key is read. */
  lemma {:induction false} ValueDecides(
      b: Input, from: nat, p: nat, colon: nat, at: nat, e: Entry<Value>, nesting: nat)
    requires Sound(b) && from <= b.length && Skip(b, from) == p && b.quoted(p) == Parsed(e.key, colon)
    requires colon < at < b.length && b.c[colon] == ':' && Skip(b, colon + 1) == at
    ensures var v := ParseValue(b, at, nesting);
      ParseMember(b, from, nesting) == if v.Parsed? then Parsed(Entry(e.key, v.value), v.offset) else Failed
  {
    SkipTo(b.c, b.length, colon, colon);
  }

  /** A member behind blanks. */
  lemma {:induction false} MemberOutcome(
      b: Input, lead: string, e: Entry<Value>, depth: nat, quoted: bool, rest: string, from: nat, nesting: nat)
      returns (end: nat, q: nat)
    requires Reader(b) && NulFree(e.key) && Clean(e.value) && nesting + Height(e.value) <= NESTING_LIMIT
    requires EndsNumber(rest) && Tidy(rest) && Layout(lead)
    requires var text := RenderString(e.key) + (":\t" + (Render(e.value, true, depth) + rest));
      Stands(b.c, from, Kept((lead + Tabs(depth)) + text, quoted))
    ensures from <= q < b.length && Skip(b, from) == q && b.c[q] == '\"'
    ensures var r := ParseMember(b, from, nesting);
      Outcome(b.c, r == Parsed(e, end), MemberMisses(r, e), MemberMode(e, quoted), end, rest)
    ensures MemberMode(e, quoted).Some? ==> q < end
    decreases e, 2
  {
    var text := Render(e.value, true, depth) + rest;
    TabsAreLayout(depth);
    q := StepOver(b.c, from, lead + Tabs(depth), RenderString(e.key) + (":\t" + text), quoted);
    ValueIsTidy(e.value, depth);
    TidyJoin(Render(e.value, true, depth), rest);
    TidyBehind(":\t", text);
    var colon := KeyOutcome(b, e.key, quoted, ":\t" + text, q);
    SkipTo(b.c, b.length, from, q);
    end := colon;
    if StringMode(e.key, quoted).None? {
      KeyIsMissed(b, from, q, e, nesting);
    } else {
      end := ValueOfMember(b, e, depth, StringMode(e.key, quoted).value, rest, from, q, colon, nesting);
    }
  }

  lemma {:induction false} ValueOfMember(b: Input, e: Entry<Value>, depth: nat, next: bool, rest: string,
                                         from: nat, q: nat, colon: nat, nesting: nat) returns (end: nat)
    requires Reader(b) && Clean(e.value) && nesting + Height(e.value) <= NESTING_LIMIT
    requires EndsNumber(rest) && Tidy(rest) && from <= q < colon < b.length && Skip(b, from) == q
    requires b.quoted(q) == Parsed(e.key, colon)
    requires Stands(b.c, colon, Kept(":\t" + (Render(e.value, true, depth) + rest), next))
    ensures var r := ParseMember(b, from, nesting);
      Outcome(b.c, r == Parsed(e, end), MemberMisses(r, e), ValueMode(e.value, next), end, rest)
    ensures ValueMode(e.value, next).Some? ==> q < end
    decreases e, 1
  {
    var at := BehindKey(b.c, colon, Render(e.value, true, depth) + rest, next);
    end := ValueOutcome(b, e.value, depth, next, rest, at, nesting);
    SkipTo(b.c, b.length, colon + 1, at);
    ValueDecides(b, from, q, colon, at, e, nesting);
  }

  lemma {:induction false} TabsAreLayout(n: nat)
    ensures Layout(Tabs(n))
  {
    if n > 0 { TabsAreLayout(n - 1); }
  }

  lemma {:induction false} FirstMemberMissed(b: Input, from: nat, ms: seq<Entry<Value>>, nesting: nat)
    requires Sound(b) && from <= b.length && ms != [] && MemberMisses(ParseMember(b, from, nesting), ms[0])
    ensures MembersMiss(ParseMembers(b, from, nesting), ms)
  {
  }

  lemma {:induction false} OtherMembersMissed(b: Input, from: nat, end: nat, ms: seq<Entry<Value>>, nesting: nat)
    requires Sound(b) && from < end < b.length && |ms| > 1
    requires ParseMember(b, from, nesting) == Parsed(ms[0], end) && b.c[end] == ','
    requires MembersMiss(ParseMembers(b, end + 1, nesting), ms[1..])
    ensures MembersMiss(ParseMembers(b, from, nesting), ms)
  {
    SkipTo(b.c, b.length, end, end);
    var rest := ParseMembers(b, end + 1, nesting);
    if rest.Parsed? { assert ([ms[0]] + rest.value)[1..] == rest.value; }
  }

  lemma {:induction false} MembersModeStep(ms: seq<Entry<Value>>, quoted: bool)
    requires ms != []
    ensures var mode := MemberMode(ms[0], quoted);
      && (mode.None? ==> MembersMode(ms, quoted) == None)
      && (mode.Some? ==> MembersMode(ms, quoted) == MembersMode(ms[1..], mode.value))
      && (mode.Some? && |ms| == 1 ==> MembersMode(ms, quoted) == mode)
  {
    if |ms| == 1 { assert ms[1..] == []; }
  }

  /** What follows a member of an object that closes with `close`. */
  lemma {:induction false} BehindMember(more: bool, others: string, close: string, rest: string, after: string)
    requires Tidy(rest) && Tidy(others) && Tidy(close) && Layout(close) && (!more ==> others == [])
    requires after == MemberEnd(more, true) + (others + (close + ("}" + rest)))
    ensures EndsNumber(after) && Tidy(after)
  {
    var tail := close + ("}" + rest);
    TidyBehind("}", rest);
    TidyJoin(close, "}" + rest);
    if more {
      TidyJoin(others, tail);
      BehindMore(others + tail);
      assert after == ",\n" + (others + tail);
    } else {
      assert others + tail == tail;
      BehindLast(close, rest);
      assert after == "\n" + tail;
    }
  }

  lemma {:induction false} BehindMore(tail: string)
    requires Tidy(tail)
    ensures EndsNumber(",\n" + tail) && Tidy(",\n" + tail)
  {
    TidyBehind(",\n", tail);
    CommaEndsNumber(['\n'] + tail);
    assert ",\n" + tail == [','] + (['\n'] + tail);
  }

  lemma {:induction false} BehindLast(close: string, rest: string)
    requires Tidy(close + ("}" + rest)) && Layout(close)
    ensures EndsNumber("\n" + (close + ("}" + rest))) && Tidy("\n" + (close + ("}" + rest)))
  {
    TidyBehind("\n", close + ("}" + rest));
    BracketEndsNumber(rest);
    assert ['}'] + rest == "}" + rest;
    LayoutEndsNumber(close, "}" + rest);
    BlankEndsNumber('\n', close + ("}" + rest));
    assert ['\n'] + (close + ("}" + rest)) == "\n" + (close + ("}" + rest));
  }

  /** The last brace, behind the layout in front of it. */
  lemma {:induction false} BraceStands(c: string, from: nat, close: string, rest: string, quoted: bool)
      returns (brace: nat)
    requires Stands(c, from, Kept(("\n" + close) + ("}" + rest), quoted)) && Layout(close)
    ensures from <= brace < |c| && c[brace] == '}' && BlanksTo(c, from, brace)
    ensures brace + 1 < |c| && Stands(c, brace + 1, Kept(rest, quoted))
  {
    brace := StepOver(c, from, "\n" + close, "}" + rest, quoted);
    assert "}" + rest == ['}'] + rest;
    SignStands(c, brace, '}', rest, quoted);
  }

  ghost predicate MembersGiven(b: Input, ms: seq<Entry<Value>>, depth: nat, quoted: bool, lead: string,
                               close: string, rest: string, from: nat, nesting: nat) {
    && Reader(b) && CleanMembers(ms) && nesting + MembersHeight(ms) <= NESTING_LIMIT && ms != []
    && EndsNumber(rest) && Tidy(rest) && Layout(lead) && Layout(close) && Tidy(close)
    && Stands(b.c, from, Kept(lead + (RenderMembers(ms, true, depth) + (close + ("}" + rest))), quoted))
  }

  /** The first key stands at q, and the parse of the members comes to what the mode says. */
  ghost predicate MembersComeTo(b: Input, ms: seq<Entry<Value>>, mode: Option<bool>, rest: string,
                                from: nat, q: nat, end: nat, nesting: nat) {
    && Sound(b) && from <= q < b.length == |b.c| && Skip(b, from) == q && b.c[q] == '\"' && (mode.Some? ==> q < end)
    && var r := ParseMembers(b, from, nesting);
       Outcome(b.c, r == Parsed(ms, end), MembersMiss(r, ms), mode, end, rest)
  }

  /** The members, each behind a new line, up to the brace. */
  lemma {:induction false} MembersOutcome(
      b: Input, ms: seq<Entry<Value>>, depth: nat, quoted: bool, lead: string, close: string, rest: string,
      from: nat, nesting: nat) returns (end: nat, q: nat)
    requires MembersGiven(b, ms, depth, quoted, lead, close, rest, from, nesting)
    ensures MembersComeTo(b, ms, MembersMode(ms, quoted), rest, from, q, end, nesting)
    decreases ms, 1
  {
    var e := ms[0];
    var others := RenderMembers(ms[1..], true, depth);
    var after := MemberEnd(|ms| > 1, true) + (others + (close + ("}" + rest)));
    MembersText(ms, depth, lead, close, rest, after);
    MembersAreTidy(ms[1..], depth);
    BehindMember(|ms| > 1, others, close, rest, after);
    var stop;
    stop, q := MemberOutcome(b, lead, e, depth, quoted, after, from, nesting);
    end := stop;
    MembersModeStep(ms, quoted);
    var mode := MemberMode(e, quoted);
    if mode.None? {
      FirstMemberMissed(b, from, ms, nesting);
    } else if |ms| == 1 {
      end := LastMemberOutcome(b, ms, mode.value, close, rest, from, stop, nesting, after);
    } else {
      end := MoreMembers(b, ms, depth, mode.value, close, rest, from, stop, nesting, after);
    }
  }

  lemma {:induction false} MembersText(
      ms: seq<Entry<Value>>, depth: nat, lead: string, close: string, rest: string, after: string)
    requires ms != []
    requires after == MemberEnd(|ms| > 1, true) + (RenderMembers(ms[1..], true, depth) + (close + ("}" + rest)))
    ensures lead + (RenderMembers(ms, true, depth) + (close + ("}" + rest)))
         == (lead + Tabs(depth)) + (RenderString(ms[0].key) + (":\t" + (Render(ms[0].value, true, depth) + after)))
  {
    var t, k, v := Tabs(depth), RenderString(ms[0].key), Render(ms[0].value, true, depth);
    var s, o, z := MemberEnd(|ms| > 1, true), RenderMembers(ms[1..], true, depth), close + ("}" + rest);
    assert RenderMembers(ms, true, depth) == (t + k + ":\t") + v + s + o;
    Pieces(lead, t, k, v, s, o, z);
  }

  lemma {:induction false} Pieces(
      lead: string, t: string, k: string, v: string, s: string, o: string, z: string)
    ensures lead + (((t + k + ":\t") + v + s + o) + z) == (lead + t) + (k + (":\t" + (v + (s + (o + z)))))
  {
  }

  lemma {:induction false} LastMemberOutcome(
      b: Input, ms: seq<Entry<Value>>, next: bool, close: string, rest: string, from: nat, stop: nat, nesting: nat,
      after: string) returns (end: nat)
    requires Reader(b) && |ms| == 1 && from < stop < b.length && Layout(close)
    requires ParseMember(b, from, nesting) == Parsed(ms[0], stop)
    requires after == MemberEnd(false, true) + ("" + (close + ("}" + rest))) && Stands(b.c, stop, Kept(after, next))
    ensures var r := ParseMembers(b, from, nesting);
      Outcome(b.c, r == Parsed(ms, end), MembersMiss(r, ms), Some(next), end, rest)
    ensures stop < end
  {
    assert after == ("\n" + close) + ("}" + rest);
    var brace := BraceStands(b.c, stop, close, rest, next);
    LastMember(b, from, stop, brace, ms, nesting);
    end := brace + 1;
  }

  lemma {:induction false} MoreMembers(
      b: Input, ms: seq<Entry<Value>>, depth: nat, next: bool, close: string, rest: string, from: nat, stop: nat,
      nesting: nat, after: string) returns (end: nat)
    requires Reader(b) && CleanMembers(ms) && nesting + MembersHeight(ms) <= NESTING_LIMIT && |ms| > 1
    requires EndsNumber(rest) && Tidy(rest) && Layout(close) && Tidy(close) && from < stop < b.length
    requires ParseMember(b, from, nesting) == Parsed(ms[0], stop)
    requires after == MemberEnd(true, true) + (RenderMembers(ms[1..], true, depth) + (close + ("}" + rest)))
    requires Stands(b.c, stop, Kept(after, next))
    ensures var r := ParseMembers(b, from, nesting);
      Outcome(b.c, r == Parsed(ms, end), MembersMiss(r, ms), MembersMode(ms[1..], next), end, rest)
    ensures MembersMode(ms[1..], next).Some? ==> stop < end
    decreases ms, 0
  {
    var others := "\n" + (RenderMembers(ms[1..], true, depth) + (close + ("}" + rest)));
    assert after == [','] + others;
    var comma := BehindSign(b.c, stop, ',', others, next);
    var q;
    end, q := MembersOutcome(b, ms[1..], depth, next, "\n", close, rest, comma, nesting);
    MembersConclude(b, ms, MembersMode(ms[1..], next), rest, from, stop, comma, q, end, nesting);
  }

  lemma {:induction false} MembersConclude(
      b: Input, ms: seq<Entry<Value>>, mode: Option<bool>, rest: string, from: nat, stop: nat, comma: nat, q: nat,
      end: nat, nesting: nat)
    requires Sound(b) && |ms| > 1 && from < stop < b.length && comma == stop + 1 && b.c[stop] == ','
    requires ParseMember(b, from, nesting) == Parsed(ms[0], stop)
    requires MembersComeTo(b, ms[1..], mode, rest, comma, q, end, nesting)
    ensures var r := ParseMembers(b, from, nesting);
      Outcome(b.c, r == Parsed(ms, end), MembersMiss(r, ms), mode, end, rest)
    ensures mode.Some? ==> stop < end
  {
    if mode.Some? {
      OneMoreMember(b, from, stop, ms, nesting, end);
    } else {
      OtherMembersMissed(b, from, stop, ms, nesting);
    }
  }

  // Objects

  lemma {:induction false} ObjectOutcome(
      b: Input, ms: seq<Entry<Value>>, depth: nat, quoted: bool, rest: string, p: nat, nesting: nat)
      returns (end: nat)
    requires Reader(b) && CleanMembers(ms) && nesting + 1 + MembersHeight(ms) <= NESTING_LIMIT
    requires EndsNumber(rest) && Tidy(rest)
    requires Stands(b.c, p, Kept(Render(Object(ms), true, depth) + rest, quoted))
    ensures p < b.length && b.c[p] == '{'
    ensures var r := ParseValue(b, p, nesting);
      Outcome(b.c, r == Parsed(Object(ms), end), Misses(r, Object(ms)), MembersMode(ms, quoted), end, rest)
    ensures MembersMode(ms, quoted).Some? ==> p < end
    decreases ms, 3
  {
    TabsAreLayout(depth);
    TabsAreTidy(depth);
    BraceOpens(b.c, p, RenderMembers(ms, true, depth + 1), Tabs(depth), rest, quoted);
    if ms == [] {
      end := EmptyObject(b, p, quoted, Tabs(depth), rest, nesting);
    } else {
      end := FullObject(b, ms, MembersMode(ms, quoted), depth + 1, quoted, "\n", Tabs(depth), rest, p, nesting);
    }
  }

  lemma {:induction false} BraceOpens(c: string, p: nat, list: string, close: string, rest: string, quoted: bool)
    requires Stands(c, p, Kept((Opening(true) + list + (close + "}")) + rest, quoted))
    ensures p + 1 < |c| && c[p] == '{'
    ensures Stands(c, p + 1, Kept("\n" + (list + (close + ("}" + rest))), quoted))
    ensures list == [] ==> Stands(c, p + 1, Kept(("\n" + close) + ("}" + rest), quoted))
  {
    var text := "\n" + (list + (close + ("}" + rest)));
    assert (Opening(true) + list + (close + "}")) + rest == ['{'] + text;
    SignStands(c, p, '{', text, quoted);
    assert list == [] ==> text == ("\n" + close) + ("}" + rest);
  }

  lemma {:induction false} EmptyObject(b: Input, p: nat, quoted: bool, close: string, rest: string, nesting: nat)
      returns (end: nat)
    requires Reader(b) && nesting < NESTING_LIMIT && p + 1 < b.length && b.c[p] == '{' && Layout(close)
    requires Stands(b.c, p + 1, Kept(("\n" + close) + ("}" + rest), quoted))
    ensures p < end < b.length && ParseValue(b, p, nesting) == Parsed(Object([]), end)
    ensures Stands(b.c, end, Kept(rest, quoted))
  {
    var brace := BraceStands(b.c, p + 1, close, rest, quoted);
    SkipTo(b.c, b.length, p + 1, brace);
    end := brace + 1;
  }

  lemma {:induction false} FullObject(
      b: Input, ms: seq<Entry<Value>>, mode: Option<bool>, depth: nat, quoted: bool, lead: string, close: string,
      rest: string, p: nat, nesting: nat) returns (end: nat)
    requires MembersGiven(b, ms, depth, quoted, lead, close, rest, p + 1, nesting + 1)
    requires nesting < NESTING_LIMIT && p + 1 < b.length && b.c[p] == '{' && mode == MembersMode(ms, quoted)
    ensures var r := ParseValue(b, p, nesting);
      Outcome(b.c, r == Parsed(Object(ms), end), Misses(r, Object(ms)), mode, end, rest)
    ensures mode.Some? ==> p < end
    decreases ms, 2
  {
    var q;
    end, q := MembersOutcome(b, ms, depth, quoted, lead, close, rest, p + 1, nesting + 1);
    ObjectConcludes(b, ms, mode, rest, p, q, end, nesting);
  }

  lemma {:induction false} ObjectConcludes(b: Input, ms: seq<Entry<Value>>, mode: Option<bool>, rest: string,
                                           p: nat, q: nat, end: nat, nesting: nat)
    requires nesting < NESTING_LIMIT && p + 1 < b.length && MembersComeTo(b, ms, mode, rest, p + 1, q, end, nesting + 1)
    requires b.c[p] == '{'
    ensures var r := ParseValue(b, p, nesting);
      Outcome(b.c, r == Parsed(Object(ms), end), Misses(r, Object(ms)), mode, end, rest)
    ensures mode.Some? ==> p < end
  {
    ObjectFromMembers(b, p, q, nesting);
  }

  lemma {:induction false} ObjectFromMembers(b: Input, p: nat, q: nat, nesting: nat)
    requires Sound(b) && nesting < NESTING_LIMIT && p + 1 < b.length && b.c[p] == '{'
    requires Skip(b, p + 1) == q && q < b.length && b.c[q] == '\"'
    ensures var r := ParseMembers(b, p + 1, nesting + 1);
      ParseValue(b, p, nesting) == if r.Parsed? then Parsed(Object(r.value), r.offset) else Failed
  {
    SkipTo(b.c, b.length, q, q);
    assert ParseMember(b, p + 1, nesting + 1) == ParseMember(b, q, nesting + 1);
    assert ParseMembers(b, p + 1, nesting + 1) == ParseMembers(b, q, nesting + 1);
  }

  // The theorem

  /** A minified print parses to the tree that was printed exactly when no string or key loses something: none
      that the minifier reads from outside has a blank or a slash in front of its first quote. */
  lemma {:induction false} MinifiedPrintParses(v: Value, terminated: bool)
    requires Printable(v) && NulFreeTree(v) && Height(v) <= NESTING_LIMIT
    ensures var m := Kept(Render(v, true, 0), false);
      var r := ParseText(m + [NUL], |m| + 1, terminated);
      && (r.Parsed? && r.value == v <==> ValueMode(v, false).Some?)
      && (ValueMode(v, false).Some? ==> r == Parsed(v, |m|))
  {
    var m := Kept(Render(v, true, 0), false);
    PrintableIsClean(v);
    WholeOutcome(m, v);
    if ValueMode(v, false).Some? { OnlyTerminatorLeft(m); }
  }

  lemma NothingEndsNumber()
    ensures EndsNumber("") && Tidy("") && forall q: bool :: Kept("", q) == ""
  {
    assert ("" + [NUL])[0] == NUL && !NumberChar(NUL);
  }

  lemma {:induction false} WholeOutcome(m: string, v: Value)
    requires Clean(v) && Height(v) <= NESTING_LIMIT && m == Kept(Render(v, true, 0), false)
    ensures var c := m + [NUL];
      && SkipBom(c, |c|) == 0 && SkipBlanks(c, |c|, 0) == 0
      && var r := ParseValue(InputOf(c, |c|), 0, 0);
         if ValueMode(v, false).Some? then r == Parsed(v, |m|) else Misses(r, v)
  {
    var c := m + [NUL];
    var b := InputOf(c, |c|);
    InputIsReader(c);
    assert Render(v, true, 0) + "" == Render(v, true, 0) && c[0..] == c;
    NothingEndsNumber();
    var end := ValueOutcome(b, v, 0, false, "", 0, 0);
    SkipTo(c, |c|, 0, 0);
    if ValueMode(v, false).Some? { assert |c[end..]| == 1; }
  }

  /** In particular when nothing but closing brackets follows a string or key that ends in a backslash. */
  lemma {:induction false} ClosedIsRead(v: Value)
    requires Printable(v) && NulFreeTree(v) && Height(v) <= NESTING_LIMIT && ClosedUpToLast(v)
    ensures ValueMode(v, false).Some?
  {
    MinifiedPrint(v);
    ParseUndoesPrint(v, false, true);
    MinifiedPrintParses(v, true);
  }

  /** ["\\", 1] is minified to a text with a blank too many, which parses to it; of ["\\", " "] the blank is lost. */
  lemma {:induction false} BlankBehindBackslash()
    ensures ValueMode(Array([String("\\"), Number(1)]), false) == Some(true)
    ensures ValueMode(Array([String("\\"), String(" ")]), false) == None
  {
    var one, other := [String("\\"), Number(1)], [String("\\"), String(" ")];
    assert one[1..] == [Number(1)] && one[1..][1..] == [] && other[1..] == [String(" ")];
    assert StringMode("\\", false) == Some(true);
    assert ItemsMode(one[1..], true) == ItemsMode([], true);
    assert OutsideMode(" ") == None;
  }
}
