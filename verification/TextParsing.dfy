/** The parser reads every text of the grammar, as the tree that it stands for. */
module TextParsing {
  import opened CText
  import opened Json
  import opened Unescaping
  import opened Scanning
  import opened Parsing
  import opened ParsePrinted
  import opened QuotesFlipped
  import opened StringTexts
  import opened NumberTexts
  import opened JsonTexts

  // What the lexical layer reads

  /** What follows a value does not go on with a number. */
  predicate Breaks(rest: string) {
    rest != [] ==> !NumberChar(rest[0])
  }

  predicate WordAt(b: Input, p: nat, t: Text, rest: string) {
    (&& WellFormed(t) && Parseable(t, 0) && !t.ArrayOf? && !t.ObjectOf?
     && Stands(b.c, p, TextOf(t) + rest) && Breaks(rest)) ==>
      && b.scalar(p) == Parsed(ValueOf(t), p + |TextOf(t)|)
      && p < |b.c| && b.c[p] != '[' && b.c[p] != '{' && b.c[p] != ']' && b.c[p] > ' '
  }

  predicate NameAt(b: Input, p: nat, name: seq<Part>, rest: string) {
    AllFit(name) && Stands(b.c, p, LiteralText(name) + rest) ==>
      && b.quoted(p) == Parsed(UntilNul(PartsMeaning(name)), p + |LiteralText(name)|)
      && p < |b.c| && b.c[p] == '\"'
  }

  ghost predicate Lexer(b: Input) {
    && Sound(b) && b.length == |b.c|
    && (forall p: nat, t: Text, rest: string :: WordAt(b, p, t, rest))
    && (forall p: nat, name: seq<Part>, rest: string :: NameAt(b, p, name, rest))
  }

  lemma {:induction false} NumberStarts(f: NumberForm)
    requires FormFits(f)
    ensures FormText(f) != [] && (FormText(f)[0] == '-' || IsDigit(FormText(f)[0]))
  {
    FormIsNumberChars(f);
  }

  lemma {:induction false} TextStarts(t: Text)
    requires WellFormed(t)
    ensures TextOf(t) != []
    ensures var x := TextOf(t)[0];
      && x > ' ' && x != ']' && x != '}'
      && (t.NullText? ==> x == 'n') && (t.FalseText? ==> x == 'f') && (t.TrueText? ==> x == 't')
      && (t.NumberOf? ==> x == '-' || IsDigit(x)) && (t.StringOf? ==> x == '\"')
      && (t.ArrayOf? ==> x == '[') && (t.ObjectOf? ==> x == '{')
  {
    if t.NumberOf? { NumberStarts(t.form); }
  }

  /** The character that starts a text in the buffer, and the one that ends it. */
  lemma {:induction false} TextStands(c: string, p: nat, a: string, rest: string)
    requires Stands(c, p, a + rest) && a != []
    ensures TextAt(c, p, a) && Stands(c, p + |a|, rest) && p + |a| < |c| && c[p] == a[0]
    ensures c[p + |a|] == if rest == [] then NUL else rest[0]
  {
    StandsBehind(c, p, a, rest);
    TextAtIndex(c, p, a, 0);
    assert c[p + |a|] == c[p + |a|..][0] == (rest + [NUL])[0];
  }

  lemma {:induction false} WordIsRead(c: string, p: nat, t: Text, rest: string)
    requires Readable(c, |c|)
    requires WellFormed(t) && Parseable(t, 0) && !t.ArrayOf? && !t.ObjectOf?
    requires Stands(c, p, TextOf(t) + rest) && Breaks(rest)
    ensures p <= |c| && ParseScalar(c, |c|, p) == Parsed(ValueOf(t), p + |TextOf(t)|)
    ensures p < |c| && c[p] != '[' && c[p] != '{' && c[p] != ']' && c[p] > ' '
  {
    TextStarts(t);
    TextStands(c, p, TextOf(t), rest);
    match t
    case NullText =>
      LiteralAt(c, |c|, p, "null", 0);
    case FalseText =>
      NotLiteral(c, |c|, p, "null");
      LiteralAt(c, |c|, p, "false", 0);
    case TrueText =>
      NotLiteral(c, |c|, p, "null");
      NotLiteral(c, |c|, p, "false");
      LiteralAt(c, |c|, p, "true", 0);
    case NumberOf(form) => NumberIsScanned(c, p, form, rest);
    case StringOf(parts) => StringIsScanned(c, p, parts, rest);
  }

  lemma {:induction false} NumberIsScanned(c: string, p: nat, form: NumberForm, rest: string)
    requires Readable(c, |c|) && FormFits(form) && |FormText(form)| <= LONGEST_NUMBER
    requires Stands(c, p, FormText(form) + rest) && Breaks(rest)
    ensures p <= |c| && ParseScalar(c, |c|, p) == Parsed(Number(IntOf(form)), p + |FormText(form)|)
  {
    FormIsNumberChars(form);
    TextStands(c, p, FormText(form), rest);
    OtherValuesAreNoLiterals(c, |c|, p);
    NumberParsesExactly(c, |c|, p, form);
  }

  lemma {:induction false} StringIsScanned(c: string, p: nat, parts: seq<Part>, rest: string)
    requires Readable(c, |c|) && AllFit(parts) && Stands(c, p, LiteralText(parts) + rest)
    ensures p <= |c|
    ensures ParseScalar(c, |c|, p) == Parsed(String(UntilNul(PartsMeaning(parts))), p + |LiteralText(parts)|)
  {
    TextStands(c, p, LiteralText(parts), rest);
    OtherValuesAreNoLiterals(c, |c|, p);
    LiteralParses(c, |c|, p, parts);
  }

  lemma {:induction false} InputIsLexer(c: string)
    requires Readable(c, |c|)
    ensures Lexer(InputOf(c, |c|))
  {
    var b := InputOf(c, |c|);
    forall p: nat, t: Text, rest: string ensures WordAt(b, p, t, rest) {
      if WellFormed(t) && Parseable(t, 0) && !t.ArrayOf? && !t.ObjectOf?
         && Stands(c, p, TextOf(t) + rest) && Breaks(rest) {
        WordIsRead(c, p, t, rest);
      }
    }
    forall p: nat, name: seq<Part>, rest: string ensures NameAt(b, p, name, rest) {
      if AllFit(name) && Stands(c, p, LiteralText(name) + rest) { NameIsRead(c, p, name, rest); }
    }
  }

  lemma {:induction false} NameIsRead(c: string, p: nat, name: seq<Part>, rest: string)
    requires AllFit(name) && Stands(c, p, LiteralText(name) + rest)
    ensures p < |c| && ParseString(c, |c|, p) == Parsed(UntilNul(PartsMeaning(name)), p + |LiteralText(name)|)
    ensures c[p] == '\"'
  {
    TextStands(c, p, LiteralText(name), rest);
    LiteralParses(c, |c|, p, name);
  }

  // Gaps

  /** The parser steps over blanks to a visible character. */
  lemma {:induction false} GapIsSkipped(c: string, p: nat, gap: string, rest: string)
    requires AllBlank(gap) && Stands(c, p, gap + rest) && rest != [] && rest[0] > ' '
    ensures p + |gap| < |c| && SkipBlanks(c, |c|, p) == p + |gap| && Stands(c, p + |gap|, rest)
    ensures c[p + |gap|] == rest[0]
  {
    StandsBehind(c, p, gap, rest);
    BlankText(c, p, gap, 0);
    assert c[p + |gap|] == c[p + |gap|..][0];
    SkipTo(c, |c|, p, p + |gap|);
  }

  // Values, over their texts

  predicate ValueAt(b: Input, v: Value, x: string, p: nat, rest: string, nesting: nat)
    requires Sound(b)
  {
    Stands(b.c, p, x + rest) && Breaks(rest) ==>
      p < b.length && ParseValue(b, p, nesting) == Parsed(v, p + |x|)
  }

  /** Wherever the text stands, the value is read. */
  ghost predicate IsRead(b: Input, v: Value, x: string, nesting: nat) {
    Sound(b) && Visible(x) && forall p: nat, rest: string :: ValueAt(b, v, x, p, rest, nesting)
  }

  predicate KeyAt(b: Input, key: string, n: string, p: nat, rest: string) {
    Stands(b.c, p, n + rest) ==> b.quoted(p) == Parsed(key, p + |n|)
  }

  ghost predicate KeyIsRead(b: Input, key: string, n: string) {
    Quoted(n) && forall p: nat, rest: string :: KeyAt(b, key, n, p, rest)
  }

  /** A gap in front of a sign, or the sign itself, ends a number. */
  lemma {:induction false} GapBreaks(gap: string, tail: string)
    requires AllBlank(gap) && tail != [] && (tail[0] == ',' || tail[0] == ']' || tail[0] == '}')
    ensures Breaks(gap + tail)
  {
    assert (gap + tail)[0] == if gap == [] then tail[0] else gap[0];
  }

  /** Where a rest of the buffer begins, counted from the end. */
  lemma {:induction false} StandsFromEnd(c: string, p: nat, s: string)
    requires Stands(c, p, s)
    ensures p + |s| + 1 == |c|
  {
    assert |c[p..]| == |s| + 1;
  }

  /** A bracket, and the gap behind it. */
  lemma {:induction false} ListOpens(c: string, p: nat, sign: char, gap: string, rest: string)
      returns (next: nat, q: nat)
    requires Stands(c, p, [sign] + (gap + rest)) && AllBlank(gap) && rest != [] && rest[0] > ' '
    ensures next == p + 1 && q == next + |gap| < |c| && c[p] == sign
    ensures SkipBlanks(c, |c|, next) == q && c[q] == rest[0] && Stands(c, q, rest)
  {
    next := p + 1;
    q := next + |gap|;
    TextStands(c, p, [sign], gap + rest);
    GapIsSkipped(c, next, gap, rest);
  }

  // Arrays

  /** An element: its value, its text and the gaps around it. */
  datatype Cell = Cell(before: string, x: string, after: string, v: Value)

  function CellsText(cells: seq<Cell>): string {
    if cells == [] then []
    else
      cells[0].before + cells[0].x + cells[0].after + (if |cells| > 1 then "," else []) + CellsText(cells[1..])
  }

  function CellValues(cells: seq<Cell>): (r: seq<Value>)
    ensures |r| == |cells|
  {
    if cells == [] then [] else [cells[0].v] + CellValues(cells[1..])
  }

  ghost predicate CellReads(b: Input, cell: Cell, nesting: nat) {
    AllBlank(cell.before) && AllBlank(cell.after) && IsRead(b, cell.v, cell.x, nesting)
  }

  ghost predicate CellsRead(b: Input, cells: seq<Cell>, nesting: nat)
    decreases |cells|
  {
    cells == [] || (CellReads(b, cells[0], nesting) && CellsRead(b, cells[1..], nesting))
  }

  /** What follows the first element: its gap, the other elements, and what closes the list. */
  function AfterFirst(cells: seq<Cell>, close: string): string
    requires cells != []
  {
    (if |cells| > 1 then "," + CellsText(cells[1..]) else []) + close
  }

  lemma {:induction false} CellsSplit(cells: seq<Cell>, close: string)
    requires cells != []
    ensures CellsText(cells) + close
         == cells[0].before + (cells[0].x + (cells[0].after + AfterFirst(cells, close)))
  {
    var e := cells[0];
    SixParts(e.before, e.x, e.after, if |cells| > 1 then "," else [], CellsText(cells[1..]), close);
  }

  lemma {:induction false} SixParts(a: string, b: string, d: string, e: string, f: string, g: string)
    ensures a + b + d + e + f + g == a + (b + (d + ((e + f) + g)))
  {
  }

  /** The elements from a position on, and where they stop. */
  ghost predicate ElementsGive(b: Input, from: nat, nesting: nat, items: seq<Value>, stop: nat) {
    Sound(b) && from <= b.length && ParseElements(b, from, nesting) == Parsed(items, stop)
  }

  /** An element is read behind a gap, and a sign stands behind the next one. */
  ghost predicate Found(b: Input, v: Value, from: nat, at: nat, end: nat, q: nat, sign: char, nesting: nat) {
    && Sound(b) && from <= at < end <= q < |b.c| == b.length && SkipBlanks(b.c, b.length, from) == at
    && ParseValue(b, at, nesting) == Parsed(v, end)
    && SkipBlanks(b.c, b.length, end) == q && b.c[q] == sign
  }

  /** One element, from a gap that may have been skipped already. */
  lemma {:induction false} CellIsRead(b: Input, cell: Cell, lead: string, from: nat, tail: string, nesting: nat)
      returns (at: nat, end: nat, q: nat)
    requires CellReads(b, cell, nesting) && b.length == |b.c| && AllBlank(lead)
    requires tail != [] && (tail[0] == ',' || tail[0] == ']' || tail[0] == '}')
    requires Stands(b.c, from, lead + (cell.x + (cell.after + tail)))
    ensures Found(b, cell.v, from, at, end, q, tail[0], nesting) && Stands(b.c, q, tail)
  {
    var after := cell.after + tail;
    at := LeadIsSkipped(b.c, from, lead, cell.x, after);
    end, q := BehindCell(b.c, at, cell.x, cell.after, tail);
    GapBreaks(cell.after, tail);
    assert ValueAt(b, cell.v, cell.x, at, after, nesting);
  }

  lemma {:induction false} LeadIsSkipped(c: string, from: nat, lead: string, x: string, after: string)
      returns (at: nat)
    requires Visible(x) && AllBlank(lead) && Stands(c, from, lead + (x + after))
    ensures from <= at < |c| && SkipBlanks(c, |c|, from) == at && Stands(c, at, x + after)
  {
    assert (x + after)[0] == x[0];
    at := from + |lead|;
    GapIsSkipped(c, from, lead, x + after);
  }

  lemma {:induction false} BehindCell(c: string, at: nat, x: string, gap: string, tail: string)
      returns (end: nat, q: nat)
    requires x != [] && AllBlank(gap) && tail != [] && tail[0] > ' ' && Stands(c, at, x + (gap + tail))
    ensures at < end == at + |x| <= q < |c| && SkipBlanks(c, |c|, end) == q
    ensures Stands(c, q, tail) && c[q] == tail[0]
  {
    TextStands(c, at, x, gap + tail);
    end := at + |x|;
    q := end + |gap|;
    GapIsSkipped(c, end, gap, tail);
  }

  /** The elements stand in the buffer, with this gap in front of the first one. */
  predicate CellsStand(c: string, from: nat, lead: string, cells: seq<Cell>, close: string)
    requires cells != []
  {
    Stands(c, from, lead + (cells[0].x + (cells[0].after + AfterFirst(cells, close))))
  }

  lemma {:induction false} TailStarts(cells: seq<Cell>, close: string)
    requires cells != [] && close != []
    ensures var tail := AfterFirst(cells, close); tail != [] && tail[0] == if |cells| > 1 then ',' else close[0]
  {
  }

  lemma {:induction false} CloseStands(c: string, q: nat, cells: seq<Cell>, close: string)
    requires |cells| == 1 && close != [] && Stands(c, q, AfterFirst(cells, close))
    ensures q + 1 == |c| - |close|
  {
    StandsFromEnd(c, q, AfterFirst(cells, close));
  }

  lemma {:induction false} OthersStand(c: string, q: nat, cells: seq<Cell>, close: string) returns (next: nat)
    requires |cells| > 1 && Stands(c, q, AfterFirst(cells, close))
    ensures next == q + 1 < |c| && c[q] == ',' && CellsStand(c, next, cells[1].before, cells[1..], close)
  {
    CellsSplit(cells[1..], close);
    next := q + 1;
    CommaStands(c, q, next, CellsText(cells[1..]), close);
  }

  lemma {:induction false} LastElementIsRead(
      b: Input, cells: seq<Cell>, lead: string, from: nat, close: string, nesting: nat, stop: nat)
    requires |cells| == 1 && CellReads(b, cells[0], nesting) && Sound(b) && b.length == |b.c| && AllBlank(lead)
    requires close != [] && close[0] == ']'
    requires CellsStand(b.c, from, lead, cells, close)
    requires stop == |b.c| - |close|
    ensures ElementsGive(b, from, nesting, CellValues(cells), stop)
  {
    TailStarts(cells, close);
    var at, end, q := CellIsRead(b, cells[0], lead, from, AfterFirst(cells, close), nesting);
    CloseStands(b.c, q, cells, close);
    LastElementParses(b, from, at, end, q, cells[0].v, nesting);
    assert CellValues(cells) == [cells[0].v];
  }

  lemma {:induction false} FirstOfMany(b: Input, cells: seq<Cell>, lead: string, from: nat, close: string, nesting: nat)
      returns (at: nat, end: nat, q: nat, next: nat)
    requires |cells| > 1 && CellReads(b, cells[0], nesting) && Sound(b) && b.length == |b.c| && AllBlank(lead)
    requires close != [] && CellsStand(b.c, from, lead, cells, close)
    ensures Found(b, cells[0].v, from, at, end, q, ',', nesting) && next == q + 1 < |b.c|
    ensures CellsStand(b.c, next, cells[1].before, cells[1..], close)
  {
    TailStarts(cells, close);
    at, end, q := CellIsRead(b, cells[0], lead, from, AfterFirst(cells, close), nesting);
    next := OthersStand(b.c, q, cells, close);
  }

  lemma {:induction false} NextCellIsRead(
      b: Input, cells: seq<Cell>, from: nat, at: nat, end: nat, q: nat, next: nat, nesting: nat, stop: nat)
    requires |cells| > 1 && Found(b, cells[0].v, from, at, end, q, ',', nesting) && q + 1 == next < |b.c|
    requires ElementsGive(b, next, nesting, CellValues(cells[1..]), stop)
    ensures ElementsGive(b, from, nesting, CellValues(cells), stop)
  {
    NextElementParses(b, from, at, end, q, next, cells[0].v, CellValues(cells[1..]), nesting, stop);
  }

  lemma {:induction false} ElementsAreRead(
      b: Input, cells: seq<Cell>, lead: string, from: nat, close: string, nesting: nat, stop: nat)
    requires CellsRead(b, cells, nesting) && Sound(b) && b.length == |b.c| && cells != [] && AllBlank(lead)
    requires close != [] && close[0] == ']' && stop == |b.c| - |close|
    requires CellsStand(b.c, from, lead, cells, close)
    ensures ElementsGive(b, from, nesting, CellValues(cells), stop)
    decreases |cells|
  {
    if |cells| == 1 {
      LastElementIsRead(b, cells, lead, from, close, nesting, stop);
    } else {
      var at, end, q, next := FirstOfMany(b, cells, lead, from, close, nesting);
      ElementsAreRead(b, cells[1..], cells[1].before, next, close, nesting, stop);
      NextCellIsRead(b, cells, from, at, end, q, next, nesting, stop);
    }
  }

  lemma {:induction false} CommaStands(c: string, q: nat, next: nat, others: string, close: string)
    requires Stands(c, q, "," + others + close) && next == q + 1
    ensures next < |c| && c[q] == ',' && Stands(c, next, others + close)
  {
    assert "," + others + close == "," + (others + close);
    TextStands(c, q, ",", others + close);
  }

  lemma {:induction false} LastElementParses(b: Input, from: nat, at: nat, end: nat, q: nat, v: Value, nesting: nat)
    requires Found(b, v, from, at, end, q, ']', nesting)
    ensures ElementsGive(b, from, nesting, [v], q + 1)
  {
  }

  lemma {:induction false} NextElementParses(
      b: Input, from: nat, at: nat, end: nat, q: nat, next: nat, v: Value, others: seq<Value>, nesting: nat, stop: nat)
    requires Found(b, v, from, at, end, q, ',', nesting) && q + 1 == next < |b.c|
    requires ElementsGive(b, next, nesting, others, stop)
    ensures ElementsGive(b, from, nesting, [v] + others, stop)
  {
  }

  lemma {:induction false} EmptyArrayParses(b: Input, p: nat, next: nat, q: nat, nesting: nat)
    requires Sound(b) && nesting < NESTING_LIMIT && p + 1 == next <= q < |b.c| == b.length && b.c[p] == '['
    requires SkipBlanks(b.c, b.length, next) == q && b.c[q] == ']'
    ensures ParseValue(b, p, nesting) == Parsed(Array([]), q + 1)
  {
  }

  lemma {:induction false} FullArrayParses(
      b: Input, items: seq<Value>, p: nat, next: nat, q: nat, nesting: nat, stop: nat)
    requires Sound(b) && nesting < NESTING_LIMIT && p + 1 == next <= q < |b.c| == b.length && b.c[p] == '['
    requires SkipBlanks(b.c, b.length, next) == q && b.c[q] != ']'
    requires ElementsGive(b, q, nesting + 1, items, stop)
    ensures ParseValue(b, p, nesting) == Parsed(Array(items), stop)
  {
  }

  lemma {:induction false} ArrayIsRead(b: Input, gap: string, cells: seq<Cell>, x: string, nesting: nat)
    requires Sound(b) && b.length == |b.c| && nesting < NESTING_LIMIT && AllBlank(gap)
    requires CellsRead(b, cells, nesting + 1) && x == "[" + (if cells == [] then gap else CellsText(cells)) + "]"
    ensures IsRead(b, Array(CellValues(cells)), x, nesting)
  {
    forall p: nat, rest: string ensures ValueAt(b, Array(CellValues(cells)), x, p, rest, nesting) {
      if Stands(b.c, p, x + rest) {
        StandsFromEnd(b.c, p, x + rest);
        if cells == [] {
          assert x + rest == "[" + (gap + ("]" + rest));
          EmptyArrayAt(b, gap, p, rest, nesting);
        } else {
          assert x + rest == "[" + (CellsText(cells) + ("]" + rest));
          FullArrayAt(b, cells, p, "]" + rest, nesting);
        }
      }
    }
  }

  lemma {:induction false} EmptyArrayAt(b: Input, gap: string, p: nat, rest: string, nesting: nat)
    requires Sound(b) && b.length == |b.c| && nesting < NESTING_LIMIT && AllBlank(gap)
    requires Stands(b.c, p, "[" + (gap + ("]" + rest)))
    ensures p < b.length && ParseValue(b, p, nesting) == Parsed(Array([]), p + |gap| + 2)
  {
    var next, q := ListOpens(b.c, p, '[', gap, "]" + rest);
    EmptyArrayParses(b, p, next, q, nesting);
  }

  lemma {:induction false} FirstCellStands(c: string, p: nat, cells: seq<Cell>, close: string)
      returns (next: nat, q: nat)
    requires cells != [] && AllBlank(cells[0].before) && Visible(cells[0].x)
    requires Stands(c, p, "[" + (CellsText(cells) + close))
    ensures next == p + 1 <= q < |c| && c[p] == '[' && SkipBlanks(c, |c|, next) == q && c[q] != ']'
    ensures CellsStand(c, q, [], cells, close)
  {
    var first := cells[0].x + (cells[0].after + AfterFirst(cells, close));
    CellsSplit(cells, close);
    next, q := ListOpens(c, p, '[', cells[0].before, first);
    assert [] + first == first;
  }

  lemma {:induction false} FullArrayAt(b: Input, cells: seq<Cell>, p: nat, close: string, nesting: nat)
    requires Sound(b) && b.length == |b.c| && nesting < NESTING_LIMIT && cells != []
    requires CellsRead(b, cells, nesting + 1) && close != [] && close[0] == ']'
    requires Stands(b.c, p, "[" + (CellsText(cells) + close))
    ensures p < b.length && ParseValue(b, p, nesting) == Parsed(Array(CellValues(cells)), |b.c| - |close|)
  {
    var next, q := FirstCellStands(b.c, p, cells, close);
    ElementsAreRead(b, cells, [], q, close, nesting + 1, |b.c| - |close|);
    FullArrayParses(b, CellValues(cells), p, next, q, nesting, |b.c| - |close|);
  }

  // Objects

  /** A member: its key and value, their texts and the gaps around them. */
  datatype Row =
    Row(before: string, n: string, key: string, colon: string, value: string, x: string, v: Value, after: string)

  function RowsText(rows: seq<Row>): string {
    if rows == [] then []
    else RowText(rows[0]) + (if |rows| > 1 then "," else []) + RowsText(rows[1..])
  }

  function RowText(r: Row): string {
    r.before + r.n + r.colon + ":" + r.value + r.x + r.after
  }

  function RowValues(rows: seq<Row>): (r: seq<Entry<Value>>)
    ensures |r| == |rows|
  {
    if rows == [] then [] else [Entry(rows[0].key, rows[0].v)] + RowValues(rows[1..])
  }

  ghost predicate RowReads(b: Input, r: Row, nesting: nat) {
    && AllBlank(r.before) && AllBlank(r.colon) && AllBlank(r.value) && AllBlank(r.after)
    && KeyIsRead(b, r.key, r.n) && IsRead(b, r.v, r.x, nesting)
  }

  ghost predicate RowsRead(b: Input, rows: seq<Row>, nesting: nat)
    decreases |rows|
  {
    rows == [] || (RowReads(b, rows[0], nesting) && RowsRead(b, rows[1..], nesting))
  }

  /** The members from a position on, and where they stop. */
  ghost predicate MembersGive(b: Input, from: nat, nesting: nat, ms: seq<Entry<Value>>, stop: nat) {
    Sound(b) && from <= b.length && ParseMembers(b, from, nesting) == Parsed(ms, stop)
  }

  function AfterRow(rows: seq<Row>, close: string): string
    requires rows != []
  {
    (if |rows| > 1 then "," + RowsText(rows[1..]) else []) + close
  }

  /** A member from its name on. */
  function FromName(r: Row, tail: string): string {
    r.n + (r.colon + (":" + (r.value + (r.x + (r.after + tail)))))
  }

  lemma {:induction false} RowsSplit(rows: seq<Row>, close: string)
    requires rows != []
    ensures RowsText(rows) + close == rows[0].before + FromName(rows[0], AfterRow(rows, close))
  {
    var r, sign, others := rows[0], if |rows| > 1 then "," else [], RowsText(rows[1..]);
    RowSplit(r, sign + others + close);
    assert RowText(r) + sign + others + close == RowText(r) + (sign + others + close);
  }

  lemma {:induction false} RowSplit(r: Row, tail: string)
    ensures RowText(r) + tail == r.before + FromName(r, tail)
  {
    var end := r.x + (r.after + tail);
    assert RowText(r) + tail == r.before + r.n + r.colon + ":" + r.value + end by {
      assert r.before + r.n + r.colon + ":" + r.value + r.x + r.after + tail
          == (r.before + r.n + r.colon + ":" + r.value) + end;
    }
    SixParts(r.before, r.n, r.colon, ":", r.value, end);
    assert (":" + r.value) + end == ":" + (r.value + end);
  }

  /** The name, from a gap that may have been skipped already. */
  lemma {:induction false} NameOfRow(b: Input, r: Row, lead: string, from: nat, rest: string)
      returns (quote: nat, end: nat)
    requires b.length == |b.c| && AllBlank(lead) && KeyIsRead(b, r.key, r.n)
    requires Stands(b.c, from, lead + (r.n + rest))
    ensures from <= quote < end < |b.c| && SkipBlanks(b.c, b.length, from) == quote
    ensures b.quoted(quote) == Parsed(r.key, end) && Stands(b.c, end, rest)
  {
    QuoteIsVisible(r.n, rest);
    GapIsSkipped(b.c, from, lead, r.n + rest);
    quote := from + |lead|;
    end := quote + |r.n|;
    assert KeyAt(b, r.key, r.n, quote, rest);
    TextStands(b.c, quote, r.n, rest);
  }

  lemma {:induction false} QuoteIsVisible(n: string, rest: string)
    requires Quoted(n)
    ensures n + rest != [] && (n + rest)[0] == '\"'
  {
  }

  lemma {:induction false} ColonStands(c: string, from: nat, gap: string, behind: string)
      returns (colon: nat, next: nat)
    requires AllBlank(gap) && Stands(c, from, gap + (":" + behind))
    ensures from <= colon && colon + 1 == next < |c| && SkipBlanks(c, |c|, from) == colon && c[colon] == ':'
    ensures Stands(c, next, behind)
  {
    GapIsSkipped(c, from, gap, ":" + behind);
    colon := from + |gap|;
    next := colon + 1;
    TextStands(c, colon, ":", behind);
  }

  /** A member is read, and a sign stands behind the next gap. */
  ghost predicate MemberFound(b: Input, e: Entry<Value>, from: nat, end: nat, q: nat, sign: char, nesting: nat) {
    && Sound(b) && from < end <= q < |b.c| == b.length && ParseMember(b, from, nesting) == Parsed(e, end)
    && SkipBlanks(b.c, b.length, end) == q && b.c[q] == sign
  }

  lemma {:induction false} RowIsRead(b: Input, r: Row, lead: string, from: nat, tail: string, nesting: nat)
      returns (end: nat, q: nat)
    requires RowReads(b, r, nesting) && Sound(b) && b.length == |b.c| && AllBlank(lead)
    requires tail != [] && (tail[0] == ',' || tail[0] == '}')
    requires Stands(b.c, from, lead + FromName(r, tail))
    ensures MemberFound(b, Entry(r.key, r.v), from, end, q, tail[0], nesting) && Stands(b.c, q, tail)
  {
    var behind := r.value + (r.x + (r.after + tail));
    var quote, stop := NameOfRow(b, r, lead, from, r.colon + (":" + behind));
    var colon, next := ColonStands(b.c, stop, r.colon, behind);
    var at;
    at, end, q := CellIsRead(b, Cell(r.value, r.x, r.after, r.v), r.value, next, tail, nesting);
    MemberIsParsed(b, from, quote, stop, colon, next, at, end, q, r.key, r.v, tail[0], nesting);
  }

  lemma {:induction false} MemberIsParsed(
      b: Input, from: nat, quote: nat, behind: nat, colon: nat, next: nat, at: nat, end: nat, q: nat, key: string,
      v: Value, sign: char, nesting: nat)
    requires Found(b, v, next, at, end, q, sign, nesting) && from <= quote < behind <= colon && next == colon + 1
    requires SkipBlanks(b.c, b.length, from) == quote && b.quoted(quote) == Parsed(key, behind)
    requires SkipBlanks(b.c, b.length, behind) == colon && b.c[colon] == ':'
    ensures ParseMember(b, from, nesting) == Parsed(Entry(key, v), end)
  {
  }

  /** The members stand in the buffer, with this gap in front of the first name. */
  predicate RowsStand(c: string, from: nat, lead: string, rows: seq<Row>, close: string)
    requires rows != []
  {
    Stands(c, from, lead + FromName(rows[0], AfterRow(rows, close)))
  }

  lemma {:induction false} RowTailStarts(rows: seq<Row>, close: string)
    requires rows != [] && close != []
    ensures var tail := AfterRow(rows, close); tail != [] && tail[0] == if |rows| > 1 then ',' else close[0]
  {
  }

  lemma {:induction false} BraceStands(c: string, q: nat, rows: seq<Row>, close: string)
    requires |rows| == 1 && close != [] && Stands(c, q, AfterRow(rows, close))
    ensures q + 1 == |c| - |close|
  {
    StandsFromEnd(c, q, AfterRow(rows, close));
  }

  lemma {:induction false} OtherRowsStand(c: string, q: nat, rows: seq<Row>, close: string) returns (next: nat)
    requires |rows| > 1 && Stands(c, q, AfterRow(rows, close))
    ensures next == q + 1 < |c| && c[q] == ',' && RowsStand(c, next, rows[1].before, rows[1..], close)
  {
    RowsSplit(rows[1..], close);
    next := q + 1;
    CommaStands(c, q, next, RowsText(rows[1..]), close);
  }

  lemma {:induction false} LastMemberIsRead(
      b: Input, rows: seq<Row>, lead: string, from: nat, close: string, nesting: nat, stop: nat)
    requires |rows| == 1 && RowReads(b, rows[0], nesting) && Sound(b) && b.length == |b.c| && AllBlank(lead)
    requires close != [] && close[0] == '}'
    requires RowsStand(b.c, from, lead, rows, close)
    requires stop == |b.c| - |close|
    ensures MembersGive(b, from, nesting, RowValues(rows), stop)
  {
    RowTailStarts(rows, close);
    var end, q := RowIsRead(b, rows[0], lead, from, AfterRow(rows, close), nesting);
    BraceStands(b.c, q, rows, close);
    LastMemberParses(b, from, end, q, Entry(rows[0].key, rows[0].v), nesting);
    OneValue(rows);
  }

  lemma {:induction false} FirstOfRows(b: Input, rows: seq<Row>, lead: string, from: nat, close: string, nesting: nat)
      returns (end: nat, q: nat, next: nat)
    requires |rows| > 1 && RowReads(b, rows[0], nesting) && Sound(b) && b.length == |b.c| && AllBlank(lead)
    requires close != [] && RowsStand(b.c, from, lead, rows, close)
    ensures MemberFound(b, Entry(rows[0].key, rows[0].v), from, end, q, ',', nesting) && next == q + 1 < |b.c|
    ensures RowsStand(b.c, next, rows[1].before, rows[1..], close)
  {
    RowTailStarts(rows, close);
    end, q := RowIsRead(b, rows[0], lead, from, AfterRow(rows, close), nesting);
    next := OtherRowsStand(b.c, q, rows, close);
  }

  lemma {:induction false} OneValue(rows: seq<Row>)
    requires |rows| == 1
    ensures RowValues(rows) == [Entry(rows[0].key, rows[0].v)]
  {
  }

  lemma {:induction false} NextRowIsRead(
      b: Input, rows: seq<Row>, from: nat, end: nat, q: nat, next: nat, nesting: nat, stop: nat)
    requires |rows| > 1 && MemberFound(b, Entry(rows[0].key, rows[0].v), from, end, q, ',', nesting)
    requires q + 1 == next < |b.c| && MembersGive(b, next, nesting, RowValues(rows[1..]), stop)
    ensures MembersGive(b, from, nesting, RowValues(rows), stop)
  {
    NextMemberParses(b, from, end, q, next, Entry(rows[0].key, rows[0].v), RowValues(rows[1..]), nesting, stop);
  }

  lemma {:induction false} LastMemberParses(b: Input, from: nat, end: nat, q: nat, e: Entry<Value>, nesting: nat)
    requires MemberFound(b, e, from, end, q, '}', nesting)
    ensures MembersGive(b, from, nesting, [e], q + 1)
  {
  }

  lemma {:induction false} NextMemberParses(
      b: Input, from: nat, end: nat, q: nat, next: nat, e: Entry<Value>, others: seq<Entry<Value>>, nesting: nat,
      stop: nat)
    requires MemberFound(b, e, from, end, q, ',', nesting) && q + 1 == next < |b.c|
    requires MembersGive(b, next, nesting, others, stop)
    ensures MembersGive(b, from, nesting, [e] + others, stop)
  {
  }

  lemma {:induction false} MembersAreRead(
      b: Input, rows: seq<Row>, lead: string, from: nat, close: string, nesting: nat, stop: nat)
    requires RowsRead(b, rows, nesting) && Sound(b) && b.length == |b.c| && rows != [] && AllBlank(lead)
    requires close != [] && close[0] == '}' && stop == |b.c| - |close|
    requires RowsStand(b.c, from, lead, rows, close)
    ensures MembersGive(b, from, nesting, RowValues(rows), stop)
    decreases |rows|
  {
    if |rows| == 1 {
      LastMemberIsRead(b, rows, lead, from, close, nesting, stop);
    } else {
      var end, q, next := FirstOfRows(b, rows, lead, from, close, nesting);
      MembersAreRead(b, rows[1..], rows[1].before, next, close, nesting, stop);
      NextRowIsRead(b, rows, from, end, q, next, nesting, stop);
    }
  }

  lemma {:induction false} EmptyObjectParses(b: Input, p: nat, next: nat, q: nat, nesting: nat)
    requires Sound(b) && nesting < NESTING_LIMIT && p + 1 == next <= q < |b.c| == b.length && b.c[p] == '{'
    requires SkipBlanks(b.c, b.length, next) == q && b.c[q] == '}'
    ensures ParseValue(b, p, nesting) == Parsed(Object([]), q + 1)
  {
  }

  lemma {:induction false} FullObjectParses(
      b: Input, ms: seq<Entry<Value>>, p: nat, next: nat, q: nat, nesting: nat, stop: nat)
    requires Sound(b) && nesting < NESTING_LIMIT && p + 1 == next <= q < |b.c| == b.length && b.c[p] == '{'
    requires SkipBlanks(b.c, b.length, next) == q && b.c[q] != '}'
    requires MembersGive(b, q, nesting + 1, ms, stop)
    ensures ParseValue(b, p, nesting) == Parsed(Object(ms), stop)
  {
  }

  lemma {:induction false} ObjectIsRead(b: Input, gap: string, rows: seq<Row>, x: string, nesting: nat)
    requires Sound(b) && b.length == |b.c| && nesting < NESTING_LIMIT && AllBlank(gap)
    requires RowsRead(b, rows, nesting + 1) && x == "{" + (if rows == [] then gap else RowsText(rows)) + "}"
    ensures IsRead(b, Object(RowValues(rows)), x, nesting)
  {
    forall p: nat, rest: string ensures ValueAt(b, Object(RowValues(rows)), x, p, rest, nesting) {
      if Stands(b.c, p, x + rest) {
        StandsFromEnd(b.c, p, x + rest);
        if rows == [] {
          assert x + rest == "{" + (gap + ("}" + rest));
          EmptyObjectAt(b, gap, p, rest, nesting);
        } else {
          assert x + rest == "{" + (RowsText(rows) + ("}" + rest));
          FullObjectAt(b, rows, p, "}" + rest, nesting);
        }
      }
    }
  }

  lemma {:induction false} EmptyObjectAt(b: Input, gap: string, p: nat, rest: string, nesting: nat)
    requires Sound(b) && b.length == |b.c| && nesting < NESTING_LIMIT && AllBlank(gap)
    requires Stands(b.c, p, "{" + (gap + ("}" + rest)))
    ensures p < b.length && ParseValue(b, p, nesting) == Parsed(Object([]), p + |gap| + 2)
  {
    var next, q := ListOpens(b.c, p, '{', gap, "}" + rest);
    EmptyObjectParses(b, p, next, q, nesting);
  }

  lemma {:induction false} FirstRowStands(c: string, p: nat, rows: seq<Row>, close: string) returns (next: nat, q: nat)
    requires rows != [] && AllBlank(rows[0].before) && Quoted(rows[0].n)
    requires Stands(c, p, "{" + (RowsText(rows) + close))
    ensures next == p + 1 <= q < |c| && c[p] == '{' && SkipBlanks(c, |c|, next) == q && c[q] != '}'
    ensures RowsStand(c, q, [], rows, close)
  {
    var first := FromName(rows[0], AfterRow(rows, close));
    RowsSplit(rows, close);
    QuoteFirst(rows[0], AfterRow(rows, close));
    next, q := ListOpens(c, p, '{', rows[0].before, first);
    assert [] + first == first;
  }

  lemma {:induction false} FullObjectAt(b: Input, rows: seq<Row>, p: nat, close: string, nesting: nat)
    requires Sound(b) && b.length == |b.c| && nesting < NESTING_LIMIT && rows != []
    requires RowsRead(b, rows, nesting + 1) && close != [] && close[0] == '}'
    requires Stands(b.c, p, "{" + (RowsText(rows) + close))
    ensures p < b.length && ParseValue(b, p, nesting) == Parsed(Object(RowValues(rows)), |b.c| - |close|)
  {
    var next, q := FirstRowStands(b.c, p, rows, close);
    MembersAreRead(b, rows, [], q, close, nesting + 1, |b.c| - |close|);
    FullObjectParses(b, RowValues(rows), p, next, q, nesting, |b.c| - |close|);
  }

  lemma {:induction false} QuoteFirst(r: Row, tail: string)
    requires Quoted(r.n)
    ensures FromName(r, tail) != [] && FromName(r, tail)[0] == '\"'
  {
  }

  // Every text

  function CellOf(s: Slot): Cell
    requires WellFormed(s.text)
  {
    Cell(s.before, TextOf(s.text), s.after, ValueOf(s.text))
  }

  function CellsOf(slots: seq<Slot>): (r: seq<Cell>)
    requires SlotsWellFormed(slots)
    ensures |r| == |slots|
  {
    if slots == [] then [] else [CellOf(slots[0])] + CellsOf(slots[1..])
  }

  function RowOf(f: Field): Row
    requires AllFit(f.name) && WellFormed(f.text)
  {
    Row(f.before, LiteralText(f.name), UntilNul(PartsMeaning(f.name)), f.colon, f.value, TextOf(f.text),
        ValueOf(f.text), f.after)
  }

  function RowsOf(fields: seq<Field>): (r: seq<Row>)
    requires FieldsWellFormed(fields)
    ensures |r| == |fields|
  {
    if fields == [] then [] else [RowOf(fields[0])] + RowsOf(fields[1..])
  }

  lemma {:induction false} CellsAre(slots: seq<Slot>)
    requires SlotsWellFormed(slots)
    ensures CellsText(CellsOf(slots)) == SlotsText(slots) && CellValues(CellsOf(slots)) == SlotValues(slots)
  {
    if slots != [] { CellsAre(slots[1..]); }
  }

  lemma {:induction false} RowsAre(fields: seq<Field>)
    requires FieldsWellFormed(fields)
    ensures RowsText(RowsOf(fields)) == FieldsText(fields) && RowValues(RowsOf(fields)) == FieldValues(fields)
  {
    if fields != [] {
      RowsAre(fields[1..]);
      assert RowText(RowOf(fields[0])) == FieldText(fields[0]);
    }
  }

  lemma {:induction false} TextIsVisible(t: Text)
    requires WellFormed(t)
    ensures Visible(TextOf(t))
  {
    TextStarts(t);
  }

  lemma {:induction false} TextReads(b: Input, t: Text, nesting: nat)
    requires Lexer(b) && WellFormed(t) && nesting <= NESTING_LIMIT && Parseable(t, NESTING_LIMIT - nesting)
    ensures IsRead(b, ValueOf(t), TextOf(t), nesting)
    decreases t, 1
  {
    match t
    case ArrayOf(gap, slots) => ArrayTextReads(b, gap, slots, nesting);
    case ObjectOf(gap, fields) => ObjectTextReads(b, gap, fields, nesting);
    case _ => WordReads(b, t, nesting);
  }

  lemma {:induction false} ArrayTextReads(b: Input, gap: string, slots: seq<Slot>, nesting: nat)
    requires Lexer(b) && SlotsWellFormed(slots) && nesting < NESTING_LIMIT && AllBlank(gap)
    requires SlotsParseable(slots, NESTING_LIMIT - nesting - 1)
    ensures IsRead(b, Array(SlotValues(slots)), TextOf(ArrayOf(gap, slots)), nesting)
    decreases slots, 1
  {
    SlotsAreRead(b, slots, nesting + 1);
    CellsAre(slots);
    ArrayIsRead(b, gap, CellsOf(slots), TextOf(ArrayOf(gap, slots)), nesting);
  }

  lemma {:induction false} ObjectTextReads(b: Input, gap: string, fields: seq<Field>, nesting: nat)
    requires Lexer(b) && FieldsWellFormed(fields) && nesting < NESTING_LIMIT && AllBlank(gap)
    requires FieldsParseable(fields, NESTING_LIMIT - nesting - 1)
    ensures IsRead(b, Object(FieldValues(fields)), TextOf(ObjectOf(gap, fields)), nesting)
    decreases fields, 1
  {
    FieldsAreRead(b, fields, nesting + 1);
    RowsAre(fields);
    ObjectIsRead(b, gap, RowsOf(fields), TextOf(ObjectOf(gap, fields)), nesting);
  }

  lemma {:induction false} WordReads(b: Input, t: Text, nesting: nat)
    requires Lexer(b) && WellFormed(t) && Parseable(t, 0) && !t.ArrayOf? && !t.ObjectOf?
    ensures IsRead(b, ValueOf(t), TextOf(t), nesting)
  {
    TextIsVisible(t);
    forall p: nat, rest: string ensures ValueAt(b, ValueOf(t), TextOf(t), p, rest, nesting) {
      assert WordAt(b, p, t, rest);
    }
  }

  lemma {:induction false} SlotsAreRead(b: Input, slots: seq<Slot>, nesting: nat)
    requires Lexer(b) && SlotsWellFormed(slots)
    requires nesting <= NESTING_LIMIT && SlotsParseable(slots, NESTING_LIMIT - nesting)
    ensures CellsRead(b, CellsOf(slots), nesting)
    decreases slots, 0
  {
    if slots != [] {
      TextReads(b, slots[0].text, nesting);
      SlotsAreRead(b, slots[1..], nesting);
    }
  }

  lemma {:induction false} NameReads(b: Input, name: seq<Part>)
    requires Lexer(b) && AllFit(name)
    ensures KeyIsRead(b, UntilNul(PartsMeaning(name)), LiteralText(name))
  {
    forall p: nat, rest: string ensures KeyAt(b, UntilNul(PartsMeaning(name)), LiteralText(name), p, rest) {
      assert NameAt(b, p, name, rest);
    }
  }

  lemma {:induction false} FieldsAreRead(b: Input, fields: seq<Field>, nesting: nat)
    requires Lexer(b) && FieldsWellFormed(fields)
    requires nesting <= NESTING_LIMIT && FieldsParseable(fields, NESTING_LIMIT - nesting)
    ensures RowsRead(b, RowsOf(fields), nesting)
    decreases fields, 0
  {
    if fields != [] {
      NameReads(b, fields[0].name);
      TextReads(b, fields[0].text, nesting);
      FieldsAreRead(b, fields[1..], nesting);
    }
  }

  // Whole texts

  /** The byte order mark of UTF-8. */
  const MARK: string := [0xEF as char, 0xBB as char, 0xBF as char]

  function MarkIf(marked: bool): string {
    if marked then MARK else []
  }

  lemma {:induction false} BlankEndIsLast(c: string, length: nat, p: nat)
    requires p <= length <= |c|
    ensures BlankEnd(c, length, p) == length <==> AllBlank(c[p..length])
    decreases length - p
  {
    if p < length {
      BlankEndIsLast(c, length, p + 1);
      assert c[p..length][0] == c[p] && c[p..length][1..] == c[p + 1..length];
      assert c[p] <= ' ' && AllBlank(c[p + 1..length]) ==> AllBlank(c[p..length]) by {
        assert c[p..length] == [c[p]] + c[p + 1..length];
      }
    }
  }

  /** The demand for a terminator: a text that can be parsed is refused exactly when something else than blanks
      stands between its value and the last byte, or the last byte is no NUL. */
  lemma {:induction false} TerminatorIsDemanded(c: string, length: nat)
    requires Readable(c, length)
    ensures var free, strict := ParseText(c, length, false), ParseText(c, length, true);
      && (free.Failed? ==> strict.Failed?)
      && (free.Parsed? && free.offset < length && c[length - 1] == NUL && AllBlank(c[free.offset..length]) ==>
            strict == Parsed(free.value, length - 1))
      && (free.Parsed? && !(free.offset < length && c[length - 1] == NUL && AllBlank(c[free.offset..length])) ==>
            strict == Failed)
  {
    var free := ParseText(c, length, false);
    if free.Parsed? {
      FreeParseStops(c, length);
      BlankEndIsLast(c, length, free.offset);
      if free.offset < length && BlankEnd(c, length, free.offset) < length {
        assert c[BlankEnd(c, length, free.offset)] != NUL;
      }
    }
  }

  lemma {:induction false} FreeParseStops(c: string, length: nat)
    requires Readable(c, length) && ParseText(c, length, false).Parsed?
    ensures ParseText(c, length, false).offset <= length
  {
  }

  /** A text with its mark, blanks around it, and what follows. */
  function Marked(marked: bool, lead: string, t: Text, tail: string): string
    requires WellFormed(t)
  {
    MarkIf(marked) + (lead + (TextOf(t) + tail)) + [NUL]
  }

  lemma {:induction false} MarkIsSkipped(c: string, marked: bool, rest: string)
    requires c == MarkIf(marked) + rest + [NUL] && rest != [] && (!marked ==> rest[0] != MARK[0])
    ensures SkipBom(c, |c|) == |MarkIf(marked)| && Stands(c, |MarkIf(marked)|, rest)
  {
    var n := |MarkIf(marked)|;
    assert c[n..] == rest + [NUL];
    if !marked { assert c[0] == rest[0]; }
  }

  /** Where the text stands behind the mark and the blanks. */
  lemma {:induction false} MarkedStands(marked: bool, lead: string, t: Text, tail: string) returns (from: nat, at: nat)
    requires WellFormed(t) && AllBlank(lead)
    ensures var c := Marked(marked, lead, t, tail);
      && from == SkipBom(c, |c|) <= at < |c| && SkipBlanks(c, |c|, from) == at && Stands(c, at, TextOf(t) + tail)
      && at + |TextOf(t)| == |c| - 1 - |tail|
  {
    var c := Marked(marked, lead, t, tail);
    TextStarts(t);
    FirstOfRest(lead, TextOf(t), tail);
    MarkIsSkipped(c, marked, lead + (TextOf(t) + tail));
    TextIsVisible(t);
    from := |MarkIf(marked)|;
    at := LeadIsSkipped(c, from, lead, TextOf(t), tail);
    StandsFromEnd(c, at, TextOf(t) + tail);
  }

  /** Parsing from the first visible character on. */
  lemma {:induction false} MarkedText(marked: bool, lead: string, t: Text, tail: string)
    requires WellFormed(t) && Parseable(t, NESTING_LIMIT) && AllBlank(lead) && Breaks(tail)
    ensures var c := Marked(marked, lead, t, tail);
      ParseText(c, |c|, false) == Parsed(ValueOf(t), |c| - 1 - |tail|)
  {
    var c := Marked(marked, lead, t, tail);
    var b := InputOf(c, |c|);
    var from, at := MarkedStands(marked, lead, t, tail);
    InputIsLexer(c);
    TextReads(b, t, 0);
    assert ValueAt(b, ValueOf(t), TextOf(t), at, tail, 0);
  }

  lemma {:induction false} FirstOfRest(lead: string, x: string, tail: string)
    requires AllBlank(lead) && Visible(x) && x[0] != MARK[0]
    ensures lead + (x + tail) != [] && (lead + (x + tail))[0] != MARK[0]
  {
    assert (lead + (x + tail))[0] == if lead == [] then x[0] else lead[0];
  }

  lemma {:induction false} TailStands(c: string, p: nat, all: string, tail: string)
    requires c == all + [NUL] && |tail| <= |all| && all[|all| - |tail|..] == tail && p == |c| - 1 - |tail|
    ensures c[|c| - 1] == NUL && (AllBlank(c[p..|c|]) <==> AllBlank(tail))
  {
    var s := c[p..|c|];
    assert s == tail + [NUL];
    if AllBlank(s) {
      forall i | 0 <= i < |tail| ensures tail[i] <= ' ' { assert tail[i] == s[i]; }
    }
  }

  lemma {:induction false} TailOfAll(mark: string, lead: string, x: string, tail: string)
    ensures var all := mark + (lead + (x + tail)); |tail| <= |all| && all[|all| - |tail|..] == tail
  {
    var all := mark + (lead + (x + tail));
    assert all == (mark + lead + x) + tail;
  }

  /** Every text of RFC 8259, with or without a byte order mark, with blanks around it, is parsed to the tree that
      it stands for. Behind it the free parse allows anything that does not go on with a number, and the strict
      one allows exactly blanks. */
  lemma {:induction false} EveryTextIsParsed(marked: bool, lead: string, t: Text, tail: string)
    requires WellFormed(t) && Parseable(t, NESTING_LIMIT) && AllBlank(lead) && Breaks(tail)
    ensures var c := Marked(marked, lead, t, tail);
      && ParseText(c, |c|, false) == Parsed(ValueOf(t), |c| - 1 - |tail|)
      && ParseText(c, |c|, true) == if AllBlank(tail) then Parsed(ValueOf(t), |c| - 1) else Failed
  {
    var c := Marked(marked, lead, t, tail);
    var p := |c| - 1 - |tail|;
    MarkedText(marked, lead, t, tail);
    TerminatorIsDemanded(c, |c|);
    TailOfAll(MarkIf(marked), lead, TextOf(t), tail);
    TailStands(c, p, MarkIf(marked) + (lead + (TextOf(t) + tail)), tail);
  }
}
