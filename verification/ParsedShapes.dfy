/** The parser reads nothing else: whatever it takes for an array, an object or a word has that form. */
module ParsedShapes {
  import opened Json
  import opened Unescaping
  import opened Scanning
  import opened Parsing
  import opened ParsePrinted
  import opened NumberTexts
  import opened TextParsing

  // Blanks

  lemma {:induction false} BlankEndIsBlank(c: string, length: nat, p: nat)
    requires p <= length <= |c|
    ensures AllBlank(c[p..BlankEnd(c, length, p)])
    decreases length - p
  {
    if p < length && c[p] <= ' ' {
      var r := BlankEnd(c, length, p);
      BlankEndIsBlank(c, length, p + 1);
      assert c[p..r] == [c[p]] + c[p + 1..r];
    }
  }

  /** What is skipped is blank. */
  lemma {:induction false} SkippedIsBlank(c: string, length: nat, p: nat)
    requires p <= length <= |c|
    ensures AllBlank(c[p..SkipBlanks(c, length, p)])
  {
    BlankEndIsBlank(c, length, p);
    var r, q := BlankEnd(c, length, p), SkipBlanks(c, length, p);
    if q < r { assert c[p..q] == c[p..r][..q - p]; }
  }

  /** Skipping twice is skipping once. */
  lemma {:induction false} SkippedOnce(c: string, length: nat, p: nat)
    requires p <= length <= |c|
    ensures SkipBlanks(c, length, SkipBlanks(c, length, p)) == SkipBlanks(c, length, p)
  {
    var q := SkipBlanks(c, length, p);
    if q < length && c[q] <= ' ' { assert BlankEnd(c, length, q) == BlankEnd(c, length, q + 1); }
  }

  // Lists of texts

  function ListText(xs: seq<string>): string {
    if xs == [] then [] else xs[0] + (if |xs| > 1 then "," else []) + ListText(xs[1..])
  }

  /** The texts stand from p on, with commas between them, up to the sign that closes the list. */
  predicate ListStands(c: string, xs: seq<string>, p: nat, stop: nat, close: char)
    decreases |xs|
  {
    xs != [] &&
    var q := p + |xs[0]|;
    && q < stop <= |c| && c[p..q] == xs[0]
    && if |xs| == 1 then c[q] == close && stop == q + 1
       else c[q] == ',' && ListStands(c, xs[1..], q + 1, stop, close)
  }

  lemma {:induction false} ListIsText(c: string, xs: seq<string>, p: nat, stop: nat, close: char)
    requires ListStands(c, xs, p, stop, close)
    ensures p < stop && c[p..stop] == ListText(xs) + [close]
    decreases |xs|
  {
    var q := p + |xs[0]|;
    if |xs| == 1 {
      assert xs[1..] == [] && ListText(xs) == xs[0];
      LastText(c, p, q, stop, xs[0], close);
    } else {
      var next := q + 1;
      ListIsText(c, xs[1..], next, stop, close);
      NextText(c, p, q, next, stop, xs[0], ListText(xs[1..]), close);
    }
  }

  /** The last of a list, and what closes it. */
  lemma {:induction false} LastText(c: string, p: nat, q: nat, stop: nat, a: string, close: char)
    requires p <= q && stop == q + 1 <= |c| && c[p..q] == a && c[q] == close
    ensures c[p..stop] == a + [close]
  {
  }

  lemma {:induction false} ThreeSlices(c: string, p: nat, q: nat, s: nat, t: nat)
    requires p <= q <= s <= t <= |c|
    ensures c[p..t] == c[p..q] + c[q..s] + c[s..t]
  {
  }

  /** The first of a list, and the others behind a comma. */
  lemma {:induction false} NextText(
      c: string, p: nat, q: nat, next: nat, stop: nat, a: string, others: string, close: char)
    requires p <= q && next == q + 1 <= stop <= |c| && c[p..q] == a && c[q] == ','
    requires c[next..stop] == others + [close]
    ensures c[p..stop] == a + "," + others + [close]
  {
    ThreeSlices(c, p, q, next, stop);
    assert c[q..next] == ",";
    assert a + "," + (others + [close]) == a + "," + others + [close];
  }

  /** A list between its signs. */
  lemma {:induction false} Closed(c: string, p: nat, stop: nat, open: char, inner: string, close: char)
    requires p + 1 <= stop <= |c| && c[p] == open && c[p + 1..stop] == inner + [close]
    ensures c[p..stop] == [open] + inner + [close]
  {
    assert c[p..stop] == [c[p]] + c[p + 1..stop];
    assert [open] + (inner + [close]) == [open] + inner + [close];
  }

  // Arrays

  function CellText(e: Cell): string {
    e.before + e.x + e.after
  }

  function CellTexts(cells: seq<Cell>): (r: seq<string>)
    ensures |r| == |cells|
  {
    if cells == [] then [] else [CellText(cells[0])] + CellTexts(cells[1..])
  }

  lemma {:induction false} CellsAreList(cells: seq<Cell>)
    ensures CellsText(cells) == ListText(CellTexts(cells))
  {
    if cells != [] {
      CellsAreList(cells[1..]);
      assert CellTexts(cells)[1..] == CellTexts(cells[1..]);
    }
  }

  /** Each element, with blanks around it, is read as a value where it stands. */
  ghost predicate ElementsParsed(b: Input, cells: seq<Cell>, p: nat, depth: nat)
    requires Sound(b)
    decreases |cells|
  {
    cells == []
    || (CellParsed(b, cells[0], p, depth) && ElementsParsed(b, cells[1..], p + |CellText(cells[0])| + 1, depth))
  }

  predicate CellParsed(b: Input, e: Cell, p: nat, depth: nat)
    requires Sound(b)
  {
    var at := p + |e.before|;
    AllBlank(e.before) && AllBlank(e.after)
    && at <= b.length && ParseValue(b, at, depth) == Parsed(e.v, at + |e.x|)
  }

  /** One element and the gap behind it. */
  lemma {:induction false} ElementHasShape(b: Input, p: nat, depth: nat) returns (e: Cell, q: nat)
    requires Sound(b) && p <= b.length && ParseValue(b, Skip(b, p), depth).Parsed?
    ensures var v := ParseValue(b, Skip(b, p), depth);
      && e.v == v.value && q == Skip(b, v.offset) == p + |CellText(e)| && b.c[p..q] == CellText(e)
      && CellParsed(b, e, p, depth)
  {
    var at := Skip(b, p);
    var v := ParseValue(b, at, depth);
    q := Skip(b, v.offset);
    SkippedIsBlank(b.c, b.length, p);
    SkippedIsBlank(b.c, b.length, v.offset);
    e := Cell(b.c[p..at], b.c[at..v.offset], b.c[v.offset..q], v.value);
    ThreeSlices(b.c, p, at, v.offset, q);
  }

  /** One round of parse_array's loop. */
  lemma {:induction false} ElementsGoOn(b: Input, p: nat, depth: nat, next: nat)
    requires Sound(b) && p <= b.length && ParseElements(b, p, depth).Parsed?
    requires ParseValue(b, Skip(b, p), depth).Parsed? ==>
      next == Skip(b, ParseValue(b, Skip(b, p), depth).offset) + 1
    ensures var r, v := ParseElements(b, p, depth), ParseValue(b, Skip(b, p), depth);
      && v.Parsed? && p < next <= b.length
      && if b.c[next - 1] == ',' then
           var rest := ParseElements(b, next, depth);
           rest.Parsed? && r.value == [v.value] + rest.value && r.offset == rest.offset
         else b.c[next - 1] == ']' && r.value == [v.value] && r.offset == next
  {
  }

  /** What parse_array's loop reads. */
  lemma {:induction false} ElementsHaveShape(b: Input, p: nat, depth: nat, r: Parsed<seq<Value>>)
      returns (cells: seq<Cell>)
    requires Sound(b) && p <= b.length && r == ParseElements(b, p, depth) && r.Parsed?
    ensures ListStands(b.c, CellTexts(cells), p, r.offset, ']') && ElementsParsed(b, cells, p, depth)
    ensures CellValues(cells) == r.value && cells != []
    decreases b.length - p
  {
    var e, q := ElementHasShape(b, p, depth);
    var next := q + 1;
    ElementsGoOn(b, p, depth, next);
    if b.c[q] == ',' {
      var others := ElementsHaveShape(b, next, depth, ParseElements(b, next, depth));
      cells := [e] + others;
      MoreCells(b, p, q, next, r.offset, e, others, depth);
    } else {
      cells := [e];
      OneCell(b, p, q, next, e, depth);
    }
  }

  lemma {:induction false} OneCell(b: Input, p: nat, q: nat, next: nat, e: Cell, depth: nat)
    requires Sound(b) && q == p + |CellText(e)| && next == q + 1 <= |b.c|
    requires b.c[p..q] == CellText(e) && b.c[q] == ']' && CellParsed(b, e, p, depth)
    ensures ListStands(b.c, CellTexts([e]), p, next, ']') && ElementsParsed(b, [e], p, depth)
    ensures CellValues([e]) == [e.v]
  {
    OneOf(e);
    assert [e][1..] == [];
  }

  lemma {:induction false} MoreCells(
      b: Input, p: nat, q: nat, next: nat, stop: nat, e: Cell, others: seq<Cell>, depth: nat)
    requires Sound(b) && q == p + |CellText(e)| && next == q + 1 && next <= stop <= |b.c| && others != []
    requires b.c[p..q] == CellText(e) && b.c[q] == ',' && CellParsed(b, e, p, depth)
    requires ListStands(b.c, CellTexts(others), next, stop, ']') && ElementsParsed(b, others, next, depth)
    ensures ListStands(b.c, CellTexts([e] + others), p, stop, ']') && ElementsParsed(b, [e] + others, p, depth)
    ensures CellValues([e] + others) == [e.v] + CellValues(others)
  {
    CellInFront(e, others);
    CommaLies(b.c, CellTexts([e] + others), p, q, stop, ']');
  }

  lemma {:induction false} CommaLies(c: string, xs: seq<string>, p: nat, q: nat, stop: nat, close: char)
    requires |xs| > 1 && q == p + |xs[0]| < |c| && c[p..q] == xs[0] && c[q] == ',' && q < stop
    requires ListStands(c, xs[1..], q + 1, stop, close)
    ensures ListStands(c, xs, p, stop, close)
  {
    ListIsText(c, xs[1..], q + 1, stop, close);
  }

  lemma {:induction false} CellInFront(e: Cell, others: seq<Cell>)
    ensures var cells := [e] + others;
      && cells[0] == e && cells[1..] == others
      && CellTexts(cells)[0] == CellText(e) && CellTexts(cells)[1..] == CellTexts(others)
      && CellValues(cells) == [e.v] + CellValues(others)
  {
    assert ([e] + others)[1..] == others;
  }

  lemma {:induction false} OneOf(e: Cell)
    ensures CellTexts([e]) == [CellText(e)] && CellValues([e]) == [e.v]
  {
    assert [e][1..] == [];
  }

  lemma {:induction false} GapChangesNothing(b: Input, p: nat, depth: nat)
    requires Sound(b) && p <= b.length
    ensures ParseElements(b, Skip(b, p), depth) == ParseElements(b, p, depth)
  {
    SkippedOnce(b.c, b.length, p);
  }

  /** How parse_array goes on behind the bracket. */
  lemma {:induction false} ArrayGoesOn(b: Input, p: nat, depth: nat, next: nat, q: nat, r: Parsed<Value>)
    requires Sound(b) && p < b.length && b.c[p] == '[' && r == ParseValue(b, p, depth) && r.Parsed?
    requires next == p + 1 && q == Skip(b, next)
    ensures depth < NESTING_LIMIT && q < b.length
    ensures if b.c[q] == ']' then r == Parsed(Array([]), q + 1)
            else var s := ParseElements(b, next, depth + 1); s.Parsed? && r == Parsed(Array(s.value), s.offset)
  {
    GapChangesNothing(b, next, depth + 1);
  }

  /** A value that starts with a bracket is an array, and its text a bracketed list of the texts of its elements,
      each of them a value one level deeper. */
  lemma {:induction false} ArrayIsBracketed(b: Input, p: nat, depth: nat) returns (gap: string, cells: seq<Cell>)
    requires Sound(b) && p < b.length && b.c[p] == '[' && ParseValue(b, p, depth).Parsed?
    ensures var r := ParseValue(b, p, depth);
      && depth < NESTING_LIMIT && r.value == Array(CellValues(cells)) && AllBlank(gap)
      && b.c[p..r.offset] == "[" + (if cells == [] then gap else CellsText(cells)) + "]"
      && ElementsParsed(b, cells, p + 1, depth + 1)
  {
    var r, next := ParseValue(b, p, depth), p + 1;
    var q := Skip(b, next);
    SkippedIsBlank(b.c, b.length, next);
    gap := b.c[next..q];
    ArrayGoesOn(b, p, depth, next, q, r);
    if b.c[q] == ']' {
      cells := [];
      LastText(b.c, next, q, r.offset, gap, ']');
      Closed(b.c, p, r.offset, '[', gap, ']');
    } else {
      cells := ElementsHaveShape(b, next, depth + 1, ParseElements(b, next, depth + 1));
      ListIsText(b.c, CellTexts(cells), next, r.offset, ']');
      CellsAreList(cells);
      Closed(b.c, p, r.offset, '[', CellsText(cells), ']');
    }
  }

  // Objects

  function RowTexts(rows: seq<Row>): (r: seq<string>)
    ensures |r| == |rows|
  {
    if rows == [] then [] else [RowText(rows[0])] + RowTexts(rows[1..])
  }

  lemma {:induction false} RowsAreList(rows: seq<Row>)
    ensures RowsText(rows) == ListText(RowTexts(rows))
  {
    if rows != [] {
      RowsAreList(rows[1..]);
      assert RowTexts(rows)[1..] == RowTexts(rows[1..]);
    }
  }

  /** Each member, with blanks around its parts, is read as a name and a value where they stand. */
  ghost predicate MembersParsed(b: Input, rows: seq<Row>, p: nat, depth: nat)
    requires Sound(b)
    decreases |rows|
  {
    rows == []
    || (RowParsed(b, rows[0], p, depth) && MembersParsed(b, rows[1..], p + |RowText(rows[0])| + 1, depth))
  }

  predicate RowParsed(b: Input, r: Row, p: nat, depth: nat)
    requires Sound(b)
  {
    var quote := p + |r.before|;
    var behind := quote + |r.n|;
    && AllBlank(r.before) && AllBlank(r.colon) && b.quoted(quote) == Parsed(r.key, behind)
    && CellParsed(b, Cell(r.value, r.x, r.after, r.v), behind + |r.colon| + 1, depth)
  }

  lemma {:induction false} NameSlices(c: string, p: nat, q: nat, s: nat, t: nat, next: nat, stop: nat, rest: string)
    requires p <= q <= s <= t < next <= stop <= |c| && next == t + 1 && c[t] == ':' && c[next..stop] == rest
    ensures c[p..stop] == c[p..q] + c[q..s] + c[s..t] + ":" + rest
  {
    ThreeSlices(c, p, q, s, t);
    ThreeSlices(c, p, t, next, stop);
    assert c[t..next] == ":";
  }

  lemma {:induction false} RowOfCell(before: string, n: string, key: string, colon: string, e: Cell) returns (r: Row)
    ensures r == Row(before, n, key, colon, e.before, e.x, e.v, e.after)
    ensures before + n + colon + ":" + CellText(e) == RowText(r)
    ensures |RowText(r)| == |before| + |n| + |colon| + 1 + |CellText(e)|
  {
    r := Row(before, n, key, colon, e.before, e.x, e.v, e.after);
    assert before + n + colon + ":" + (e.before + e.x + e.after)
        == before + n + colon + ":" + e.before + e.x + e.after;
  }

  lemma {:induction false} RowIsParsed(
      b: Input, p: nat, quote: nat, behind: nat, next: nat, r: Row, e: Cell, depth: nat)
    requires Sound(b) && r == Row(r.before, r.n, r.key, r.colon, e.before, e.x, e.v, e.after)
    requires quote == p + |r.before| && behind == quote + |r.n| && next == behind + |r.colon| + 1
    requires AllBlank(r.before) && AllBlank(r.colon) && b.quoted(quote) == Parsed(r.key, behind)
    requires CellParsed(b, e, next, depth)
    ensures RowParsed(b, r, p, depth)
  {
    assert Cell(r.value, r.x, r.after, r.v) == e;
  }

  /** What parse_object's loop reads of one member. */
  lemma {:induction false} MemberGoesOn(
      b: Input, p: nat, depth: nat, m: Parsed<Entry<Value>>, key: Parsed<string>, colon: nat, next: nat)
    requires Sound(b) && p <= b.length && m == ParseMember(b, p, depth) && m.Parsed?
    requires key == b.quoted(Skip(b, p)) && (key.Parsed? ==> colon == Skip(b, key.offset) && next == colon + 1)
    ensures key.Parsed? && Skip(b, p) < key.offset <= colon < next <= b.length && b.c[colon] == ':'
    ensures var v := ParseValue(b, Skip(b, next), depth);
      v.Parsed? && m == Parsed(Entry(key.value, v.value), v.offset)
  {
  }

  /** One member and the gap behind it. */
  lemma {:induction false} MemberHasShape(b: Input, p: nat, depth: nat, m: Parsed<Entry<Value>>)
      returns (r: Row, q: nat)
    requires Sound(b) && p <= b.length && m == ParseMember(b, p, depth) && m.Parsed?
    ensures
      && Entry(r.key, r.v) == m.value && q == Skip(b, m.offset) == p + |RowText(r)| && b.c[p..q] == RowText(r)
      && RowParsed(b, r, p, depth)
  {
    var quote := Skip(b, p);
    var key := b.quoted(quote);
    var colon := Skip(b, key.offset);
    var next := colon + 1;
    MemberGoesOn(b, p, depth, m, key, colon, next);
    var e;
    e, q := ElementHasShape(b, next, depth);
    SkippedIsBlank(b.c, b.length, p);
    SkippedIsBlank(b.c, b.length, key.offset);
    var before, n, gap := b.c[p..quote], b.c[quote..key.offset], b.c[key.offset..colon];
    r := RowOfCell(before, n, key.value, gap, e);
    NameSlices(b.c, p, quote, key.offset, colon, next, q, CellText(e));
    RowIsParsed(b, p, quote, key.offset, next, r, e, depth);
  }

  /** One round of parse_object's loop. */
  lemma {:induction false} MembersGoOn(b: Input, p: nat, depth: nat, r: Parsed<seq<Entry<Value>>>)
      returns (m: Parsed<Entry<Value>>, q: nat, next: nat)
    requires Sound(b) && p <= b.length && r == ParseMembers(b, p, depth) && r.Parsed?
    ensures m == ParseMember(b, p, depth) && m.Parsed? && q == Skip(b, m.offset) && p < next == q + 1 <= b.length
    ensures if b.c[q] == ',' then
              var rest := ParseMembers(b, next, depth);
              rest.Parsed? && r.value == [m.value] + rest.value && r.offset == rest.offset
            else b.c[q] == '}' && r.value == [m.value] && r.offset == next
  {
    m := ParseMember(b, p, depth);
    q := Skip(b, m.offset);
    next := q + 1;
  }

  lemma {:induction false} MembersHaveShape(b: Input, p: nat, depth: nat, r: Parsed<seq<Entry<Value>>>)
      returns (rows: seq<Row>)
    requires Sound(b) && p <= b.length && r == ParseMembers(b, p, depth) && r.Parsed?
    ensures ListStands(b.c, RowTexts(rows), p, r.offset, '}') && MembersParsed(b, rows, p, depth)
    ensures RowValues(rows) == r.value && rows != []
    decreases b.length - p
  {
    var m, q, next := MembersGoOn(b, p, depth, r);
    var e, stop := MemberHasShape(b, p, depth, m);
    if b.c[q] == ',' {
      var rest := ParseMembers(b, next, depth);
      var others := MembersHaveShape(b, next, depth, rest);
      rows := [e] + others;
      MoreRows(b, p, q, next, r.offset, e, others, depth);
    } else {
      rows := [e];
      OneRow(b, p, q, next, e, depth);
    }
  }

  lemma {:induction false} OneRow(b: Input, p: nat, q: nat, next: nat, e: Row, depth: nat)
    requires Sound(b) && q == p + |RowText(e)| && next == q + 1 <= |b.c|
    requires b.c[p..q] == RowText(e) && b.c[q] == '}' && RowParsed(b, e, p, depth)
    ensures ListStands(b.c, RowTexts([e]), p, next, '}') && MembersParsed(b, [e], p, depth)
    ensures RowValues([e]) == [Entry(e.key, e.v)]
  {
    OneRowOf(e);
    assert [e][1..] == [];
  }

  lemma {:induction false} MoreRows(
      b: Input, p: nat, q: nat, next: nat, stop: nat, e: Row, others: seq<Row>, depth: nat)
    requires Sound(b) && q == p + |RowText(e)| && next == q + 1 && next <= stop <= |b.c| && others != []
    requires b.c[p..q] == RowText(e) && b.c[q] == ',' && RowParsed(b, e, p, depth)
    requires ListStands(b.c, RowTexts(others), next, stop, '}') && MembersParsed(b, others, next, depth)
    ensures ListStands(b.c, RowTexts([e] + others), p, stop, '}') && MembersParsed(b, [e] + others, p, depth)
    ensures RowValues([e] + others) == [Entry(e.key, e.v)] + RowValues(others)
  {
    RowInFront(e, others);
    CommaLies(b.c, RowTexts([e] + others), p, q, stop, '}');
  }

  lemma {:induction false} RowInFront(r: Row, others: seq<Row>)
    ensures var rows := [r] + others;
      && rows[0] == r && rows[1..] == others
      && RowTexts(rows)[0] == RowText(r) && RowTexts(rows)[1..] == RowTexts(others)
      && RowValues(rows) == [Entry(r.key, r.v)] + RowValues(others)
  {
    assert ([r] + others)[1..] == others;
  }

  lemma {:induction false} OneRowOf(r: Row)
    ensures RowTexts([r]) == [RowText(r)] && RowValues([r]) == [Entry(r.key, r.v)]
  {
    assert [r][1..] == [];
  }

  lemma {:induction false} GapChangesNoMember(b: Input, p: nat, depth: nat)
    requires Sound(b) && p <= b.length
    ensures ParseMembers(b, Skip(b, p), depth) == ParseMembers(b, p, depth)
  {
    SkippedOnce(b.c, b.length, p);
    assert ParseMember(b, Skip(b, p), depth) == ParseMember(b, p, depth);
  }

  /** How parse_object goes on behind the brace. */
  lemma {:induction false} ObjectGoesOn(b: Input, p: nat, depth: nat, next: nat, q: nat, r: Parsed<Value>)
    requires Sound(b) && p < b.length && b.c[p] == '{' && r == ParseValue(b, p, depth) && r.Parsed?
    requires next == p + 1 && q == Skip(b, next)
    ensures depth < NESTING_LIMIT && q < b.length
    ensures if b.c[q] == '}' then r == Parsed(Object([]), q + 1)
            else var s := ParseMembers(b, next, depth + 1); s.Parsed? && r == Parsed(Object(s.value), s.offset)
  {
    GapChangesNoMember(b, next, depth + 1);
  }

  /** A value that starts with a brace is an object, and its text a braced list of names and values. */
  lemma {:induction false} ObjectIsBraced(b: Input, p: nat, depth: nat) returns (gap: string, rows: seq<Row>)
    requires Sound(b) && p < b.length && b.c[p] == '{' && ParseValue(b, p, depth).Parsed?
    ensures var r := ParseValue(b, p, depth);
      && depth < NESTING_LIMIT && r.value == Object(RowValues(rows)) && AllBlank(gap)
      && b.c[p..r.offset] == "{" + (if rows == [] then gap else RowsText(rows)) + "}"
      && MembersParsed(b, rows, p + 1, depth + 1)
  {
    var r, next := ParseValue(b, p, depth), p + 1;
    var q := Skip(b, next);
    SkippedIsBlank(b.c, b.length, next);
    gap := b.c[next..q];
    ObjectGoesOn(b, p, depth, next, q, r);
    if b.c[q] == '}' {
      rows := [];
      LastText(b.c, next, q, r.offset, gap, '}');
      Closed(b.c, p, r.offset, '{', gap, '}');
    } else {
      rows := MembersHaveShape(b, next, depth + 1, ParseMembers(b, next, depth + 1));
      ListIsText(b.c, RowTexts(rows), next, r.offset, '}');
      RowsAreList(rows);
      Closed(b.c, p, r.offset, '{', RowsText(rows), '}');
    }
  }

  // Words

  lemma {:induction false} LiteralIsText(c: string, length: nat, p: nat, s: string)
    requires p <= length <= |c| && Literal(c, length, p, s)
    ensures p + |s| <= length && c[p..p + |s|] == s
    decreases |s|
  {
    if s != [] {
      LiteralIsText(c, length, p + 1, s[1..]);
      assert c[p..p + |s|] == [c[p]] + c[p + 1..p + |s|];
      assert s == [s[0]] + s[1..];
    }
  }

  /** A number is read from a text of the form of a number, as its value; the text may go on behind it only where
      the form ends or 63 characters are read. */
  lemma {:induction false} NumberIsForm(c: string, length: nat, p: nat) returns (f: NumberForm)
    requires p < length <= |c| && (c[p] == '-' || IsDigit(c[p])) && ParseNumber(c, length, p).Parsed?
    ensures FormFits(f) && |FormText(f)| <= LONGEST_NUMBER
    ensures var r := ParseNumber(c, length, p); r.value == Number(IntOf(f)) && c[p..r.offset] == FormText(f)
  {
    var s := NumberText(c, length, p, LONGEST_NUMBER);
    NumberTextIsShort(c, length, p, LONGEST_NUMBER);
    NumberTextIsSlice(c, length, p, LONGEST_NUMBER);
    f := StrtodIsForm(s);
    SliceOfSlice(c, p, s, Strtod(s).0);
  }

  lemma {:induction false} SliceOfSlice(c: string, p: nat, s: string, n: nat)
    requires p + |s| <= |c| && c[p..p + |s|] == s && n <= |s|
    ensures c[p..p + n] == s[..n]
  {
  }

  /** A value that is no list is null, false or true, a quoted text, or a number. */
  lemma {:induction false} WordIsKnown(c: string, length: nat, p: nat)
    requires Readable(c, length) && p <= length && ParseScalar(c, length, p).Parsed?
    ensures var r := ParseScalar(c, length, p);
      var x := c[p..r.offset];
      || (r.value.Null? && x == "null") || (r.value.False? && x == "false") || (r.value.True? && x == "true")
      || (r.value.String? && |x| >= 2 && x[0] == '\"' && x[|x| - 1] == '\"')
      || (r.value.Number? && exists f: NumberForm {:trigger FormText(f)} ::
            FormFits(f) && x == FormText(f) && r.value == Number(IntOf(f)))
  {
    if Literal(c, length, p, "null") {
      LiteralIsText(c, length, p, "null");
    } else if Literal(c, length, p, "false") {
      LiteralIsText(c, length, p, "false");
    } else if Literal(c, length, p, "true") {
      LiteralIsText(c, length, p, "true");
    } else if c[p] == '\"' {
      QuotesAround(c, length, p);
    } else {
      var f := NumberIsForm(c, length, p);
    }
  }

  lemma {:induction false} QuotesAround(c: string, length: nat, p: nat)
    requires p < length <= |c| && ParseString(c, length, p).Parsed?
    ensures var x := c[p..ParseString(c, length, p).offset]; |x| >= 2 && x[0] == '\"' && x[|x| - 1] == '\"'
  {
    var end := StringEnd(c, length, p + 1).value;
    var x := c[p..end + 1];
    assert x[0] == c[p] && x[|x| - 1] == c[end];
  }
}
