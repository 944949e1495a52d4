/** What the minifier takes out: blanks and comments, wherever they stand between the signs of a text. */
module CommentTexts {
  import opened CText
  import opened Scanning
  import opened Parsing
  import opened Minifying
  import opened MinifyPrinted
  import opened StringTexts
  import opened NumberTexts
  import opened JsonTexts
  import opened TextParsing

  // Comments

  predicate OneLine(x: string) {
    '\n' !in x
  }

  /** The end of a block comment does not come before its own: also the last character of x and the star that
      ends the comment do not make one. */
  predicate NoBlockEnd(x: string) {
    forall i :: 0 <= i < |x| && x[i] == '*' ==> i + 1 == |x| || x[i + 1] != '/'
  }

  lemma {:induction false} LineEnds(x: string, b: string)
    requires OneLine(x)
    ensures AfterLine(x + "\n" + b) == b && AfterLine(x) == []
  {
    var s := x + "\n" + b;
    if x == [] {
      assert s[1..] == b;
    } else {
      assert s[1..] == x[1..] + "\n" + b;
      LineEnds(x[1..], b);
    }
  }

  lemma {:induction false} BlockEnds(x: string, b: string)
    requires NoBlockEnd(x)
    ensures AfterBlock(x + "*/" + b) == b && AfterBlock(x) == []
  {
    var s := x + "*/" + b;
    if x == [] {
      assert s[2..] == b;
    } else {
      assert s[1..] == x[1..] + "*/" + b;
      assert s[0] == x[0] && s[1] == if |x| > 1 then x[1] else '*';
      RestHasNoEnd(x);
      BlockEnds(x[1..], b);
    }
  }

  lemma {:induction false} RestHasNoEnd(x: string)
    requires x != [] && NoBlockEnd(x)
    ensures NoBlockEnd(x[1..])
  {
    forall i | 0 <= i < |x[1..]| && x[1..][i] == '*' ensures i + 1 == |x[1..]| || x[1..][i + 1] != '/' {
      assert x[i + 1] == '*';
    }
  }

  /** A line comment is dropped up to its newline, a block comment up to its first end; one that does not end takes
      the rest of the text with it. A slash that starts neither is dropped alone. */
  lemma {:induction false} CommentsAreDropped(x: string, b: string)
    ensures OneLine(x) ==> Kept("//" + x + "\n" + b, false) == Kept(b, false) && Kept("//" + x, false) == []
    ensures NoBlockEnd(x) ==> Kept("/*" + x + "*/" + b, false) == Kept(b, false) && Kept("/*" + x, false) == []
    ensures b == [] || (b[0] != '/' && b[0] != '*') ==> Kept("/" + b, false) == Kept(b, false)
  {
    if OneLine(x) {
      LineEnds(x, b);
      OpenerGoes("//" + x + "\n" + b, '/', x + "\n" + b);
      OpenerGoes("//" + x, '/', x);
    }
    if NoBlockEnd(x) {
      BlockEnds(x, b);
      OpenerGoes("/*" + x + "*/" + b, '*', x + "*/" + b);
      OpenerGoes("/*" + x, '*', x);
    }
    assert ("/" + b)[1..] == b;
  }

  lemma {:induction false} OpenerGoes(all: string, second: char, rest: string)
    requires all == ['/', second] + rest && (second == '/' || second == '*')
    ensures Kept(all, false) == Kept(if second == '/' then AfterLine(rest) else AfterBlock(rest), false)
  {
    assert all[2..] == rest;
  }

  // Gaps

  datatype GapPart = BlankOf(c: char) | LineComment(x: string) | BlockComment(x: string)

  predicate GapPartFits(g: GapPart) {
    match g
    case BlankOf(x) => x == ' ' || x == '\t' || x == '\r' || x == '\n'
    case LineComment(x) => OneLine(x)
    case BlockComment(x) => NoBlockEnd(x)
  }

  function GapPartText(g: GapPart): string {
    match g
    case BlankOf(x) => [x]
    case LineComment(x) => "//" + x + "\n"
    case BlockComment(x) => "/*" + x + "*/"
  }

  predicate AllGapPartsFit(gs: seq<GapPart>) {
    gs == [] || (GapPartFits(gs[0]) && AllGapPartsFit(gs[1..]))
  }

  function GapText(gs: seq<GapPart>): string {
    if gs == [] then [] else GapPartText(gs[0]) + GapText(gs[1..])
  }

  /** Blanks and comments. */
  ghost predicate Skippable(gap: string) {
    exists gs: seq<GapPart> :: AllGapPartsFit(gs) && gap == GapText(gs)
  }

  lemma {:induction false} GapPartTurns(g: GapPart)
    requires GapPartFits(g)
    ensures Turns(GapPartText(g), "", false, false)
  {
    match g
    case BlankOf(x) => BlankTurns(x);
    case LineComment(x) =>
      forall rest: string ensures TurnsAt(GapPartText(g), "", false, false, rest) {
        CommentsAreDropped(x, rest);
        assert "" + Kept(rest, false) == Kept(rest, false);
      }
    case BlockComment(x) =>
      forall rest: string ensures TurnsAt(GapPartText(g), "", false, false, rest) {
        CommentsAreDropped(x, rest);
        assert "" + Kept(rest, false) == Kept(rest, false);
      }
  }

  lemma {:induction false} GapPartsTurn(gs: seq<GapPart>)
    requires AllGapPartsFit(gs)
    ensures Turns(GapText(gs), "", false, false)
  {
    if gs == [] {
      TurnsNothing(false);
    } else {
      GapPartTurns(gs[0]);
      GapPartsTurn(gs[1..]);
      TurnsJoin(GapPartText(gs[0]), "", GapText(gs[1..]), "", false, false, false);
      assert "" + "" == "";
    }
  }

  lemma {:induction false} GapTurns(gap: string)
    requires Skippable(gap)
    ensures Turns(gap, "", false, false)
  {
    var gs: seq<GapPart> :| AllGapPartsFit(gs) && gap == GapText(gs);
    GapPartsTurn(gs);
  }

  // Strings

  /** The literal does not end in a backslash, which the minifier would take to escape the closing quote. */
  predicate Tame(xs: seq<Part>) {
    xs != [] ==> xs[|xs| - 1] != Escaped('\\')
  }

  lemma {:induction false} UnitTurns(hex: seq<Nibble>)
    requires FourDigits(hex)
    ensures Turns(UnitText(hex), UnitText(hex), true, true)
  {
    var digits := [DigitChar(hex[0]), DigitChar(hex[1]), DigitChar(hex[2]), DigitChar(hex[3])];
    DigitIsRead(hex[0]);
    DigitIsRead(hex[1]);
    DigitIsRead(hex[2]);
    DigitIsRead(hex[3]);
    EscapeLetterTurns('u');
    PlainTextTurns(digits);
    TurnsJoin(['\\', 'u'], ['\\', 'u'], digits, digits, true, true, true);
    assert UnitText(hex) == ['\\', 'u'] + digits;
  }

  /** Every part but an escaped backslash, whatever follows. */
  lemma {:induction false} PartTurns(x: Part)
    requires PartFits(x) && x != Escaped('\\')
    ensures Turns(PartText(x), PartText(x), true, true)
  {
    match x
    case Bare(c) => QuotedTurns(c);
    case Escaped(letter) => if letter == '\"' { EscapedQuoteTurns(); } else { EscapeLetterTurns(letter); }
    case Unit(hex) => UnitTurns(hex);
    case Pair(high, low) =>
      UnitTurns(high);
      UnitTurns(low);
      TurnsJoin(UnitText(high), UnitText(high), UnitText(low), UnitText(low), true, true, true);
  }

  /** A literal from a part on, with its closing quote. */
  lemma {:induction false} PartsTurn(xs: seq<Part>)
    requires AllFit(xs) && Tame(xs)
    ensures Turns(PartsText(xs) + "\"", PartsText(xs) + "\"", true, false)
    decreases |xs|
  {
    if xs == [] {
      QuoteCloses();
      assert PartsText(xs) + "\"" == "\"";
    } else {
      var a, tail := PartText(xs[0]), PartsText(xs[1..]) + "\"";
      assert PartsText(xs) + "\"" == a + tail;
      PartsTurn(xs[1..]);
      if xs[0] == Escaped('\\') {
        NoQuoteNext(xs[1..]);
        BackslashTurns(tail, false);
      } else {
        PartTurns(xs[0]);
        TurnsJoin(a, a, tail, tail, true, true, false);
      }
    }
  }

  lemma {:induction false} NoQuoteNext(xs: seq<Part>)
    requires AllFit(xs) && xs != []
    ensures (PartsText(xs) + "\"")[0] != '\"'
  {
    assert PartsText(xs)[0] == PartText(xs[0])[0];
  }

  lemma {:induction false} QuoteCloses()
    ensures Turns("\"", "\"", true, false) && Turns("\"", "\"", false, true)
  {
    forall rest: string ensures TurnsAt("\"", "\"", true, false, rest) { assert ("\"" + rest)[1..] == rest; }
    forall rest: string ensures TurnsAt("\"", "\"", false, true, rest) { assert ("\"" + rest)[1..] == rest; }
  }

  lemma {:induction false} LiteralTurns(xs: seq<Part>)
    requires AllFit(xs) && Tame(xs)
    ensures Turns(LiteralText(xs), LiteralText(xs), false, false)
  {
    var tail := PartsText(xs) + "\"";
    QuoteCloses();
    PartsTurn(xs);
    TurnsJoin("\"", "\"", tail, tail, false, true, false);
    assert LiteralText(xs) == "\"" + tail;
  }

  // Texts

  /** Blanks and comments between the signs, and literals that the minifier sees the end of. */
  ghost predicate Commented(t: Text)
    decreases t
  {
    match t
    case StringOf(parts) => Tame(parts)
    case ArrayOf(gap, slots) => Skippable(gap) && SlotsCommented(slots)
    case ObjectOf(gap, fields) => Skippable(gap) && FieldsCommented(fields)
    case _ => true
  }

  ghost predicate SlotsCommented(slots: seq<Slot>)
    decreases slots
  {
    slots == []
    || (&& Skippable(slots[0].before) && Skippable(slots[0].after) && Commented(slots[0].text)
        && SlotsCommented(slots[1..]))
  }

  ghost predicate FieldsCommented(fields: seq<Field>)
    decreases fields
  {
    fields == []
    || (&& Skippable(fields[0].before) && Skippable(fields[0].colon) && Skippable(fields[0].value)
        && Skippable(fields[0].after) && Tame(fields[0].name) && Commented(fields[0].text)
        && FieldsCommented(fields[1..]))
  }

  /** The same text without its gaps. */
  function Stripped(t: Text): (r: Text)
    requires WellFormed(t)
    ensures WellFormed(r)
    decreases t
  {
    match t
    case ArrayOf(_, slots) => ArrayOf([], SlotsStripped(slots))
    case ObjectOf(_, fields) => ObjectOf([], FieldsStripped(fields))
    case _ => t
  }

  function SlotsStripped(slots: seq<Slot>): (r: seq<Slot>)
    requires SlotsWellFormed(slots)
    ensures SlotsWellFormed(r) && |r| == |slots|
    decreases slots
  {
    if slots == [] then [] else [Slot([], Stripped(slots[0].text), [])] + SlotsStripped(slots[1..])
  }

  function FieldsStripped(fields: seq<Field>): (r: seq<Field>)
    requires FieldsWellFormed(fields)
    ensures FieldsWellFormed(r) && |r| == |fields|
    decreases fields
  {
    if fields == [] then []
    else [Field([], fields[0].name, [], [], Stripped(fields[0].text), [])] + FieldsStripped(fields[1..])
  }

  lemma {:induction false} WordTurns(t: Text)
    requires WellFormed(t) && Commented(t) && !t.ArrayOf? && !t.ObjectOf?
    ensures Turns(TextOf(t), TextOf(t), false, false)
  {
    match t
    case StringOf(parts) => LiteralTurns(parts);
    case NumberOf(form) =>
      FormIsNumberChars(form);
      AllVerbatimTurns(FormText(form));
    case NullText => AllVerbatimTurns("null");
    case FalseText => AllVerbatimTurns("false");
    case TrueText => AllVerbatimTurns("true");
  }

  /** A gap, a text, and a gap. */
  lemma {:induction false} BetweenGaps(before: string, a: string, b: string, after: string)
    requires Turns(before, "", false, false) && Turns(a, b, false, false) && Turns(after, "", false, false)
    ensures Turns(before + a + after, b, false, false)
  {
    TurnsJoin(before, "", a, b, false, false, false);
    TurnsJoin(before + a, "" + b, after, "", false, false, false);
    assert "" + b + "" == b;
  }

  lemma {:induction false} SignTurns(sign: char)
    requires Verbatim(sign)
    ensures Turns([sign], [sign], false, false)
  {
    VerbatimTurns(sign);
  }

  lemma {:induction false} BracketsTurn(open: char, a: string, b: string, close: char)
    requires Verbatim(open) && Verbatim(close) && Turns(a, b, false, false)
    ensures Turns([open] + a + [close], [open] + b + [close], false, false)
  {
    VerbatimTurns(open);
    VerbatimTurns(close);
    TurnsJoin([open], [open], a, b, false, false, false);
    TurnsJoin([open] + a, [open] + b, [close], [close], false, false, false);
  }

  lemma {:induction false} CommaTurns(more: bool)
    ensures var s := if more then "," else []; Turns(s, s, false, false)
  {
    if more { VerbatimTurns(','); } else { TurnsNothing(false); }
  }

  /** The first of a list, a comma if there are others, and the others. */
  lemma {:induction false} ListTurns(
      a: string, b: string, more: bool, others: string, kept: string, x: string, y: string)
    requires Turns(a, b, false, false) && Turns(others, kept, false, false)
    requires var s := if more then "," else []; x == a + s + others && y == b + s + kept
    ensures Turns(x, y, false, false)
  {
    var s := if more then "," else [];
    CommaTurns(more);
    TurnsJoin(a, b, s, s, false, false, false);
    TurnsJoin(a + s, b + s, others, kept, false, false, false);
  }

  /** Minifying a text leaves it without its gaps, whatever follows. */
  lemma {:induction false} TextTurns(t: Text)
    requires WellFormed(t) && Commented(t)
    ensures Turns(TextOf(t), TextOf(Stripped(t)), false, false)
    decreases t, 1
  {
    match t
    case ArrayOf(gap, slots) =>
      SlotsTurn(slots);
      GapTurns(gap);
      BracketsTurn('[', if slots == [] then gap else SlotsText(slots),
                   if slots == [] then [] else SlotsText(SlotsStripped(slots)), ']');
    case ObjectOf(gap, fields) =>
      FieldsTurn(fields);
      GapTurns(gap);
      BracketsTurn('{', if fields == [] then gap else FieldsText(fields),
                   if fields == [] then [] else FieldsText(FieldsStripped(fields)), '}');
    case _ => WordTurns(t);
  }

  lemma {:induction false} SlotsTurn(slots: seq<Slot>)
    requires SlotsWellFormed(slots) && SlotsCommented(slots)
    ensures Turns(SlotsText(slots), SlotsText(SlotsStripped(slots)), false, false)
    decreases slots, 0
  {
    if slots == [] {
      TurnsNothing(false);
    } else {
      var s, bare := slots[0], TextOf(Stripped(slots[0].text));
      TextTurns(s.text);
      GapTurns(s.before);
      GapTurns(s.after);
      BetweenGaps(s.before, TextOf(s.text), bare, s.after);
      SlotsTurn(slots[1..]);
      FirstStripped(slots);
      ListTurns(SlotText(s), bare, |slots| > 1, SlotsText(slots[1..]), SlotsText(SlotsStripped(slots[1..])),
                SlotsText(slots), SlotsText(SlotsStripped(slots)));
    }
  }

  lemma {:induction false} FirstStripped(slots: seq<Slot>)
    requires SlotsWellFormed(slots) && slots != []
    ensures SlotsText(slots) == SlotText(slots[0]) + (if |slots| > 1 then "," else []) + SlotsText(slots[1..])
    ensures SlotsText(SlotsStripped(slots))
         == TextOf(Stripped(slots[0].text)) + (if |slots| > 1 then "," else []) + SlotsText(SlotsStripped(slots[1..]))
  {
    var r := SlotsStripped(slots);
    assert r[1..] == SlotsStripped(slots[1..]);
    assert SlotText(r[0]) == TextOf(Stripped(slots[0].text));
  }

  /** A member: its name, the colon and its value, each between gaps. */
  lemma {:induction false} FieldTurns(f: Field)
    requires AllFit(f.name) && Tame(f.name) && WellFormed(f.text)
    requires Skippable(f.before) && Skippable(f.colon) && Skippable(f.value) && Skippable(f.after)
    requires Turns(TextOf(f.text), TextOf(Stripped(f.text)), false, false)
    ensures Turns(FieldText(f), LiteralText(f.name) + ":" + TextOf(Stripped(f.text)), false, false)
  {
    LiteralTurns(f.name);
    GapTurns(f.before);
    GapTurns(f.colon);
    GapTurns(f.value);
    GapTurns(f.after);
    MemberTurns(f.before, LiteralText(f.name), f.colon, f.value, TextOf(f.text), TextOf(Stripped(f.text)), f.after);
  }

  lemma {:induction false} MemberTurns(
      before: string, n: string, colon: string, value: string, x: string, y: string, after: string)
    requires Turns(before, "", false, false) && Turns(n, n, false, false) && Turns(colon, "", false, false)
    requires Turns(value, "", false, false) && Turns(x, y, false, false) && Turns(after, "", false, false)
    ensures Turns(before + n + colon + ":" + value + x + after, n + ":" + y, false, false)
  {
    var front := before + n + colon + ":";
    VerbatimTurns(':');
    BetweenGaps(before, n, n, colon);
    BetweenGaps(value, x, y, after);
    TurnsJoin(before + n + colon, n, ":", ":", false, false, false);
    TurnsJoin(front, n + ":", value + x + after, y, false, false, false);
    assert front + value + x + after == front + (value + x + after);
  }

  lemma {:induction false} FieldsTurn(fields: seq<Field>)
    requires FieldsWellFormed(fields) && FieldsCommented(fields)
    ensures Turns(FieldsText(fields), FieldsText(FieldsStripped(fields)), false, false)
    decreases fields, 0
  {
    if fields == [] {
      TurnsNothing(false);
    } else {
      var f := fields[0];
      var bare := LiteralText(f.name) + ":" + TextOf(Stripped(f.text));
      TextTurns(f.text);
      FieldTurns(f);
      FieldsTurn(fields[1..]);
      FirstFieldStripped(fields);
      ListTurns(FieldText(f), bare, |fields| > 1, FieldsText(fields[1..]), FieldsText(FieldsStripped(fields[1..])),
                FieldsText(fields), FieldsText(FieldsStripped(fields)));
    }
  }

  lemma {:induction false} FirstFieldStripped(fields: seq<Field>)
    requires FieldsWellFormed(fields) && fields != []
    ensures FieldsText(fields) == FieldText(fields[0]) + (if |fields| > 1 then "," else []) + FieldsText(fields[1..])
    ensures FieldsText(FieldsStripped(fields))
         == LiteralText(fields[0].name) + ":" + TextOf(Stripped(fields[0].text)) + (if |fields| > 1 then "," else [])
            + FieldsText(FieldsStripped(fields[1..]))
  {
    var r := FieldsStripped(fields);
    assert r[1..] == FieldsStripped(fields[1..]);
    WithoutGaps(LiteralText(fields[0].name), TextOf(Stripped(fields[0].text)));
  }

  lemma {:induction false} WithoutGaps(n: string, x: string)
    ensures [] + n + [] + ":" + [] + x + [] == n + ":" + x
  {
  }

  /** What is left stands for the same tree. */
  lemma {:induction false} StrippedIsSame(t: Text, room: nat)
    requires WellFormed(t)
    ensures ValueOf(Stripped(t)) == ValueOf(t)
    ensures Fits(t, room) ==> Parseable(Stripped(t), room)
    decreases t, 1
  {
    match t
    case ArrayOf(_, slots) => SlotsStrippedAreSame(slots, if room > 0 then room - 1 else 0);
    case ObjectOf(_, fields) => FieldsStrippedAreSame(fields, if room > 0 then room - 1 else 0);
    case _ =>
  }

  lemma {:induction false} SlotsStrippedAreSame(slots: seq<Slot>, room: nat)
    requires SlotsWellFormed(slots)
    ensures SlotValues(SlotsStripped(slots)) == SlotValues(slots)
    ensures SlotsFit(slots, room) ==> SlotsParseable(SlotsStripped(slots), room)
    decreases slots, 0
  {
    if slots != [] {
      StrippedIsSame(slots[0].text, room);
      SlotsStrippedAreSame(slots[1..], room);
      assert SlotsStripped(slots)[1..] == SlotsStripped(slots[1..]);
    }
  }

  lemma {:induction false} FieldsStrippedAreSame(fields: seq<Field>, room: nat)
    requires FieldsWellFormed(fields)
    ensures FieldValues(FieldsStripped(fields)) == FieldValues(fields)
    ensures FieldsFit(fields, room) ==> FieldsParseable(FieldsStripped(fields), room)
    decreases fields, 0
  {
    if fields != [] {
      StrippedIsSame(fields[0].text, room);
      FieldsStrippedAreSame(fields[1..], room);
      assert FieldsStripped(fields)[1..] == FieldsStripped(fields[1..]);
    }
  }

  /** The limits of the parser, without a word about the gaps. */
  predicate Fits(t: Text, room: nat)
    decreases t
  {
    match t
    case NumberOf(form) => |FormText(form)| <= LONGEST_NUMBER
    case ArrayOf(_, slots) => room > 0 && SlotsFit(slots, room - 1)
    case ObjectOf(_, fields) => room > 0 && FieldsFit(fields, room - 1)
    case _ => true
  }

  predicate SlotsFit(slots: seq<Slot>, room: nat)
    decreases slots
  {
    slots == [] || (Fits(slots[0].text, room) && SlotsFit(slots[1..], room))
  }

  predicate FieldsFit(fields: seq<Field>, room: nat)
    decreases fields
  {
    fields == [] || (Fits(fields[0].text, room) && FieldsFit(fields[1..], room))
  }

  lemma {:induction false} StrippedIsLeft(lead: string, t: Text, tail: string)
    requires WellFormed(t) && Commented(t) && Skippable(lead) && Skippable(tail)
    ensures Kept(lead + TextOf(t) + tail, false) == TextOf(Stripped(t))
  {
    GapTurns(lead);
    GapTurns(tail);
    TextTurns(t);
    BetweenGaps(lead, TextOf(t), TextOf(Stripped(t)), tail);
    AloneTurns(lead + TextOf(t) + tail, TextOf(Stripped(t)));
  }

  lemma {:induction false} AloneTurns(all: string, kept: string)
    requires Turns(all, kept, false, false)
    ensures Kept(all, false) == kept
  {
    assert TurnsAt(all, kept, false, false, []);
    assert all + [] == all && kept + [] == kept;
  }

  lemma {:induction false} StrippedIsParsed(t: Text)
    requires WellFormed(t) && Fits(t, NESTING_LIMIT)
    ensures var c := TextOf(Stripped(t)) + [NUL]; ParseText(c, |c|, true) == Parsed(ValueOf(t), |c| - 1)
  {
    var bare := TextOf(Stripped(t));
    StrippedIsSame(t, NESTING_LIMIT);
    EveryTextIsParsed(false, [], Stripped(t), []);
    assert [] + ([] + (bare + [])) + [NUL] == bare + [NUL];
  }

  /** Minifying a text with blanks and comments around and inside leaves exactly the text without them, which is
      parsed to the tree that the text stands for. */
  lemma {:induction false} MinifyStripsText(lead: string, t: Text, tail: string)
    requires WellFormed(t) && Commented(t) && Skippable(lead) && Skippable(tail)
    ensures var kept := Kept(lead + TextOf(t) + tail, false);
      && kept == TextOf(Stripped(t))
      && (Fits(t, NESTING_LIMIT) ==> ParseText(kept + [NUL], |kept| + 1, true) == Parsed(ValueOf(t), |kept|))
  {
    StrippedIsLeft(lead, t, tail);
    if Fits(t, NESTING_LIMIT) { StrippedIsParsed(t); }
  }
}
