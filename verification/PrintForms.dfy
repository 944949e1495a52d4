/** The form of printed text: which escape stands for a character, and how far each line is indented. */
module PrintForms {
  import opened Json
  import opened Rendering
  import opened ParsePrinted
  import opened StringTexts

  // Escapes

  /** The one part that a character is printed as: itself, the two-character escape if there is one, and else a
      \u escape in lower-case digits. A slash stands for itself. */
  predicate FormOf(c: char, x: Part) {
    match x
    case Bare(b) => b == c && c >= ' ' && c != '\"' && c != '\\'
    case Escaped(letter) => letter in ESCAPES && ESCAPES[letter] == c && c != '/'
    case Unit(hex) =>
      && FourDigits(hex) && !hex[0].upper && !hex[1].upper && !hex[2].upper && !hex[3].upper
      && Code(hex) == c as nat && c < ' ' && c !in ESCAPES.Values
    case Pair(_, _) => false
  }

  lemma {:induction false} HasOneForm(c: char, x: Part, y: Part)
    requires FormOf(c, x) && FormOf(c, y)
    ensures PartFits(x) && PartText(x) == PartText(y) == EscapeChar(c)
  {
    FormIsPrinted(c, x);
    FormIsPrinted(c, y);
  }

  lemma {:induction false} FormIsPrinted(c: char, x: Part)
    requires FormOf(c, x)
    ensures PartFits(x) && PartText(x) == EscapeChar(c)
  {
    match x
    case Bare(b) =>
    case Escaped(letter) =>
    case Unit(hex) =>
      EscapedValues();
      LowerDigits(hex);
  }

  lemma {:induction false} EscapedValues()
    ensures ESCAPES['b'] in ESCAPES.Values && ESCAPES['f'] in ESCAPES.Values && ESCAPES['n'] in ESCAPES.Values
    ensures ESCAPES['r'] in ESCAPES.Values && ESCAPES['t'] in ESCAPES.Values
  {
  }

  lemma {:induction false} LowerDigit(n: Nibble)
    requires n.value < 16 && !n.upper
    ensures DigitChar(n) == HexDigit(n.value)
  {
  }

  lemma {:induction false} LowerDigits(hex: seq<Nibble>)
    requires FourDigits(hex) && !hex[0].upper && !hex[1].upper && !hex[2].upper && !hex[3].upper
    requires Code(hex) < 32
    ensures UnitText(hex) == "\\u" + Hex4(Code(hex) as char)
  {
    LowerDigit(hex[0]);
    LowerDigit(hex[1]);
    LowerDigit(hex[2]);
    LowerDigit(hex[3]);
    assert hex[0].value == 0 && hex[1].value == 0 && hex[2].value < 2;
  }

  /** Every character has a form. */
  lemma {:induction false} FormExists(c: char) returns (x: Part)
    ensures FormOf(c, x)
  {
    if Plain(c) {
      x := Bare(c);
    } else if ShortEscape(c).Some? {
      x := Escaped(ShortEscape(c).value);
    } else {
      x := Unit([Nibble(0, false), Nibble(0, false), Nibble(c as nat / 16, false), Nibble(c as nat % 16, false)]);
      NotEscaped(c);
    }
  }

  lemma {:induction false} NotEscaped(c: char)
    requires !Plain(c) && ShortEscape(c).None?
    ensures c < ' ' && c !in ESCAPES.Values
  {
    if c in ESCAPES.Values {
      var letter :| letter in ESCAPES && ESCAPES[letter] == c;
      assert false;
    }
  }

  ghost predicate FormsOf(s: string, xs: seq<Part>) {
    |xs| == |s| && forall i :: 0 <= i < |s| ==> FormOf(s[i], xs[i])
  }

  /** A string is printed as the forms of its characters, in turn, between quotes. */
  lemma {:induction false} StringIsItsForms(s: string) returns (xs: seq<Part>)
    ensures FormsOf(s, xs) && AllFit(xs) && RenderString(s) == LiteralText(xs)
  {
    xs := EscapedForms(s);
  }

  lemma {:induction false} EscapedForms(s: string) returns (xs: seq<Part>)
    ensures FormsOf(s, xs) && AllFit(xs) && Escape(s) == PartsText(xs)
  {
    if s == [] {
      xs := [];
    } else {
      var x := FormExists(s[0]);
      var rest := EscapedForms(s[1..]);
      FormIsPrinted(s[0], x);
      xs := [x] + rest;
      forall i | 0 <= i < |s| ensures FormOf(s[i], xs[i]) {
        if i > 0 { assert s[i] == s[1..][i - 1] && xs[i] == rest[i - 1]; }
      }
      assert xs[1..] == rest;
    }
  }

  // Lines

  /** Where a reader stands: in how many lists, and whether in a string or behind a backslash in one. */
  datatype Place = Place(depth: int, quoted: bool, escaped: bool)

  function Step(p: Place, c: char): Place {
    if p.escaped then p.(escaped := false)
    else if p.quoted then
      if c == '\"' then p.(quoted := false) else if c == '\\' then p.(escaped := true) else p
    else if c == '\"' then p.(quoted := true)
    else if c == '[' || c == '{' then p.(depth := p.depth + 1)
    else if c == ']' || c == '}' then p.(depth := p.depth - 1)
    else p
  }

  function TabsAhead(s: string): (n: nat)
    ensures n <= |s|
  {
    if s != [] && s[0] == '\t' then 1 + TabsAhead(s[1..]) else 0
  }

  /** A line starts with one tab for each list it is in; a brace that closes a list is no longer in it. */
  predicate LineStarts(s: string, depth: int) {
    var n := TabsAhead(s);
    n < |s| && n + (if s[n] == '}' then 1 else 0) == depth
  }

  /** Every line of a text is indented so; no line ends inside a string. */
  predicate Indented(s: string, p: Place)
    decreases |s|
  {
    s == []
    || ((s[0] == '\n' ==> !p.quoted && LineStarts(s[1..], p.depth)) && Indented(s[1..], Step(p, s[0])))
  }

  function Outside(depth: int): Place {
    Place(depth, false, false)
  }

  function Inside(depth: int): Place {
    Place(depth, true, false)
  }

  lemma {:induction false} StepOver(c: char, rest: string, p: Place)
    requires c != '\n' && Indented(rest, Step(p, c))
    ensures Indented([c] + rest, p)
  {
    assert ([c] + rest)[1..] == rest;
  }

  /** Characters that change nothing. */
  lemma {:induction false} PlainRun(s: string, rest: string, p: Place)
    requires forall i :: 0 <= i < |s| ==> s[i] != '\n' && Step(p, s[i]) == p
    requires Indented(rest, p)
    ensures Indented(s + rest, p)
  {
    if s == [] {
      assert s + rest == rest;
    } else {
      PlainRun(s[1..], rest, p);
      StepOver(s[0], s[1..] + rest, p);
      assert s + rest == [s[0]] + (s[1..] + rest);
    }
  }

  lemma {:induction false} EscapedChar(c: char, rest: string, depth: int)
    requires Indented(rest, Inside(depth))
    ensures Indented(EscapeChar(c) + rest, Inside(depth))
  {
    if Plain(c) {
      StepOver(c, rest, Inside(depth));
    } else if ShortEscape(c).Some? {
      LetterBehind(ShortEscape(c).value, rest, depth);
      assert ['\\', ShortEscape(c).value] + rest == ['\\'] + ([ShortEscape(c).value] + rest);
    } else {
      var h := Hex4(c);
      PlainRun(h, rest, Inside(depth));
      LetterBehind('u', h + rest, depth);
      assert "\\u" + h + rest == ['\\'] + (['u'] + (h + rest));
    }
  }

  lemma {:induction false} LetterBehind(x: char, rest: string, depth: int)
    requires x != '\n' && Indented(rest, Inside(depth))
    ensures Indented(['\\'] + ([x] + rest), Inside(depth))
  {
    var behind := Place(depth, true, true);
    StepOver(x, rest, behind);
    StepOver('\\', [x] + rest, Inside(depth));
  }

  lemma {:induction false} EscapedRun(s: string, rest: string, depth: int)
    requires Indented(rest, Inside(depth))
    ensures Indented(Escape(s) + rest, Inside(depth))
  {
    if s == [] {
      assert Escape(s) + rest == rest;
    } else {
      EscapedRun(s[1..], rest, depth);
      EscapedChar(s[0], Escape(s[1..]) + rest, depth);
      assert Escape(s) + rest == EscapeChar(s[0]) + (Escape(s[1..]) + rest);
    }
  }

  lemma {:induction false} StringRun(s: string, rest: string, depth: int)
    requires Indented(rest, Outside(depth))
    ensures Indented(RenderString(s) + rest, Outside(depth))
  {
    StepOver('\"', rest, Inside(depth));
    EscapedRun(s, "\"" + rest, depth);
    StepOver('\"', Escape(s) + ("\"" + rest), Outside(depth));
    assert RenderString(s) + rest == "\"" + (Escape(s) + ("\"" + rest));
  }

  lemma {:induction false} TabsRun(n: nat, rest: string, depth: int)
    requires Indented(rest, Outside(depth))
    ensures Indented(Tabs(n) + rest, Outside(depth))
    ensures rest != [] && rest[0] != '\t' ==> TabsAhead(Tabs(n) + rest) == n && (Tabs(n) + rest)[n] == rest[0]
  {
    if n == 0 {
      assert Tabs(n) + rest == rest;
    } else {
      TabsRun(n - 1, rest, depth);
      StepOver('\t', Tabs(n - 1) + rest, Outside(depth));
      assert Tabs(n) + rest == "\t" + (Tabs(n - 1) + rest);
      assert (Tabs(n) + rest)[1..] == Tabs(n - 1) + rest;
    }
  }

  lemma {:induction false} WordRun(v: Value, rest: string, depth: nat)
    requires !v.Array? && !v.Object? && !v.String? && Indented(rest, Outside(depth))
    ensures Indented(Render(v, true, depth) + rest, Outside(depth))
  {
    var t := Render(v, true, depth);
    if v.Number? {
      IntTextNumberChars(v.n);
    }
    PlainRun(t, rest, Outside(depth));
  }

  lemma {:induction false} ValueRun(v: Value, rest: string, depth: nat)
    requires Indented(rest, Outside(depth))
    ensures Indented(Render(v, true, depth) + rest, Outside(depth))
    decreases v, 1
  {
    match v
    case String(s) => StringRun(s, rest, depth);
    case Array(items) =>
      StepOver(']', rest, Outside(depth + 1));
      ItemsRun(items, "]" + rest, depth + 1);
      StepOver('[', RenderItems(items, true, depth + 1) + ("]" + rest), Outside(depth));
      assert Render(v, true, depth) + rest == "[" + (RenderItems(items, true, depth + 1) + ("]" + rest));
    case Object(ms) => ObjectRun(ms, rest, depth);
    case _ => WordRun(v, rest, depth);
  }

  lemma {:induction false} ItemsRun(items: seq<Value>, rest: string, depth: nat)
    requires Indented(rest, Outside(depth))
    ensures Indented(RenderItems(items, true, depth) + rest, Outside(depth))
    decreases items, 0
  {
    if items == [] {
      assert RenderItems(items, true, depth) + rest == rest;
    } else {
      var x, s, others := Render(items[0], true, depth), ItemSeparator(|items| > 1, true),
        RenderItems(items[1..], true, depth);
      ItemsRun(items[1..], rest, depth);
      PlainRun(s, others + rest, Outside(depth));
      ValueRun(items[0], s + (others + rest), depth);
      assert x + s + others + rest == x + (s + (others + rest));
    }
  }

  lemma {:induction false} ObjectRun(ms: seq<Entry<Value>>, rest: string, depth: nat)
    requires Indented(rest, Outside(depth))
    ensures Indented(Render(Object(ms), true, depth) + rest, Outside(depth))
    decreases ms, 1
  {
    var close, list := Tabs(depth) + ("}" + rest), RenderMembers(ms, true, depth + 1);
    StepOver('}', rest, Outside(depth + 1));
    TabsRun(depth, "}" + rest, depth + 1);
    assert ("}" + rest)[0] == '}';
    MembersRun(ms, close, depth + 1);
    NewLine(list + close, depth + 1);
    StepOver('{', "\n" + (list + close), Outside(depth));
    BraceText(list, depth, rest);
  }

  lemma {:induction false} BraceText(list: string, depth: nat, rest: string)
    ensures "{\n" + list + (Tabs(depth) + "}") + rest == "{" + ("\n" + (list + (Tabs(depth) + ("}" + rest))))
  {
  }

  lemma {:induction false} NewLine(rest: string, depth: int)
    requires LineStarts(rest, depth) && Indented(rest, Outside(depth))
    ensures Indented("\n" + rest, Outside(depth))
  {
    assert ("\n" + rest)[1..] == rest;
  }

  /** The members up to what closes the object. */
  lemma {:induction false} MembersRun(ms: seq<Entry<Value>>, close: string, depth: nat)
    requires Indented(close, Outside(depth)) && LineStarts(close, depth)
    ensures Indented(RenderMembers(ms, true, depth) + close, Outside(depth))
    ensures LineStarts(RenderMembers(ms, true, depth) + close, depth)
    decreases ms, 0
  {
    if ms == [] {
      assert RenderMembers(ms, true, depth) + close == close;
    } else {
      var e, others := ms[0], RenderMembers(ms[1..], true, depth) + close;
      MembersRun(ms[1..], close, depth);
      NewLine(others, depth);
      var end := (if |ms| > 1 then "," else []) + ("\n" + others);
      PlainRun(if |ms| > 1 then "," else [], "\n" + others, Outside(depth));
      ValueRun(e.value, end, depth);
      MemberRun(e, end, depth);
      MemberJoin(MemberText(e, true, depth), if |ms| > 1 then "," else [], RenderMembers(ms[1..], true, depth), close);
    }
  }

  lemma {:induction false} MemberJoin(a: string, comma: string, others: string, close: string)
    ensures a + (comma + "\n") + others + close == a + (comma + ("\n" + (others + close)))
  {
  }

  lemma {:induction false} MemberRun(e: Entry<Value>, end: string, depth: nat)
    requires Indented(Render(e.value, true, depth) + end, Outside(depth))
    ensures Indented(MemberText(e, true, depth) + end, Outside(depth))
    ensures LineStarts(MemberText(e, true, depth) + end, depth)
  {
    var k, x := RenderString(e.key), Render(e.value, true, depth) + end;
    PlainRun(":\t", x, Outside(depth));
    StringRun(e.key, ":\t" + x, depth);
    TabsRun(depth, k + (":\t" + x), depth);
    assert (k + (":\t" + x))[0] == '\"';
    KeyJoin(Tabs(depth), k, Render(e.value, true, depth), end);
  }

  lemma {:induction false} KeyJoin(tabs: string, k: string, x: string, end: string)
    ensures tabs + k + ":\t" + x + end == tabs + (k + (":\t" + (x + end)))
  {
  }

  /** Every line of a formatted print starts with as many tabs as lists are open there, a closing brace counted
      out; no line ends inside a string. */
  lemma {:induction false} LinesAreIndented(v: Value)
    ensures Indented(Render(v, true, 0), Outside(0))
  {
    ValueRun(v, [], 0);
    assert Render(v, true, 0) + [] == Render(v, true, 0);
  }

  // Without a layout

  /** No control character: no newline and no tab. */
  predicate OneLine(s: string) {
    forall i :: 0 <= i < |s| ==> s[i] >= ' '
  }

  lemma {:induction false} OneLineJoin(a: string, b: string)
    requires OneLine(a) && OneLine(b)
    ensures OneLine(a + b)
  {
  }

  lemma {:induction false} StringIsOneLine(s: string)
    ensures OneLine(RenderString(s))
  {
    if s == [] {
      assert RenderString(s) == "\"\"";
    } else {
      EscapeIsOneLine(s);
      OneLineJoin("\"", Escape(s));
      OneLineJoin("\"" + Escape(s), "\"");
    }
  }

  lemma {:induction false} EscapeIsOneLine(s: string)
    ensures OneLine(Escape(s))
  {
    if s != [] {
      EscapeIsOneLine(s[1..]);
      OneLineJoin(EscapeChar(s[0]), Escape(s[1..]));
    }
  }

  /** The unformatted print is one line without tabs. */
  lemma {:induction false} UnformattedIsOneLine(v: Value, depth: nat)
    ensures OneLine(Render(v, false, depth))
    decreases v, 1
  {
    match v
    case Number(n) => IntTextNumberChars(n);
    case String(s) => StringIsOneLine(s);
    case Array(items) =>
      ItemsAreOneLine(items, depth + 1);
      OneLineJoin("[", RenderItems(items, false, depth + 1));
      OneLineJoin("[" + RenderItems(items, false, depth + 1), "]");
    case Object(ms) =>
      MembersAreOneLine(ms, depth + 1);
      OneLineJoin("{", RenderMembers(ms, false, depth + 1));
      OneLineJoin("{" + RenderMembers(ms, false, depth + 1), "}");
    case _ =>
  }

  lemma {:induction false} ItemsAreOneLine(items: seq<Value>, depth: nat)
    ensures OneLine(RenderItems(items, false, depth))
    decreases items, 0
  {
    if items != [] {
      var x, s := Render(items[0], false, depth), ItemSeparator(|items| > 1, false);
      UnformattedIsOneLine(items[0], depth);
      ItemsAreOneLine(items[1..], depth);
      OneLineJoin(x, s);
      OneLineJoin(x + s, RenderItems(items[1..], false, depth));
    }
  }

  lemma {:induction false} MembersAreOneLine(ms: seq<Entry<Value>>, depth: nat)
    ensures OneLine(RenderMembers(ms, false, depth))
    decreases ms, 0
  {
    if ms != [] {
      var x, s := MemberText(ms[0], false, depth), MemberEnd(|ms| > 1, false);
      StringIsOneLine(ms[0].key);
      UnformattedIsOneLine(ms[0].value, depth);
      MembersAreOneLine(ms[1..], depth);
      OneLineJoin(x, s);
      OneLineJoin(x + s, RenderMembers(ms[1..], false, depth));
    }
  }
}
