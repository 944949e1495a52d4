/** What is printed is a text of RFC 8259 that stands for the tree, and how exactly it is written. */
module PrintTexts {
  import opened CText
  import opened Json
  import opened Options
  import opened IndexTokens
  import opened Pointer
  import opened Rendering
  import opened Unescaping
  import opened ParsePrinted
  import opened StringTexts
  import opened NumberTexts
  import opened JsonTexts
  import opened PrintForms

  // The layout

  function NewLine(format: bool, depth: nat): string {
    if format then "\n" + Tabs(depth) else []
  }

  /** An int as it is printed: no fraction, no exponent, no leading zero, and no sign in front of zero. */
  predicate PlainInt(f: NumberForm) {
    && f.fraction == None && f.exponent == None && f.whole != [] && AllDigits(f.whole)
    && (f.whole[0] == '0' ==> f.whole == "0" && !f.minus)
    && INT_MIN <= Signed(f.minus, DigitsValue(f.whole)) <= INT_MAX
  }

  /** A literal of some C string in which each character has its form. */
  ghost predicate PlainLiteral(xs: seq<Part>) {
    exists s: string :: NulFree(s) && FormsOf(s, xs)
  }

  /** How a print is written. With a layout a blank follows each comma of an array, each name of an object starts a
      line of its own, a tab follows the colon, and the closing brace starts a line; without one there is no gap.
      Numbers are plain ints, and every character of a string has the one form that is its own. */
  ghost predicate LaidOut(t: Text, format: bool, depth: nat)
    decreases t
  {
    match t
    case NumberOf(f) => PlainInt(f)
    case StringOf(xs) => PlainLiteral(xs)
    case ArrayOf(gap, slots) => gap == [] && SlotsLaidOut(slots, [], format, depth + 1)
    case ObjectOf(gap, fields) => gap == NewLine(format, depth) && FieldsLaidOut(fields, format, depth + 1)
    case _ => true
  }

  ghost predicate SlotsLaidOut(slots: seq<Slot>, before: string, format: bool, depth: nat)
    decreases slots
  {
    slots == []
    || (&& slots[0].before == before && slots[0].after == [] && LaidOut(slots[0].text, format, depth)
        && SlotsLaidOut(slots[1..], if format then " " else [], format, depth))
  }

  ghost predicate FieldsLaidOut(fields: seq<Field>, format: bool, depth: nat)
    requires depth > 0
    decreases fields
  {
    fields == []
    || (&& fields[0].before == NewLine(format, depth) && PlainLiteral(fields[0].name) && fields[0].colon == []
        && fields[0].value == (if format then "\t" else [])
        && fields[0].after == (if |fields| > 1 then [] else NewLine(format, depth - 1))
        && LaidOut(fields[0].text, format, depth) && FieldsLaidOut(fields[1..], format, depth))
  }

  /** The text is the print of the tree: written as prints are, and standing for it. */
  ghost predicate Prints(t: Text, v: Value, format: bool, depth: nat) {
    && WellFormed(t) && LaidOut(t, format, depth) && ValueOf(t) == v && TextOf(t) == Render(v, format, depth)
  }

  // Scalars

  lemma {:induction false} IntIsForm(n: Int32) returns (f: NumberForm)
    ensures FormFits(f) && PlainInt(f) && FormText(f) == IntText(n) && IntOf(f) == n
  {
    var i: int := n;
    var m: nat := if i < 0 then -i else i;
    f := NumberForm(n < 0, IndexText(m), None, None);
    IndexTextIsDigits(m);
    IndexTextValue(m);
    assert MinusText(n < 0) + IndexText(m) + [] + [] == IntText(n);
    assert AllDigitsOf(f) == IndexText(m) + [] == IndexText(m);
    assert WholePart(f) == m * Pow10(0) == m;
  }

  lemma {:induction false} FormsMeanString(s: string, xs: seq<Part>)
    requires FormsOf(s, xs) && AllFit(xs)
    ensures PartsMeaning(xs) == s
  {
    if s != [] {
      FormMeansChar(s[0], xs[0]);
      forall i | 0 <= i < |s[1..]| ensures FormOf(s[1..][i], xs[1..][i]) {
        assert s[1..][i] == s[i + 1] && xs[1..][i] == xs[i + 1];
      }
      FormsMeanString(s[1..], xs[1..]);
      assert s == [s[0]] + s[1..];
    }
  }

  lemma {:induction false} FormMeansChar(c: char, x: Part)
    requires FormOf(c, x) && PartFits(x)
    ensures Meaning(x) == [c]
  {
  }

  /** A C string is printed as a literal that stands for it. */
  lemma {:induction false} StringIsLiteral(s: string) returns (xs: seq<Part>)
    requires NulFree(s)
    ensures FormsOf(s, xs) && AllFit(xs) && RenderString(s) == LiteralText(xs) && UntilNul(PartsMeaning(xs)) == s
  {
    xs := StringIsItsForms(s);
    FormsMeanString(s, xs);
    NulFreeIsWhole(s);
  }

  lemma {:induction false} WordIsText(v: Value, format: bool, depth: nat) returns (t: Text)
    requires Clean(v) && !v.Array? && !v.Object?
    ensures Prints(t, v, format, depth)
  {
    match v
    case Null => t := NullText;
    case False => t := FalseText;
    case True => t := TrueText;
    case Number(n) =>
      var f := IntIsForm(n);
      t := NumberOf(f);
    case String(s) =>
      var xs := StringIsLiteral(s);
      t := StringOf(xs);
  }

  // Lists

  lemma {:induction false} ItemsAreSlots(items: seq<Value>, before: string, format: bool, depth: nat)
      returns (slots: seq<Slot>)
    requires CleanItems(items)
    ensures SlotsWellFormed(slots) && SlotsLaidOut(slots, before, format, depth) && |slots| == |items|
    ensures SlotValues(slots) == items
    ensures items != [] ==> SlotsText(slots) == before + RenderItems(items, format, depth)
    decreases items, 0
  {
    if items == [] {
      slots := [];
    } else {
      var blank := if format then " " else [];
      var t := PrintIsText(items[0], format, depth);
      var others := ItemsAreSlots(items[1..], blank, format, depth);
      slots := [Slot(before, t, [])] + others;
      assert slots[1..] == others;
      if |items| > 1 {
        ItemsJoin(before, TextOf(t), blank, RenderItems(items[1..], format, depth), format);
      } else {
        assert before + TextOf(t) + [] + [] + [] == before + (TextOf(t) + [] + []);
      }
    }
  }

  lemma {:induction false} ItemsJoin(before: string, x: string, blank: string, others: string, format: bool)
    requires blank == if format then " " else []
    ensures (before + x + []) + "," + (blank + others) == before + (x + ItemSeparator(true, format) + others)
  {
  }

  lemma {:induction false} ArrayIsText(items: seq<Value>, format: bool, depth: nat) returns (t: Text)
    requires CleanItems(items)
    ensures Prints(t, Array(items), format, depth)
    decreases items, 1
  {
    var slots := ItemsAreSlots(items, [], format, depth + 1);
    t := ArrayOf([], slots);
    if items != [] { assert [] + RenderItems(items, format, depth + 1) == RenderItems(items, format, depth + 1); }
  }

  lemma {:induction false} MembersAreFields(ms: seq<Entry<Value>>, format: bool, depth: nat)
      returns (fields: seq<Field>)
    requires CleanMembers(ms) && depth > 0
    ensures FieldsWellFormed(fields) && FieldsLaidOut(fields, format, depth) && |fields| == |ms|
    ensures FieldValues(fields) == ms
    ensures var list := LineEnd(format) + RenderMembers(ms, format, depth) + Indentation(format, depth - 1);
      ms != [] ==> FieldsText(fields) == list
    decreases ms, 0
  {
    if ms == [] {
      fields := [];
    } else {
      var e := ms[0];
      var t := PrintIsText(e.value, format, depth);
      var name := StringIsLiteral(e.key);
      var others := MembersAreFields(ms[1..], format, depth);
      var f := Field(NewLine(format, depth), name, [], if format then "\t" else [], t,
                     if |ms| > 1 then [] else NewLine(format, depth - 1));
      fields := [f] + others;
      assert FieldValue(f) == e;
      FieldsCons(f, others);
      MemberIsField(e, f, format, depth, |ms| > 1);
      if |ms| > 1 {
        MembersJoin(LineEnd(format), MemberText(e, format, depth), RenderMembers(ms[1..], format, depth),
                    Indentation(format, depth - 1));
      } else {
        LastJoin(LineEnd(format), MemberText(e, format, depth), Indentation(format, depth - 1));
      }
    }
  }

  lemma {:induction false} FieldsCons(f: Field, others: seq<Field>)
    requires AllFit(f.name) && WellFormed(f.text) && FieldsWellFormed(others)
    ensures var fields := [f] + others;
      && fields[1..] == others && FieldsWellFormed(fields)
      && FieldsText(fields) == FieldText(f) + (if |others| > 0 then "," else []) + FieldsText(others)
      && FieldValues(fields) == [FieldValue(f)] + FieldValues(others)
  {
    var fields := [f] + others;
    assert fields[1..] == others;
  }

  function LineEnd(format: bool): string {
    if format then "\n" else []
  }

  lemma {:induction false} MemberIsField(e: Entry<Value>, f: Field, format: bool, depth: nat, more: bool)
    requires depth > 0 && AllFit(f.name) && LiteralText(f.name) == RenderString(e.key)
    requires WellFormed(f.text) && TextOf(f.text) == Render(e.value, format, depth)
    requires f.before == NewLine(format, depth) && f.colon == [] && f.value == (if format then "\t" else [])
    requires f.after == if more then [] else NewLine(format, depth - 1)
    ensures FieldText(f) == LineEnd(format) + MemberText(e, format, depth)
                            + (if more then [] else LineEnd(format) + Indentation(format, depth - 1))
  {
    var k, x := RenderString(e.key), Render(e.value, format, depth);
    assert f.before == LineEnd(format) + Indentation(format, depth);
    assert Colon(format) == ":" + f.value;
    FieldJoin(LineEnd(format), Indentation(format, depth), k, f.value, x, f.after);
    AfterIs(format, depth, more);
  }

  lemma {:induction false} AfterIs(format: bool, depth: nat, more: bool)
    requires depth > 0
    ensures (if more then [] else NewLine(format, depth - 1))
         == (if more then [] else LineEnd(format) + Indentation(format, depth - 1))
  {
  }

  lemma {:induction false} FieldJoin(end: string, tabs: string, k: string, tab: string, x: string, after: string)
    ensures (end + tabs) + k + [] + ":" + tab + x + after == end + ((tabs + k + (":" + tab)) + x) + after
  {
  }

  lemma {:induction false} MembersJoin(end: string, a: string, others: string, close: string)
    ensures (end + a + []) + "," + (end + others + close) == end + (a + ("," + end) + others) + close
  {
  }

  lemma {:induction false} LastJoin(end: string, a: string, close: string)
    ensures (end + a + (end + close)) + [] + [] == end + (a + ([] + end) + []) + close
  {
  }

  lemma {:induction false} ObjectIsText(ms: seq<Entry<Value>>, format: bool, depth: nat) returns (t: Text)
    requires CleanMembers(ms)
    ensures Prints(t, Object(ms), format, depth)
    decreases ms, 1
  {
    var inner := depth + 1;
    var fields := MembersAreFields(ms, format, inner);
    t := ObjectOf(NewLine(format, depth), fields);
    ObjectTextIs(ms, fields, format, depth, inner);
  }

  lemma {:induction false} ObjectTextIs(
      ms: seq<Entry<Value>>, fields: seq<Field>, format: bool, depth: nat, inner: nat)
    requires FieldsWellFormed(fields) && |fields| == |ms| && inner == depth + 1
    requires var list := LineEnd(format) + RenderMembers(ms, format, inner) + Indentation(format, inner - 1);
      ms != [] ==> FieldsText(fields) == list
    ensures TextOf(ObjectOf(NewLine(format, depth), fields)) == Render(Object(ms), format, depth)
  {
    var close, list := Indentation(format, depth), RenderMembers(ms, format, depth + 1);
    assert Opening(format) == "{" + LineEnd(format) && Closing(format, depth) == close + "}";
    BracesJoin(LineEnd(format), list, close);
    if ms == [] { BracesJoin(LineEnd(format), [], close); }
    assert NewLine(format, depth) == LineEnd(format) + [] + close;
  }

  lemma {:induction false} BracesJoin(end: string, list: string, close: string)
    ensures "{" + (end + list + close) + "}" == ("{" + end) + list + (close + "}")
  {
  }

  /** Every print, formatted or not, is a text of the grammar that stands for exactly the tree, written as prints
      are. */
  lemma {:induction false} PrintIsText(v: Value, format: bool, depth: nat) returns (t: Text)
    requires Clean(v)
    ensures Prints(t, v, format, depth)
    decreases v, 2
  {
    match v
    case Array(items) => t := ArrayIsText(items, format, depth);
    case Object(ms) => t := ObjectIsText(ms, format, depth);
    case _ => t := WordIsText(v, format, depth);
  }

  // Nothing else is written as prints are

  lemma {:induction false} DigitsArePrinted(s: string)
    requires s != [] && AllDigits(s) && (s[0] == '0' ==> s == "0")
    ensures IndexText(DigitsValue(s)) == s && (s[0] != '0' ==> DigitsValue(s) > 0)
  {
    var init := s[..|s| - 1];
    if init == [] {
      assert DigitsValue(init) == 0;
    } else {
      DigitsArePrinted(init);
      assert s == init + [s[|s| - 1]];
      assert DigitsValue(s) / 10 == DigitsValue(init);
    }
  }

  lemma {:induction false} PlainIntIsPrinted(f: NumberForm)
    requires FormFits(f) && PlainInt(f)
    ensures FormText(f) == IntText(IntOf(f))
  {
    DigitsArePrinted(f.whole);
    assert AllDigitsOf(f) == f.whole;
    assert WholePart(f) == DigitsValue(f.whole) * Pow10(0) == DigitsValue(f.whole);
    assert MinusText(f.minus) + f.whole + [] + [] == MinusText(f.minus) + f.whole;
  }

  lemma {:induction false} FormsAreEscapes(s: string, xs: seq<Part>)
    requires FormsOf(s, xs)
    ensures AllFit(xs) && PartsText(xs) == Escape(s)
  {
    if s != [] {
      FormIsPrinted(s[0], xs[0]);
      forall i | 0 <= i < |s[1..]| ensures FormOf(s[1..][i], xs[1..][i]) {
        assert s[1..][i] == s[i + 1] && xs[1..][i] == xs[i + 1];
      }
      FormsAreEscapes(s[1..], xs[1..]);
      assert s == [s[0]] + s[1..] && xs == [xs[0]] + xs[1..];
    }
  }

  lemma {:induction false} PlainLiteralIsPrinted(xs: seq<Part>)
    requires AllFit(xs) && PlainLiteral(xs)
    ensures LiteralText(xs) == RenderString(UntilNul(PartsMeaning(xs)))
  {
    var s: string :| NulFree(s) && FormsOf(s, xs);
    FormsAreEscapes(s, xs);
    FormsMeanString(s, xs);
    NulFreeIsWhole(s);
  }

  lemma {:induction false} SlotsArePrinted(slots: seq<Slot>, before: string, format: bool, depth: nat)
    requires SlotsWellFormed(slots) && SlotsLaidOut(slots, before, format, depth)
    ensures slots != [] ==> SlotsText(slots) == before + RenderItems(SlotValues(slots), format, depth)
    decreases slots, 0
  {
    if slots != [] {
      var blank := if format then " " else [];
      var t, rest := slots[0].text, slots[1..];
      OnlyPrintsAreLaidOut(t, format, depth);
      SlotsArePrinted(rest, blank, format, depth);
      var v, items := ValueOf(t), SlotValues(rest);
      assert ([v] + items)[1..] == items;
      if rest != [] {
        ItemsJoin(before, TextOf(t), blank, RenderItems(items, format, depth), format);
      } else {
        assert before + TextOf(t) + [] + [] + [] == before + (TextOf(t) + [] + []);
      }
    }
  }

  lemma {:induction false} FieldsArePrinted(fields: seq<Field>, format: bool, depth: nat)
    requires depth > 0 && FieldsWellFormed(fields) && FieldsLaidOut(fields, format, depth)
    ensures var list := LineEnd(format) + RenderMembers(FieldValues(fields), format, depth);
      fields != [] ==> FieldsText(fields) == list + Indentation(format, depth - 1)
    decreases fields, 0
  {
    if fields != [] {
      var f, rest := fields[0], fields[1..];
      OnlyPrintsAreLaidOut(f.text, format, depth);
      PlainLiteralIsPrinted(f.name);
      FieldsArePrinted(rest, format, depth);
      var e, others := FieldValue(f), FieldValues(rest);
      assert ([e] + others)[1..] == others;
      MemberIsField(e, f, format, depth, rest != []);
      if rest != [] {
        MembersJoin(LineEnd(format), MemberText(e, format, depth), RenderMembers(others, format, depth),
                    Indentation(format, depth - 1));
      } else {
        LastJoin(LineEnd(format), MemberText(e, format, depth), Indentation(format, depth - 1));
      }
    }
  }

  /** A text that is written as prints are is the print of the tree that it stands for. */
  lemma {:induction false} OnlyPrintsAreLaidOut(t: Text, format: bool, depth: nat)
    requires WellFormed(t) && LaidOut(t, format, depth)
    ensures TextOf(t) == Render(ValueOf(t), format, depth)
    decreases t, 1
  {
    match t
    case NumberOf(f) => PlainIntIsPrinted(f);
    case StringOf(xs) => PlainLiteralIsPrinted(xs);
    case ArrayOf(_, slots) =>
      SlotsArePrinted(slots, [], format, depth + 1);
      var list := RenderItems(SlotValues(slots), format, depth + 1);
      assert [] + list == list;
    case ObjectOf(_, fields) =>
      var inner := depth + 1;
      FieldsArePrinted(fields, format, inner);
      ObjectTextIs(FieldValues(fields), fields, format, depth, inner);
    case _ =>
  }
}
