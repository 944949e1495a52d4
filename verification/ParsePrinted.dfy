/** Parsing undoes printing. */
module ParsePrinted {
  import opened CText
  import opened Json
  import opened Equality
  import opened Pointer
  import opened Rendering
  import opened Unescaping
  import opened Scanning
  import opened Parsing

  // Blanks

  /** Only blanks from a up to b. */
  predicate Blank(c: string, a: nat, b: nat)
    requires b <= |c|
    decreases b - a
  {
    a < b ==> c[a] <= ' ' && Blank(c, a + 1, b)
  }

  predicate BlanksTo(c: string, a: nat, b: nat) {
    a <= b <= |c| && Blank(c, a, b)
  }

  lemma {:induction false} BlankJoin(c: string, a: nat, b: nat, d: nat)
    requires a <= b <= d <= |c| && Blank(c, a, b) && Blank(c, b, d)
    ensures Blank(c, a, d)
    decreases b - a
  {
    if a < b { BlankJoin(c, a + 1, b, d); }
  }

  lemma {:induction false} BlankEndReaches(c: string, length: nat, a: nat, b: nat)
    requires a <= b < length <= |c| && Blank(c, a, b) && c[b] > ' '
    ensures BlankEnd(c, length, a) == b
    decreases b - a
  {
    if a < b { BlankEndReaches(c, length, a + 1, b); }
  }

  lemma SkipTo(c: string, length: nat, a: nat, b: nat)
    requires a <= b < length <= |c| && Blank(c, a, b) && c[b] > ' '
    ensures SkipBlanks(c, length, a) == b
  {
    BlankEndReaches(c, length, a, b);
  }

  predicate AllBlank(s: string) {
    forall i :: 0 <= i < |s| ==> s[i] <= ' '
  }

  lemma {:induction false} BlankText(c: string, p: nat, s: string, k: nat)
    requires TextAt(c, p, s) && AllBlank(s) && k <= |s|
    ensures Blank(c, p + k, p + |s|)
    decreases |s| - k
  {
    if k < |s| {
      TextAtIndex(c, p, s, k);
      BlankText(c, p, s, k + 1);
    }
  }

  lemma {:induction false} TabsBlank(n: nat)
    ensures AllBlank(Tabs(n))
  {
    if n > 0 { TabsBlank(n - 1); }
  }

  // Numbers

  lemma {:induction false} NumberTextIs(c: string, length: nat, p: nat, t: string, room: nat)
    requires TextAt(c, p, t) && p + |t| < length <= |c| && |t| <= room
    requires forall i :: 0 <= i < |t| ==> NumberChar(t[i])
    requires !NumberChar(c[p + |t|])
    ensures NumberText(c, length, p, room) == t
    decreases |t|
  {
    if t != [] {
      assert t == [t[0]] + t[1..];
      TextAtIndex(c, p, t, 0);
      TextAtSplit(c, p, [t[0]], t[1..]);
      NumberTextIs(c, length, p + 1, t[1..], room - 1);
    }
  }

  lemma {:induction false} DigitsEndIs(s: string, p: nat)
    requires p <= |s| && forall i :: p <= i < |s| ==> IsDigit(s[i])
    ensures DigitsEnd(s, p) == |s|
    decreases |s| - p
  {
    if p < |s| { DigitsEndIs(s, p + 1); }
  }

  /** strtod reads a printed int exactly. */
  lemma StrtodReadsInt(n: int)
    requires INT_MIN <= n <= INT_MAX
    ensures Strtod(IntText(n)) == (|IntText(n)|, n)
  {
    var m: nat := if n < 0 then -n else n;
    IndexTextIsDigits(m);
    IndexTextValue(m);
    StrtodReadsDigits(n < 0, IndexText(m), if n < 0 then "-" + IndexText(m) else IndexText(m));
  }

  /** Reading a text that is digits behind an optional sign. */
  lemma StrtodOfDigits(s: string, start: nat)
    requires start == if s != [] && (s[0] == '-' || s[0] == '+') then 1 else 0
    requires start < |s| && forall i :: start <= i < |s| ==> IsDigit(s[i])
    ensures Strtod(s) == (|s|, Saturate(s[0] == '-', DigitsValue(Digits(s, start, |s|))))
  {
    DigitsEndIs(s, start);
    assert Exponent(s, |s|) == (|s|, 0);
    var digits := Digits(s, start, |s|);
    assert Mantissa(s, start, |s|, |s|) == digits != [];
    assert Scale(DigitsValue(digits), 0) == DigitsValue(digits);
  }

  lemma StrtodReadsDigits(negative: bool, digits: string, s: string)
    requires digits != [] && forall i :: 0 <= i < |digits| ==> '0' <= digits[i] <= '9'
    requires s == if negative then "-" + digits else digits
    ensures Strtod(s) == (|s|, Saturate(negative, DigitsValue(digits)))
  {
    var start := if negative then 1 else 0;
    assert s[start..] == digits;
    forall i | start <= i < |s| ensures IsDigit(s[i]) { assert s[i] == digits[i - start]; }
    if !negative { assert IsDigit(s[0]); }
    StrtodOfDigits(s, start);
    assert Digits(s, start, |s|) == digits;
  }

  lemma IntTextNumberChars(n: int)
    ensures forall i :: 0 <= i < |IntText(n)| ==> NumberChar(IntText(n)[i])
    ensures IntText(n) != [] && (IntText(n)[0] == '-' || IsDigit(IntText(n)[0]))
  {
    var m: nat := if n < 0 then -n else n;
    IndexTextIsDigits(m);
    var s := IntText(n);
    forall i | 0 <= i < |s| ensures NumberChar(s[i]) {
      if n < 0 && i > 0 { assert s[i] == IndexText(m)[i - 1]; }
    }
  }

  lemma NumberParses(c: string, length: nat, p: nat, n: Int32)
    requires TextAt(c, p, IntText(n)) && p + |IntText(n)| < length <= |c| && !NumberChar(c[p + |IntText(n)|])
    ensures ParseNumber(c, length, p) == Parsed(Number(n), p + |IntText(n)|)
  {
    IntTextNumberChars(n);
    IntTextShort(n);
    NumberTextIs(c, length, p, IntText(n), 63);
    StrtodReadsInt(n);
  }

  // Strings

  lemma StringParses(c: string, length: nat, p: nat, s: string)
    requires NulFree(s) && TextAt(c, p, RenderString(s)) && p + |RenderString(s)| <= length <= |c|
    ensures ParseString(c, length, p) == Parsed(s, p + |RenderString(s)|)
  {
    var e := Escape(s);
    var end := p + 1 + |e|;
    TextAtSplit(c, p, "\"" + e, "\"");
    TextAtSplit(c, p, "\"", e);
    TextAtIndex(c, p, "\"", 0);
    TextAtIndex(c, end, "\"", 0);
    DecodeEscaped(c, length, p + 1, end, s);
    NulFreeIsWhole(s);
  }

  // The trees in scope, by recursion

  /** No invalid item, and every string and key is a C string. */
  predicate Clean(v: Value)
    decreases v
  {
    match v
    case Invalid => false
    case String(s) => NulFree(s)
    case Array(items) => CleanItems(items)
    case Object(ms) => CleanMembers(ms)
    case _ => true
  }

  predicate CleanItems(items: seq<Value>)
    decreases items
  {
    items == [] || (Clean(items[0]) && CleanItems(items[1..]))
  }

  predicate CleanMembers(ms: seq<Entry<Value>>)
    decreases ms
  {
    ms == [] || (NulFree(ms[0].key) && Clean(ms[0].value) && CleanMembers(ms[1..]))
  }

  lemma {:induction false} PrintableIsClean(v: Value)
    requires Printable(v) && NulFreeTree(v)
    ensures Clean(v)
    decreases v, 1
  {
    match v
    case Array(items) => ItemsAreClean(items);
    case Object(ms) => MembersAreClean(ms);
    case _ =>
  }

  lemma {:induction false} ItemsAreClean(items: seq<Value>)
    requires forall i :: 0 <= i < |items| ==> Printable(items[i]) && NulFreeTree(items[i])
    ensures CleanItems(items)
    decreases items
  {
    if items != [] {
      PrintableIsClean(items[0]);
      ItemsAreClean(items[1..]);
    }
  }

  lemma {:induction false} MembersAreClean(ms: seq<Entry<Value>>)
    requires forall i :: 0 <= i < |ms| ==> NulFree(ms[i].key) && Printable(ms[i].value) && NulFreeTree(ms[i].value)
    ensures CleanMembers(ms)
    decreases ms
  {
    if ms != [] {
      PrintableIsClean(ms[0].value);
      MembersAreClean(ms[1..]);
    }
  }

  // What a value starts with

  predicate StartChar(v: Value, x: char) {
    match v
    case Null => x == 'n'
    case False => x == 'f'
    case True => x == 't'
    case Number(_) => x == '-' || IsDigit(x)
    case String(_) => x == '\"'
    case Array(_) => x == '['
    case Object(_) => x == '{'
    case Invalid => false
  }

  lemma RenderStarts(v: Value, format: bool, depth: nat)
    requires !v.Invalid?
    ensures Render(v, format, depth) != [] && StartChar(v, Render(v, format, depth)[0])
  {
    if v.Number? { IntTextNumberChars(v.n); }
  }

  lemma StartOf(c: string, p: nat, v: Value, format: bool, depth: nat)
    requires !v.Invalid? && TextAt(c, p, Render(v, format, depth))
    ensures p < |c| && StartChar(v, c[p]) && c[p] > ' ' && c[p] != ']' && c[p] != '}'
  {
    RenderStarts(v, format, depth);
    TextAtIndex(c, p, Render(v, format, depth), 0);
  }

  /** Only the right literal stands where a value starts. */
  lemma NotLiteral(c: string, length: nat, p: nat, s: string)
    requires p < length <= |c| && s != [] && c[p] != s[0]
    ensures !Literal(c, length, p, s)
  {
  }

  lemma {:induction false} LiteralAt(c: string, length: nat, p: nat, s: string, k: nat)
    requires TextAt(c, p, s) && p + |s| <= length <= |c| && k <= |s|
    ensures Literal(c, length, p + k, s[k..])
    decreases |s| - k
  {
    if k < |s| {
      assert s[k..][1..] == s[k + 1..];
      TextAtIndex(c, p, s, k);
      LiteralAt(c, length, p, s, k + 1);
    }
  }

  lemma OtherValuesAreNoLiterals(c: string, length: nat, p: nat)
    requires p < length <= |c| && c[p] != 'n' && c[p] != 'f' && c[p] != 't'
    ensures !Literal(c, length, p, "null") && !Literal(c, length, p, "false") && !Literal(c, length, p, "true")
  {
    NotLiteral(c, length, p, "null");
    NotLiteral(c, length, p, "false");
    NotLiteral(c, length, p, "true");
  }

  // Values

  /** The text t stands between p and end, before a character that cannot extend a number. */
  predicate Placed(c: string, length: nat, p: nat, end: nat, t: string) {
    Readable(c, length) && TextAt(c, p, t) && p + |t| == end < length && !NumberChar(c[end])
  }

  /** The text of a value starts with a character that is no blank and ends no list. */
  predicate Visible(t: string) {
    t != [] && t[0] > ' ' && t[0] != ']' && t[0] != '}'
  }

  predicate ReadsAt(b: Input, v: Value, t: string, nesting: nat, p: nat, end: nat)
    requires Sound(b)
  {
    Placed(b.c, b.length, p, end, t) ==> ParseValue(b, p, nesting) == Parsed(v, end)
  }

  /** Wherever t stands, v is read. */
  ghost predicate Reads(b: Input, v: Value, t: string, nesting: nat) {
    Sound(b) && Visible(t) && forall p: nat, end: nat :: ReadsAt(b, v, t, nesting, p, end)
  }

  lemma RenderIsVisible(v: Value, format: bool, depth: nat)
    requires !v.Invalid?
    ensures Visible(Render(v, format, depth))
  {
    RenderStarts(v, format, depth);
  }

  lemma VisibleAt(c: string, p: nat, t: string)
    requires TextAt(c, p, t) && Visible(t)
    ensures p < |c| && c[p] == t[0]
  {
    TextAtIndex(c, p, t, 0);
  }

  lemma ScalarReads(c: string, length: nat, p: nat, end: nat, v: Value, t: string, format: bool, depth: nat)
    requires Clean(v) && !v.Array? && !v.Object? && t == Render(v, format, depth)
    requires Placed(c, length, p, end, t)
    ensures ParseScalar(c, length, p) == Parsed(v, end) && c[p] != '[' && c[p] != '{'
  {
    StartOf(c, p, v, format, depth);
    match v
    case Null =>
      LiteralAt(c, length, p, "null", 0);
    case False =>
      NotLiteral(c, length, p, "null");
      LiteralAt(c, length, p, "false", 0);
    case True =>
      NotLiteral(c, length, p, "null");
      NotLiteral(c, length, p, "false");
      LiteralAt(c, length, p, "true", 0);
    case Number(n) =>
      OtherValuesAreNoLiterals(c, length, p);
      NumberParses(c, length, p, n);
    case String(s) =>
      OtherValuesAreNoLiterals(c, length, p);
      StringParses(c, length, p, s);
  }

  /** The quoted text t stands between p and end. */
  predicate QuotedAt(c: string, length: nat, p: nat, end: nat, t: string) {
    TextAt(c, p, t) && p + |t| == end <= length <= |c|
  }

  predicate Quoted(t: string) {
    t != [] && t[0] == '\"'
  }

  predicate KeyReadsAt(b: Input, key: string, t: string, p: nat, end: nat) {
    QuotedAt(b.c, b.length, p, end, t) ==> b.quoted(p) == Parsed(key, end)
  }

  /** Wherever the quoted text t stands, the key is read. */
  ghost predicate KeyReads(b: Input, key: string, t: string) {
    Quoted(t) && forall p: nat, end: nat :: KeyReadsAt(b, key, t, p, end)
  }

  predicate ScalarReadsAt(b: Input, p: nat, end: nat, v: Value, format: bool, depth: nat) {
    Clean(v) && !v.Array? && !v.Object? && Placed(b.c, b.length, p, end, Render(v, format, depth)) ==>
      b.scalar(p) == Parsed(v, end) && b.c[p] != '[' && b.c[p] != '{'
  }

  /** The lexical layer reads back what is printed. */
  ghost predicate Faithful(b: Input) {
    && Sound(b)
    && (forall p: nat, end: nat, v: Value, format: bool, depth: nat :: ScalarReadsAt(b, p, end, v, format, depth))
    && (forall key: string :: NulFree(key) ==> KeyReads(b, key, RenderString(key)))
  }

  lemma InputIsFaithful(c: string, length: nat)
    requires Readable(c, length)
    ensures Faithful(InputOf(c, length))
  {
    var b := InputOf(c, length);
    forall p: nat, end: nat, v: Value, format: bool, depth: nat ensures ScalarReadsAt(b, p, end, v, format, depth) {
      var t := Render(v, format, depth);
      if Clean(v) && !v.Array? && !v.Object? && Placed(c, length, p, end, t) {
        ScalarReads(c, length, p, end, v, t, format, depth);
      }
    }
    forall key: string | NulFree(key) ensures KeyReads(b, key, RenderString(key)) {
      InputReadsKeys(b, key, RenderString(key));
    }
  }

  lemma InputReadsKeys(b: Input, key: string, t: string)
    requires Readable(b.c, b.length) && b == InputOf(b.c, b.length) && NulFree(key) && t == RenderString(key)
    ensures KeyReads(b, key, t)
  {
    forall p: nat, end: nat ensures KeyReadsAt(b, key, t, p, end) {
      if QuotedAt(b.c, b.length, p, end, t) { StringParses(b.c, b.length, p, key); }
    }
  }

  lemma ScalarValueReads(b: Input, v: Value, t: string, format: bool, depth: nat, nesting: nat)
    requires Faithful(b) && Clean(v) && !v.Array? && !v.Object? && t == Render(v, format, depth)
    ensures Reads(b, v, t, nesting)
  {
    RenderIsVisible(v, format, depth);
    forall p: nat, end: nat ensures ReadsAt(b, v, t, nesting, p, end) {
      assert ScalarReadsAt(b, p, end, v, format, depth);
    }
  }

  /** Every printed value is read where it stands, as long as the nesting limit allows. */
  lemma {:induction false} ValueReads(b: Input, v: Value, t: string, format: bool, depth: nat, nesting: nat)
    requires Faithful(b) && Clean(v) && nesting + Height(v) <= NESTING_LIMIT && t == Render(v, format, depth)
    ensures Reads(b, v, t, nesting)
    decreases v, 1
  {
    match v
    case Array(items) =>
      var texts := ItemTexts(items, format, depth + 1);
      ItemsRead(b, items, texts, format, depth + 1, nesting + 1);
      ArrayReads(b, items, texts, t, format, nesting);
    case Object(ms) => ObjectValueReads(b, ms, t, format, depth, nesting);
    case _ => ScalarValueReads(b, v, t, format, depth, nesting);
  }

  lemma {:induction false} ObjectValueReads(
      b: Input, ms: seq<Entry<Value>>, t: string, format: bool, depth: nat, nesting: nat)
    requires Faithful(b) && CleanMembers(ms) && nesting + 1 + MembersHeight(ms) <= NESTING_LIMIT
    requires t == Opening(format) + RenderMembers(ms, format, depth + 1) + Closing(format, depth)
    ensures Reads(b, Object(ms), t, nesting)
    decreases ms, 1
  {
    var texts, l := MemberTexts(ms, format, depth + 1), LayoutOf(format, depth + 1);
    MembersRead(b, ms, texts, format, depth + 1, nesting + 1);
    BracesAreNeat(format, depth);
    ObjectReads(b, ms, texts, l, Opening(format), Indentation(format, depth), t, nesting);
  }

  lemma BracesAreNeat(format: bool, depth: nat)
    ensures Neat(LayoutOf(format, depth + 1)) && Sign(Opening(format), '{') && AllBlank(Indentation(format, depth))
    ensures Closing(format, depth) == Indentation(format, depth) + "}"
  {
    LayoutIsNeat(format, depth + 1);
    TabsBlank(depth);
  }

  // Arrays, over the texts of their elements

  function ItemTexts(items: seq<Value>, format: bool, depth: nat): (r: seq<string>)
    ensures |r| == |items|
  {
    if items == [] then [] else [Render(items[0], format, depth)] + ItemTexts(items[1..], format, depth)
  }

  function JoinItems(texts: seq<string>, format: bool): string {
    if texts == [] then []
    else texts[0] + ItemSeparator(|texts| > 1, format) + JoinItems(texts[1..], format)
  }

  ghost predicate AllRead(b: Input, items: seq<Value>, texts: seq<string>, nesting: nat)
    decreases |items|
  {
    && |items| == |texts|
    && (items == [] || (Reads(b, items[0], texts[0], nesting) && AllRead(b, items[1..], texts[1..], nesting)))
  }

  lemma {:induction false} ItemsRead(
      b: Input, items: seq<Value>, texts: seq<string>, format: bool, depth: nat, nesting: nat)
    requires Faithful(b) && CleanItems(items) && nesting + ItemsHeight(items) <= NESTING_LIMIT
    requires texts == ItemTexts(items, format, depth)
    ensures AllRead(b, items, texts, nesting) && RenderItems(items, format, depth) == JoinItems(texts, format)
    decreases items, 0
  {
    if items != [] {
      ValueReads(b, items[0], texts[0], format, depth, nesting);
      ItemsRead(b, items[1..], texts[1..], format, depth, nesting);
    }
  }

  lemma ArrayReads(b: Input, items: seq<Value>, texts: seq<string>, all: string, format: bool, nesting: nat)
    requires Sound(b) && AllRead(b, items, texts, nesting + 1) && nesting < NESTING_LIMIT
    requires all == "[" + JoinItems(texts, format) + "]"
    ensures Reads(b, Array(items), all, nesting)
  {
    forall p: nat, end: nat ensures ReadsAt(b, Array(items), all, nesting, p, end) {
      if Placed(b.c, b.length, p, end, all) { ArrayReadsAt(b, items, texts, format, nesting, p, end); }
    }
  }

  lemma ArrayReadsAt(
      b: Input, items: seq<Value>, texts: seq<string>, format: bool, nesting: nat, p: nat, end: nat)
    requires Sound(b) && AllRead(b, items, texts, nesting + 1) && nesting < NESTING_LIMIT
    requires Placed(b.c, b.length, p, end, "[" + JoinItems(texts, format) + "]")
    ensures ParseValue(b, p, nesting) == Parsed(Array(items), end)
  {
    var list, close := JoinItems(texts, format), end - 1;
    ThreePieces(b.c, p, "[", list, "]", "[" + list + "]");
    TextAtIndex(b.c, p, "[", 0);
    TextAtIndex(b.c, close, "]", 0);
    if items != [] {
      ElementsParse(b, p + 1, p + 1, close, items, texts, format, nesting + 1);
    }
    ListStart(b, p + 1, close, texts, format);
    ArrayParses(b, items, nesting, p, close);
  }

  lemma ArrayParses(b: Input, items: seq<Value>, nesting: nat, p: nat, close: nat)
    requires Sound(b) && nesting < NESTING_LIMIT && p < close < b.length && b.c[p] == '[' && b.c[close] == ']'
    requires Skip(b, p + 1) == p + 1 && (b.c[p + 1] == ']' <==> items == []) && (items == [] ==> close == p + 1)
    requires items != [] ==> ParseElements(b, p + 1, nesting + 1) == Parsed(items, close + 1)
    ensures ParseValue(b, p, nesting) == Parsed(Array(items), close + 1)
  {
  }

  lemma ListStart(b: Input, p: nat, close: nat, texts: seq<string>, format: bool)
    requires Sound(b) && p <= close < b.length && b.c[close] == ']'
    requires TextAt(b.c, p, JoinItems(texts, format)) && close == p + |JoinItems(texts, format)|
    requires texts != [] ==> Visible(texts[0])
    ensures Skip(b, p) == p && (b.c[p] == ']' <==> texts == [])
  {
    if texts != [] {
      var rest := ItemSeparator(|texts| > 1, format) + JoinItems(texts[1..], format);
      assert JoinItems(texts, format) == texts[0] + rest;
      TextAtSplit(b.c, p, texts[0], rest);
      VisibleAt(b.c, p, texts[0]);
    }
    SkipTo(b.c, b.length, p, p);
  }

  lemma ThreePieces(c: string, p: nat, a: string, b: string, d: string, all: string)
    requires all == a + b + d && TextAt(c, p, all)
    ensures TextAt(c, p, a) && TextAt(c, p + |a|, b) && TextAt(c, p + |a| + |b|, d)
    ensures |all| == |a| + |b| + |d|
  {
    TextAtSplit(c, p, a + b, d);
    TextAtSplit(c, p, a, b);
  }

  /** The text of an element list starts at p, reached from `from` over blanks, and ends at the closing
      bracket. */
  predicate ItemsAt(
      c: string, length: nat, from: nat, p: nat, close: nat, texts: seq<string>, format: bool)
  {
    && Readable(c, length) && texts != []
    && TextAt(c, p, JoinItems(texts, format)) && p + |JoinItems(texts, format)| == close
    && close < length && c[close] == ']' && BlanksTo(c, from, p)
  }

  lemma {:induction false} ElementsParse(
      b: Input, from: nat, p: nat, close: nat, items: seq<Value>, texts: seq<string>, format: bool, nesting: nat)
    requires AllRead(b, items, texts, nesting) && Sound(b)
    requires ItemsAt(b.c, b.length, from, p, close, texts, format)
    ensures from <= b.length && ParseElements(b, from, nesting) == Parsed(items, close + 1)
    decreases |items|
  {
    var end, q := ElementIsRead(b, from, p, close, items, texts, format, nesting);
    if |items| == 1 {
      LastElement(b, from, p, end, items, nesting);
    } else {
      ElementsParse(b, end + 1, q, close, items[1..], texts[1..], format, nesting);
      OneMoreElement(b, from, p, end, items, nesting, close + 1);
    }
  }

  lemma ElementIsRead(
      b: Input, from: nat, p: nat, close: nat, items: seq<Value>, texts: seq<string>, format: bool, nesting: nat)
      returns (end: nat, q: nat)
    requires AllRead(b, items, texts, nesting) && Sound(b)
    requires ItemsAt(b.c, b.length, from, p, close, texts, format)
    ensures items != [] && from <= p && p < end < b.length && Skip(b, from) == p
    ensures ParseValue(b, p, nesting) == Parsed(items[0], end)
    ensures |items| == 1 ==> end == close && b.c[end] == ']'
    ensures |items| > 1 ==>
      && b.c[end] == ',' && AllRead(b, items[1..], texts[1..], nesting)
      && ItemsAt(b.c, b.length, end + 1, q, close, texts[1..], format)
  {
    end, q := FirstItem(b.c, b.length, from, p, close, texts, format);
    assert ReadsAt(b, items[0], texts[0], nesting, p, end);
  }

  /** The first element and what follows it. */
  lemma FirstItem(c: string, length: nat, from: nat, p: nat, close: nat, texts: seq<string>, format: bool)
      returns (end: nat, q: nat)
    requires ItemsAt(c, length, from, p, close, texts, format) && Visible(texts[0])
    ensures p < end && SkipBlanks(c, length, from) == p && Placed(c, length, p, end, texts[0])
    ensures |texts| == 1 ==> end == close
    ensures |texts| > 1 ==> c[end] == ',' && ItemsAt(c, length, end + 1, q, close, texts[1..], format)
  {
    var sep, rest := ItemSeparator(|texts| > 1, format), JoinItems(texts[1..], format);
    ThreePieces(c, p, texts[0], sep, rest, JoinItems(texts, format));
    end := p + |texts[0]|;
    q := end + |sep|;
    VisibleAt(c, p, texts[0]);
    SkipTo(c, length, from, p);
    if |texts| > 1 { SignAt(c, end, sep, ','); }
  }

  lemma LastElement(
      b: Input, from: nat, p: nat, end: nat, items: seq<Value>, nesting: nat)
    requires |items| == 1
    requires Sound(b) && from <= p && p < end < b.length && Skip(b, from) == p
    requires ParseValue(b, p, nesting) == Parsed(items[0], end) && b.c[end] == ']'
    ensures ParseElements(b, from, nesting) == Parsed(items, end + 1)
  {
    assert items == [items[0]];
    SkipTo(b.c, b.length, end, end);
  }

  lemma OneMoreElement(
      b: Input, from: nat, p: nat, end: nat, items: seq<Value>, nesting: nat, stop: nat)
    requires |items| > 1
    requires Sound(b) && from <= p && p < end < b.length && Skip(b, from) == p
    requires ParseValue(b, p, nesting) == Parsed(items[0], end) && b.c[end] == ','
    requires ParseElements(b, end + 1, nesting) == Parsed(items[1..], stop)
    ensures ParseElements(b, from, nesting) == Parsed(items, stop)
  {
    assert items == [items[0]] + items[1..];
    SkipTo(b.c, b.length, end, end);
  }

  // Objects, over the texts of their keys and values

  datatype Piece = Piece(key: string, value: string)

  /** What stands in front of a key, behind it, behind a value that others follow, and behind the last. */
  datatype Layout = Layout(indent: string, colon: string, more: string, last: string)

  function LayoutOf(format: bool, depth: nat): Layout {
    Layout(Indentation(format, depth), Colon(format), MemberEnd(true, format), MemberEnd(false, format))
  }

  /** A sign and blanks. */
  predicate Sign(t: string, x: char) {
    t != [] && t[0] == x && AllBlank(t[1..])
  }

  predicate Neat(l: Layout) {
    AllBlank(l.indent) && Sign(l.colon, ':') && Sign(l.more, ',') && AllBlank(l.last)
  }

  lemma LayoutIsNeat(format: bool, depth: nat)
    ensures Neat(LayoutOf(format, depth))
  {
    TabsBlank(depth);
  }

  function MemberTexts(ms: seq<Entry<Value>>, format: bool, depth: nat): (r: seq<Piece>)
    ensures |r| == |ms|
  {
    if ms == [] then []
    else [Piece(RenderString(ms[0].key), Render(ms[0].value, format, depth))] + MemberTexts(ms[1..], format, depth)
  }

  function JoinMembers(texts: seq<Piece>, l: Layout): string {
    if texts == [] then []
    else
      (l.indent + texts[0].key + l.colon) + texts[0].value + (if |texts| > 1 then l.more else l.last)
      + JoinMembers(texts[1..], l)
  }

  ghost predicate PieceReads(b: Input, e: Entry<Value>, t: Piece, nesting: nat) {
    KeyReads(b, e.key, t.key) && Reads(b, e.value, t.value, nesting)
  }

  ghost predicate AllMembersRead(b: Input, ms: seq<Entry<Value>>, texts: seq<Piece>, nesting: nat)
    decreases |ms|
  {
    && |ms| == |texts|
    && (ms == [] || (PieceReads(b, ms[0], texts[0], nesting) && AllMembersRead(b, ms[1..], texts[1..], nesting)))
  }

  lemma {:induction false} MembersRead(
      b: Input, ms: seq<Entry<Value>>, texts: seq<Piece>, format: bool, depth: nat, nesting: nat)
    requires Faithful(b) && CleanMembers(ms) && nesting + MembersHeight(ms) <= NESTING_LIMIT
    requires texts == MemberTexts(ms, format, depth)
    ensures AllMembersRead(b, ms, texts, nesting)
    ensures RenderMembers(ms, format, depth) == JoinMembers(texts, LayoutOf(format, depth))
    decreases ms, 0
  {
    if ms != [] {
      ValueReads(b, ms[0].value, texts[0].value, format, depth, nesting);
      MembersRead(b, ms[1..], texts[1..], format, depth, nesting);
    }
  }

  lemma ObjectReads(
      b: Input, ms: seq<Entry<Value>>, texts: seq<Piece>, l: Layout, open: string, close: string, all: string,
      nesting: nat)
    requires Sound(b) && AllMembersRead(b, ms, texts, nesting + 1) && nesting < NESTING_LIMIT
    requires Neat(l) && Sign(open, '{') && AllBlank(close) && all == open + JoinMembers(texts, l) + (close + "}")
    ensures Reads(b, Object(ms), all, nesting)
  {
    assert all[0] == open[0];
    forall p: nat, end: nat ensures ReadsAt(b, Object(ms), all, nesting, p, end) {
      if Placed(b.c, b.length, p, end, all) {
        ObjectReadsAt(b, ms, texts, l, open, close, nesting, p, end, all);
      }
    }
  }

  lemma ObjectReadsAt(
      b: Input, ms: seq<Entry<Value>>, texts: seq<Piece>, l: Layout, open: string, close: string, nesting: nat,
      p: nat, end: nat, all: string)
    requires Sound(b) && AllMembersRead(b, ms, texts, nesting + 1) && nesting < NESTING_LIMIT
    requires Neat(l) && Sign(open, '{') && AllBlank(close) && all == open + JoinMembers(texts, l) + (close + "}")
    requires Placed(b.c, b.length, p, end, all)
    ensures ParseValue(b, p, nesting) == Parsed(Object(ms), end)
  {
    if ms != [] { HeadIsRead(b, ms, texts, nesting + 1); }
    var quote, start, stop := ObjectOpens(b.c, b.length, p, end, texts, l, open, close, all);
    if ms != [] { MembersParse(b, quote, start, stop, end - 1, ms, texts, l, nesting + 1); }
    ObjectParses(b, ms, nesting, p, quote, end);
  }

  lemma ObjectParses(b: Input, ms: seq<Entry<Value>>, nesting: nat, p: nat, quote: nat, end: nat)
    requires Sound(b) && nesting < NESTING_LIMIT && p < quote < end <= b.length && b.c[p] == '{'
    requires Skip(b, p + 1) == quote && b.c[quote] == (if ms == [] then '}' else '\"')
    requires ms == [] ==> quote == end - 1
    requires ms != [] ==> ParseMembers(b, quote, nesting + 1) == Parsed(ms, end)
    ensures ParseValue(b, p, nesting) == Parsed(Object(ms), end)
  {
  }

  /** The members of a printed object stand between the braces. */
  lemma ObjectOpens(
      c: string, length: nat, p: nat, end: nat, texts: seq<Piece>, l: Layout, open: string, close: string,
      all: string) returns (quote: nat, start: nat, stop: nat)
    requires Neat(l) && Sign(open, '{') && AllBlank(close) && all == open + JoinMembers(texts, l) + (close + "}")
    requires Placed(c, length, p, end, all) && (texts != [] ==> Quoted(texts[0].key))
    ensures p < quote < end && p + 2 <= end <= length && c[p] == '{' && c[end - 1] == '}'
    ensures SkipBlanks(c, length, p + 1) == quote && c[quote] == (if texts == [] then '}' else '\"')
    ensures texts == [] ==> quote == end - 1
    ensures texts != [] ==> MembersAt(c, length, quote, start, stop, end - 1, texts, l)
  {
    var list := JoinMembers(texts, l);
    start := p + |open|;
    stop := start + |list|;
    ThreePieces(c, p, open, list, close + "}", all);
    SignAt(c, p, open, '{');
    TextAtSplit(c, stop, close, "}");
    TextAtIndex(c, end - 1, "}", 0);
    BlankText(c, stop, close, 0);
    quote := end - 1;
    if texts != [] { quote := FirstQuote(c, start, stop, texts, l); }
    BlankJoin(c, p + 1, start, quote);
    SkipTo(c, length, p + 1, quote);
  }

  lemma SignAt(c: string, p: nat, t: string, x: char)
    requires TextAt(c, p, t) && Sign(t, x)
    ensures p < p + |t| <= |c| && c[p] == x && BlanksTo(c, p + 1, p + |t|)
  {
    TextAtIndex(c, p, t, 0);
    assert t == [t[0]] + t[1..];
    TextAtSplit(c, p, [t[0]], t[1..]);
    BlankText(c, p + 1, t[1..], 0);
  }

  /** The text of a member list starts at p, reached from `from` over blanks, and ends at `stop`, with
      only blanks before the closing brace. */
  predicate MembersAt(
      c: string, length: nat, from: nat, p: nat, stop: nat, close: nat, texts: seq<Piece>, l: Layout)
  {
    && Readable(c, length) && Neat(l) && texts != []
    && TextAt(c, p, JoinMembers(texts, l)) && p + |JoinMembers(texts, l)| == stop
    && BlanksTo(c, stop, close) && close < length && c[close] == '}'
    && BlanksTo(c, from, p + |l.indent|) && from < length
  }

  /** The pieces of the text of a member list. */
  lemma MemberPieces(c: string, p: nat, stop: nat, texts: seq<Piece>, l: Layout)
      returns (at: nat, end: nat, q: nat)
    requires texts != [] && TextAt(c, p, JoinMembers(texts, l)) && stop == p + |JoinMembers(texts, l)|
    ensures var key := l.indent + texts[0].key + l.colon; TextAt(c, p, key) && at == p + |key|
    ensures TextAt(c, at, texts[0].value) && end == at + |texts[0].value|
    ensures var sep := if |texts| > 1 then l.more else l.last; TextAt(c, end, sep) && q == end + |sep|
    ensures TextAt(c, q, JoinMembers(texts[1..], l)) && stop == q + |JoinMembers(texts[1..], l)|
  {
    at, end, q := FourPieces(
      c, p, l.indent + texts[0].key + l.colon, texts[0].value, if |texts| > 1 then l.more else l.last,
      JoinMembers(texts[1..], l), JoinMembers(texts, l));
  }

  lemma FourPieces(c: string, p: nat, a: string, b: string, d: string, e: string, all: string)
      returns (at: nat, end: nat, q: nat)
    requires all == a + b + d + e && TextAt(c, p, all)
    ensures TextAt(c, p, a) && at == p + |a|
    ensures TextAt(c, at, b) && end == at + |b|
    ensures TextAt(c, end, d) && q == end + |d|
    ensures TextAt(c, q, e) && p + |all| == q + |e|
  {
    at, end := p + |a|, p + |a| + |b|;
    q := end + |d|;
    TextAtSplit(c, p, a + b + d, e);
    TextAtSplit(c, p, a + b, d);
    TextAtSplit(c, p, a, b);
  }

  /** Where the key of the first member is quoted, behind its indentation. */
  lemma FirstQuote(c: string, p: nat, stop: nat, texts: seq<Piece>, l: Layout) returns (quote: nat)
    requires texts != [] && TextAt(c, p, JoinMembers(texts, l)) && stop == p + |JoinMembers(texts, l)|
    requires Neat(l) && Quoted(texts[0].key)
    ensures quote == p + |l.indent| < stop <= |c| && BlanksTo(c, p, quote) && c[quote] == '\"'
  {
    var at, end, q := MemberPieces(c, p, stop, texts, l);
    quote := KeyQuote(c, p, texts[0].key, l);
  }

  lemma KeyQuote(c: string, p: nat, key: string, l: Layout) returns (quote: nat)
    requires TextAt(c, p, l.indent + key + l.colon) && Neat(l) && Quoted(key)
    ensures quote == p + |l.indent| < |c| && BlanksTo(c, p, quote) && c[quote] == '\"'
    ensures TextAt(c, quote, key) && TextAt(c, quote + |key|, l.colon)
  {
    quote := p + |l.indent|;
    ThreePieces(c, p, l.indent, key, l.colon, l.indent + key + l.colon);
    TextAtIndex(c, quote, key, 0);
    BlankText(c, p, l.indent, 0);
  }

  /** Where the key, the colon and the value of a member stand. */
  predicate KeyedAt(c: string, length: nat, from: nat, quote: nat, colon: nat, at: nat, end: nat, t: Piece) {
    && from <= quote < colon < at < end && colon < length <= |c| && SkipBlanks(c, length, from) == quote
    && QuotedAt(c, length, quote, colon, t.key) && c[colon] == ':'
    && SkipBlanks(c, length, colon + 1) == at && Placed(c, length, at, end, t.value)
  }

  lemma MemberParses(
      b: Input, from: nat, quote: nat, colon: nat, at: nat, end: nat, e: Entry<Value>, t: Piece, nesting: nat)
    requires Sound(b) && KeyedAt(b.c, b.length, from, quote, colon, at, end, t) && PieceReads(b, e, t, nesting)
    ensures ParseMember(b, from, nesting) == Parsed(e, end)
  {
    assert KeyReadsAt(b, e.key, t.key, quote, colon);
    assert ReadsAt(b, e.value, t.value, nesting, at, end);
    SkipTo(b.c, b.length, colon, colon);
  }

  lemma KeyBefore(c: string, length: nat, from: nat, p: nat, at: nat, key: string, l: Layout)
      returns (quote: nat, colon: nat)
    requires TextAt(c, p, l.indent + key + l.colon) && at == p + |l.indent + key + l.colon|
    requires Neat(l) && Quoted(key)
    requires at < length <= |c| && c[at] > ' ' && BlanksTo(c, from, p + |l.indent|)
    ensures from <= quote < colon < at && SkipBlanks(c, length, from) == quote && c[colon] == ':'
    ensures QuotedAt(c, length, quote, colon, key) && SkipBlanks(c, length, colon + 1) == at
  {
    quote := KeyQuote(c, p, key, l);
    colon := quote + |key|;
    SkipTo(c, length, from, quote);
    SignAt(c, colon, l.colon, ':');
    SkipTo(c, length, colon + 1, at);
  }

  lemma HeadIsRead(b: Input, ms: seq<Entry<Value>>, texts: seq<Piece>, nesting: nat)
    requires ms != [] && AllMembersRead(b, ms, texts, nesting)
    ensures |ms| == |texts| && PieceReads(b, ms[0], texts[0], nesting)
    ensures AllMembersRead(b, ms[1..], texts[1..], nesting)
    ensures |ms| > 1 ==> Quoted(texts[1].key)
  {
    if |ms| > 1 { assert PieceReads(b, ms[1..][0], texts[1..][0], nesting); }
  }

  lemma {:induction false} MembersParse(
      b: Input, from: nat, p: nat, stop: nat, close: nat, ms: seq<Entry<Value>>, texts: seq<Piece>, l: Layout,
      nesting: nat)
    requires Sound(b) && ms != [] && AllMembersRead(b, ms, texts, nesting)
    requires MembersAt(b.c, b.length, from, p, stop, close, texts, l)
    ensures ParseMembers(b, from, nesting) == Parsed(ms, close + 1)
    decreases |ms|
  {
    var end, q := MemberIsRead(b, from, p, stop, close, ms, texts, l, nesting);
    if |ms| == 1 {
      LastMember(b, from, end, close, ms, nesting);
    } else {
      MembersParse(b, end + 1, q, stop, close, ms[1..], texts[1..], l, nesting);
      OneMoreMember(b, from, end, ms, nesting, close + 1);
    }
  }

  /** The first member is read. */
  lemma MemberReads(
      b: Input, from: nat, p: nat, stop: nat, close: nat, e: Entry<Value>, texts: seq<Piece>, l: Layout,
      nesting: nat) returns (end: nat, q: nat)
    requires Sound(b) && MembersAt(b.c, b.length, from, p, stop, close, texts, l)
    requires PieceReads(b, e, texts[0], nesting) && (|texts| > 1 ==> Quoted(texts[1].key))
    ensures from < end < b.length && ParseMember(b, from, nesting) == Parsed(e, end)
    ensures |texts| == 1 ==> BlanksTo(b.c, end, close)
    ensures |texts| > 1 ==> b.c[end] == ',' && MembersAt(b.c, b.length, end + 1, q, stop, close, texts[1..], l)
  {
    var quote, colon, at;
    quote, colon, at, end, q := NextMember(b.c, b.length, from, p, stop, close, texts, l);
    MemberParses(b, from, quote, colon, at, end, e, texts[0], nesting);
  }

  lemma MemberIsRead(
      b: Input, from: nat, p: nat, stop: nat, close: nat, ms: seq<Entry<Value>>, texts: seq<Piece>, l: Layout,
      nesting: nat) returns (end: nat, q: nat)
    requires Sound(b) && ms != [] && AllMembersRead(b, ms, texts, nesting)
    requires MembersAt(b.c, b.length, from, p, stop, close, texts, l)
    ensures from < end < b.length && ParseMember(b, from, nesting) == Parsed(ms[0], end)
    ensures end <= close < b.length && b.c[close] == '}' && end + 1 < |b.c|
    ensures |ms| == 1 ==> BlanksTo(b.c, end, close)
    ensures |ms| > 1 ==>
      && b.c[end] == ',' && AllMembersRead(b, ms[1..], texts[1..], nesting)
      && MembersAt(b.c, b.length, end + 1, q, stop, close, texts[1..], l)
  {
    HeadIsRead(b, ms, texts, nesting);
    end, q := MemberReads(b, from, p, stop, close, ms[0], texts, l, nesting);
  }

  /** The first member and what follows it. */
  lemma NextMember(
      c: string, length: nat, from: nat, p: nat, stop: nat, close: nat, texts: seq<Piece>, l: Layout)
      returns (quote: nat, colon: nat, at: nat, end: nat, q: nat)
    requires MembersAt(c, length, from, p, stop, close, texts, l)
    requires Quoted(texts[0].key) && Visible(texts[0].value) && (|texts| > 1 ==> Quoted(texts[1].key))
    ensures KeyedAt(c, length, from, quote, colon, at, end, texts[0])
    ensures |texts| == 1 ==> BlanksTo(c, end, close)
    ensures |texts| > 1 ==> c[end] == ',' && MembersAt(c, length, end + 1, q, stop, close, texts[1..], l)
  {
    at, end, q := MemberPieces(c, p, stop, texts, l);
    VisibleAt(c, at, texts[0].value);
    quote, colon := KeyBefore(c, length, from, p, at, texts[0].key, l);
    if |texts| == 1 {
      LastEnd(c, end, q, close, l.last);
    } else {
      Others(c, length, end, q, stop, close, texts[1..], l);
    }
  }

  lemma Others(
      c: string, length: nat, end: nat, q: nat, stop: nat, close: nat, texts: seq<Piece>, l: Layout)
    requires Readable(c, length) && texts != [] && Quoted(texts[0].key) && Neat(l)
    requires TextAt(c, end, l.more) && q == end + |l.more|
    requires TextAt(c, q, JoinMembers(texts, l)) && q + |JoinMembers(texts, l)| == stop
    requires BlanksTo(c, stop, close) && close < length && c[close] == '}'
    ensures end < length && c[end] == ',' && MembersAt(c, length, end + 1, q, stop, close, texts, l)
  {
    SignAt(c, end, l.more, ',');
    var next := FirstQuote(c, q, stop, texts, l);
    BlankJoin(c, end + 1, q, next);
  }

  /** Behind the last value there are only blanks before the closing brace. */
  lemma LastEnd(c: string, end: nat, q: nat, close: nat, last: string)
    requires TextAt(c, end, last) && q == end + |last| && AllBlank(last)
    requires BlanksTo(c, q, close) && close < |c| && c[close] == '}'
    ensures BlanksTo(c, end, close) && !NumberChar(c[end])
  {
    BlankText(c, end, last, 0);
    BlankJoin(c, end, q, close);
  }

  lemma LastMember(
      b: Input, from: nat, end: nat, close: nat, ms: seq<Entry<Value>>, nesting: nat)
    requires |ms| == 1
    requires Sound(b) && from < end <= close < b.length && BlanksTo(b.c, end, close)
    requires ParseMember(b, from, nesting) == Parsed(ms[0], end) && b.c[close] == '}'
    ensures ParseMembers(b, from, nesting) == Parsed(ms, close + 1)
  {
    assert ms == [ms[0]];
    SkipTo(b.c, b.length, end, close);
  }

  lemma OneMoreMember(
      b: Input, from: nat, end: nat, ms: seq<Entry<Value>>, nesting: nat, stop: nat)
    requires |ms| > 1
    requires Sound(b) && from < end < b.length && b.c[end] == ',' && end + 1 < |b.c|
    requires ParseMember(b, from, nesting) == Parsed(ms[0], end)
    requires ParseMembers(b, end + 1, nesting) == Parsed(ms[1..], stop)
    ensures ParseMembers(b, from, nesting) == Parsed(ms, stop)
  {
    assert ms == [ms[0]] + ms[1..];
    SkipTo(b.c, b.length, end, end);
  }

  // Whole texts

  /** Parser undoes printer: parsing the formatted or the unformatted print of a tree nested at most
      1000 deep gives the same tree, members and elements in the same order and duplicate keys included. */
  lemma ParseUndoesPrint(v: Value, format: bool, requireNullTerminated: bool)
    requires Printable(v) && NulFreeTree(v) && Height(v) <= NESTING_LIMIT
    ensures var r := Render(v, format, 0);
      ParseText(r + [NUL], |r| + 1, requireNullTerminated) == Parsed(v, |r|)
  {
    PrintableIsClean(v);
    ParseUndoesCleanPrint(v, format, requireNullTerminated);
  }

  lemma ParseUndoesCleanPrint(v: Value, format: bool, requireNullTerminated: bool)
    requires Clean(v) && Height(v) <= NESTING_LIMIT
    ensures var r := Render(v, format, 0);
      ParseText(r + [NUL], |r| + 1, requireNullTerminated) == Parsed(v, |r|)
  {
    var r := Render(v, format, 0);
    ParseTerminated(r, v, format);
    OnlyTerminatorLeft(r);
    WholeParse(r + [NUL], v, |r|, requireNullTerminated);
  }

  lemma WholeParse(c: string, v: Value, n: nat, requireNullTerminated: bool)
    requires Readable(c, |c|) && n < |c| && c[n] == NUL
    requires SkipBom(c, |c|) == 0 && SkipBlanks(c, |c|, 0) == 0 && SkipBlanks(c, |c|, n) == n
    requires ParseValue(InputOf(c, |c|), 0, 0) == Parsed(v, n)
    ensures ParseText(c, |c|, requireNullTerminated) == Parsed(v, n)
  {
  }

  lemma ParseTerminated(r: string, v: Value, format: bool)
    requires r == Render(v, format, 0) && Clean(v) && Height(v) <= NESTING_LIMIT
    ensures var c := r + [NUL];
      SkipBom(c, |c|) == 0 && SkipBlanks(c, |c|, 0) == 0 && ParseValue(InputOf(c, |c|), 0, 0) == Parsed(v, |r|)
  {
    var c := r + [NUL];
    var b := InputOf(c, |c|);
    InputIsFaithful(c, |c|);
    ValueReads(b, v, r, format, 0, 0);
    assert TextAt(c, 0, r);
    assert ReadsAt(b, v, r, 0, 0, |r|);
    VisibleAt(c, 0, r);
    RenderStarts(v, format, 0);
    SkipTo(c, |c|, 0, 0);
  }

  lemma OnlyTerminatorLeft(r: string)
    ensures SkipBlanks(r + [NUL], |r| + 1, |r|) == |r|
  {
    var c := r + [NUL];
    assert BlankEnd(c, |c|, |r|) == BlankEnd(c, |c|, |r| + 1) == |c|;
  }
}
