/** The text of a tree as a pure function: what the in-place printer is measured against. */
module Rendering {
  import opened CText
  import opened Json
  import opened Options
  import opened Pointer

  function HexDigit(d: nat): char
    requires d < 16
  {
    if d < 10 then '0' + d as char else 'a' + (d - 10) as char
  }

  /** "%04x" of a control character. */
  function Hex4(c: char): (r: string)
    requires c < ' '
    ensures |r| == 4
  {
    ['0', '0', HexDigit(c as nat / 16), HexDigit(c as nat % 16)]
  }

  predicate Plain(c: char) {
    c >= ' ' && c != '\"' && c != '\\'
  }

  /** The letter of a two-character escape sequence. */
  function ShortEscape(c: char): Option<char> {
    if c == '\\' then Some('\\')
    else if c == '\"' then Some('\"')
    else if c == 8 as char then Some('b')
    else if c == 12 as char then Some('f')
    else if c == '\n' then Some('n')
    else if c == '\r' then Some('r')
    else if c == '\t' then Some('t')
    else None
  }

  function EscapeChar(c: char): (r: string)
    ensures 1 <= |r| <= 6
    ensures Plain(c) <==> |r| == 1
  {
    if Plain(c) then [c]
    else if ShortEscape(c).Some? then ['\\', ShortEscape(c).value]
    else "\\u" + Hex4(c)
  }

  function Escape(s: string): string {
    if s == [] then [] else EscapeChar(s[0]) + Escape(s[1..])
  }

  function RenderString(s: string): string {
    "\"" + Escape(s) + "\""
  }

  /** What "%d" prints. */
  function IntText(n: int): string {
    if n < 0 then "-" + IndexText(-n) else IndexText(n)
  }

  function Tabs(n: nat): (r: string)
    ensures |r| == n
  {
    if n == 0 then [] else "\t" + Tabs(n - 1)
  }

  /** No invalid item: print_value has a text for every other type. */
  predicate Printable(v: Value) {
    match v
    case Invalid => false
    case Array(items) => forall i :: 0 <= i < |items| ==> Printable(items[i])
    case Object(ms) => forall i :: 0 <= i < |ms| ==> Printable(ms[i].value)
    case _ => true
  }

  /** Every string and key is a C string. */
  predicate NulFreeTree(v: Value) {
    match v
    case String(s) => NulFree(s)
    case Array(items) => forall i :: 0 <= i < |items| ==> NulFreeTree(items[i])
    case Object(ms) => forall i :: 0 <= i < |ms| ==> NulFree(ms[i].key) && NulFreeTree(ms[i].value)
    case _ => true
  }

  function Render(v: Value, format: bool, depth: nat): string
    decreases v
  {
    match v
    case Invalid => []
    case Null => "null"
    case False => "false"
    case True => "true"
    case Number(n) => IntText(n)
    case String(s) => RenderString(s)
    case Array(items) => "[" + RenderItems(items, format, depth + 1) + "]"
    case Object(ms) => Opening(format) + RenderMembers(ms, format, depth + 1) + Closing(format, depth)
  }

  function Opening(format: bool): string {
    if format then "{\n" else "{"
  }

  function Closing(format: bool, depth: nat): string {
    if format then Tabs(depth) + "}" else "}"
  }

  /** The elements of an array; depth counts the array itself. */
  function RenderItems(items: seq<Value>, format: bool, depth: nat): string
    decreases items
  {
    if items == [] then []
    else
      Render(items[0], format, depth) + ItemSeparator(|items| > 1, format) + RenderItems(items[1..], format, depth)
  }

  function ItemSeparator(more: bool, format: bool): string {
    if !more then [] else if format then ", " else ","
  }

  function RenderMembers(ms: seq<Entry<Value>>, format: bool, depth: nat): string
    decreases ms
  {
    if ms == [] then []
    else
      MemberText(ms[0], format, depth) + MemberEnd(|ms| > 1, format) + RenderMembers(ms[1..], format, depth)
  }

  /** One member up to the end of its value. */
  function MemberText(e: Entry<Value>, format: bool, depth: nat): string
    decreases e
  {
    MemberStart(e.key, format, depth) + Render(e.value, format, depth)
  }

  function MemberStart(key: string, format: bool, depth: nat): string {
    Indentation(format, depth) + RenderString(key) + Colon(format)
  }

  function Indentation(format: bool, depth: nat): string {
    if format then Tabs(depth) else []
  }

  function Colon(format: bool): string {
    if format then ":\t" else ":"
  }

  function MemberEnd(more: bool, format: bool): string {
    (if more then "," else []) + (if format then "\n" else [])
  }

  // No NUL in the text, so strlen finds its end

  lemma {:induction false} EscapeNulFree(s: string)
    requires NulFree(s)
    ensures NulFree(Escape(s))
  {
    if s != [] { EscapeNulFree(s[1..]); }
  }

  lemma {:induction false} TabsNulFree(n: nat)
    ensures NulFree(Tabs(n))
  {
    if n > 0 { TabsNulFree(n - 1); }
  }

  lemma IntTextNulFree(n: int)
    ensures NulFree(IntText(n))
  {
    IndexTextIsDigits(if n < 0 then -n else n);
  }

  lemma NulFreeConcat(a: string, b: string)
    requires NulFree(a) && NulFree(b)
    ensures NulFree(a + b)
  {
  }

  lemma MemberStartNulFree(key: string, format: bool, depth: nat)
    requires NulFree(key)
    ensures NulFree(MemberStart(key, format, depth))
  {
    TabsNulFree(depth);
    EscapeNulFree(key);
    NulFreeConcat("\"", Escape(key));
    NulFreeConcat("\"" + Escape(key), "\"");
    NulFreeConcat(Indentation(format, depth), RenderString(key));
    NulFreeConcat(Indentation(format, depth) + RenderString(key), Colon(format));
  }

  lemma ClosingNulFree(format: bool, depth: nat)
    ensures NulFree(Closing(format, depth))
  {
    TabsNulFree(depth);
    NulFreeConcat(Tabs(depth), "}");
  }

  lemma {:induction false} RenderNulFree(v: Value, format: bool, depth: nat)
    requires NulFreeTree(v)
    ensures NulFree(Render(v, format, depth))
    decreases v
  {
    match v
    case Number(n) => IntTextNulFree(n);
    case String(s) =>
      EscapeNulFree(s);
      NulFreeConcat("\"", Escape(s));
      NulFreeConcat("\"" + Escape(s), "\"");
    case Array(items) =>
      ItemsNulFree(items, format, depth + 1);
      NulFreeConcat("[", RenderItems(items, format, depth + 1));
      NulFreeConcat("[" + RenderItems(items, format, depth + 1), "]");
    case Object(ms) =>
      MembersNulFree(ms, format, depth + 1);
      ClosingNulFree(format, depth);
      NulFreeConcat(Opening(format), RenderMembers(ms, format, depth + 1));
      NulFreeConcat(Opening(format) + RenderMembers(ms, format, depth + 1), Closing(format, depth));
    case _ =>
  }

  lemma {:induction false} ItemsNulFree(items: seq<Value>, format: bool, depth: nat)
    requires forall i :: 0 <= i < |items| ==> NulFreeTree(items[i])
    ensures NulFree(RenderItems(items, format, depth))
    decreases items
  {
    if items != [] {
      RenderNulFree(items[0], format, depth);
      ItemsNulFree(items[1..], format, depth);
    }
  }

  lemma {:induction false} MembersNulFree(ms: seq<Entry<Value>>, format: bool, depth: nat)
    requires forall i :: 0 <= i < |ms| ==> NulFree(ms[i].key) && NulFreeTree(ms[i].value)
    ensures NulFree(RenderMembers(ms, format, depth))
    decreases ms
  {
    if ms != [] {
      var start, value := MemberStart(ms[0].key, format, depth), Render(ms[0].value, format, depth);
      var end := MemberEnd(|ms| > 1, format);
      MemberStartNulFree(ms[0].key, format, depth);
      RenderNulFree(ms[0].value, format, depth);
      MembersNulFree(ms[1..], format, depth);
      NulFreeConcat(start, value);
      NulFreeConcat(start + value, end);
      NulFreeConcat(start + value + end, RenderMembers(ms[1..], format, depth));
    }
  }

  /** An int takes at most eleven characters, less than the number buffer holds. */
  lemma IntTextShort(n: int)
    requires -0x8000_0000 <= n < 0x8000_0000
    ensures 1 <= |IntText(n)| <= 11
  {
    IndexTextShort(if n < 0 then -n else n, 9);
  }

  function Pow10(k: nat): (r: nat)
    ensures r > 0
  {
    if k == 0 then 1 else 10 * Pow10(k - 1)
  }

  lemma {:induction false} IndexTextShort(n: nat, k: nat)
    requires n < 10 * Pow10(k)
    ensures |IndexText(n)| <= k + 1
  {
    if n >= 10 {
      IndexTextShort(n / 10, k - 1);
    }
  }
}
