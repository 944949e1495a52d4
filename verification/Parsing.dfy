/** The recursive structure of the parser, over whatever its lexical layer reads. */
module Parsing {
  import opened CText
  import opened Json
  import opened Scanning

  const NESTING_LIMIT: nat := 1000

  /** A parse buffer with what its lexical layer reads at each position: a value that is no array or
      object, and a quoted string. */
  datatype Input = Input(c: string, length: nat, scalar: nat -> Parsed<Value>, quoted: nat -> Parsed<string>)

  /** Reading something moves forward and stays inside the input. */
  ghost predicate Sound(b: Input) {
    && Readable(b.c, b.length)
    && (forall p: nat :: b.scalar(p).Parsed? ==> p < b.scalar(p).offset <= b.length)
    && (forall p: nat :: b.quoted(p).Parsed? ==> p < b.quoted(p).offset <= b.length)
  }

  /** The buffer of the C program. */
  function InputOf(c: string, length: nat): (b: Input)
    requires Readable(c, length)
    ensures b.c == c && b.length == length
    ensures Sound(b)
  {
    Input(c, length,
          (p: nat) => if p <= length then ParseScalar(c, length, p) else Failed,
          (p: nat) => if p <= length && p < |c| then ParseString(c, length, p) else Failed)
  }

  function Skip(b: Input, p: nat): (r: nat)
    requires Sound(b) && p <= b.length
    ensures p <= r <= b.length
    ensures p < b.length ==> r < b.length
  {
    SkipBlanks(b.c, b.length, p)
  }

  function ParseValue(b: Input, offset: nat, depth: nat): (r: Parsed<Value>)
    requires Sound(b) && offset <= b.length
    ensures r.Parsed? ==> offset < r.offset <= b.length
    decreases b.length - offset, 0
  {
    if offset < b.length && b.c[offset] == '[' then ParseArray(b, offset, depth)
    else if offset < b.length && b.c[offset] == '{' then ParseObject(b, offset, depth)
    else b.scalar(offset)
  }

  function ParseArray(b: Input, offset: nat, depth: nat): (r: Parsed<Value>)
    requires Sound(b) && offset < b.length
    ensures r.Parsed? ==> offset < r.offset <= b.length
    decreases b.length - offset - 1, 3
  {
    if depth >= NESTING_LIMIT then Failed
    else
      var p := Skip(b, offset + 1);
      if p == b.length then Failed
      else if b.c[p] == ']' then Parsed(Array([]), p + 1)
      else
        var r := ParseElements(b, p, depth + 1);
        if r.Parsed? then Parsed(Array(r.value), r.offset) else Failed
  }

  /** The elements from the one that starts behind the blanks at p, and the closing bracket. */
  function ParseElements(b: Input, p: nat, depth: nat): (r: Parsed<seq<Value>>)
    requires Sound(b) && p <= b.length
    ensures r.Parsed? ==> p < r.offset <= b.length
    decreases b.length - p, 1
  {
    var v := ParseValue(b, Skip(b, p), depth);
    if v.Failed? then Failed
    else
      var q := Skip(b, v.offset);
      if q == b.length then Failed
      else if b.c[q] == ',' then
        var rest := ParseElements(b, q + 1, depth);
        if rest.Parsed? then Parsed([v.value] + rest.value, rest.offset) else Failed
      else if b.c[q] == ']' then Parsed([v.value], q + 1)
      else Failed
  }

  function ParseObject(b: Input, offset: nat, depth: nat): (r: Parsed<Value>)
    requires Sound(b) && offset < b.length
    ensures r.Parsed? ==> offset < r.offset <= b.length
    decreases b.length - offset - 1, 3
  {
    if depth >= NESTING_LIMIT then Failed
    else
      var p := Skip(b, offset + 1);
      if p == b.length then Failed
      else if b.c[p] == '}' then Parsed(Object([]), p + 1)
      else
        var r := ParseMembers(b, p, depth + 1);
        if r.Parsed? then Parsed(Object(r.value), r.offset) else Failed
  }

  /** The name, the colon and the value of one member. */
  function ParseMember(b: Input, p: nat, depth: nat): (r: Parsed<Entry<Value>>)
    requires Sound(b) && p <= b.length
    ensures r.Parsed? ==> p < r.offset <= b.length
    decreases b.length - p, 1
  {
    var key := b.quoted(Skip(b, p));
    if key.Failed? then Failed
    else
      var q := Skip(b, key.offset);
      if q == b.length || b.c[q] != ':' then Failed
      else
        var v := ParseValue(b, Skip(b, q + 1), depth);
        if v.Failed? then Failed else Parsed(Entry(key.value, v.value), v.offset)
  }

  function ParseMembers(b: Input, p: nat, depth: nat): (r: Parsed<seq<Entry<Value>>>)
    requires Sound(b) && p <= b.length
    ensures r.Parsed? ==> p < r.offset <= b.length
    decreases b.length - p, 2
  {
    var e := ParseMember(b, p, depth);
    if e.Failed? then Failed
    else
      var q := Skip(b, e.offset);
      if q == b.length then Failed
      else if b.c[q] == ',' then
        var rest := ParseMembers(b, q + 1, depth);
        if rest.Parsed? then Parsed([e.value] + rest.value, rest.offset) else Failed
      else if b.c[q] == '}' then Parsed([e.value], q + 1)
      else Failed
  }

  // Whole texts

  /** skip_utf8_bom at the start of the buffer. */
  function SkipBom(c: string, length: nat): (r: nat)
    requires length <= |c|
    ensures r <= length
  {
    if 4 < length && c[0] == 0xEF as char && c[1] == 0xBB as char && c[2] == 0xBF as char then 3 else 0
  }

  /** cJSON_ParseWithLengthOpts: the tree and the position where parsing ended. */
  function ParseText(c: string, length: nat, requireNullTerminated: bool): Parsed<Value>
    requires Readable(c, length)
  {
    if length == 0 then Failed
    else
      var b := InputOf(c, length);
      match ParseValue(b, Skip(b, SkipBom(c, length)), 0)
      case Failed => Failed
      case Parsed(v, offset) =>
        if !requireNullTerminated then Parsed(v, offset)
        else
          var p := Skip(b, offset);
          if p >= length || c[p] != NUL then Failed else Parsed(v, p)
  }
}
