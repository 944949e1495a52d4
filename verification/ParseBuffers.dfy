/** The parser of cJSON: an offset and a nesting depth that move over a buffer, refining the functions
    of module Parsing step by step; the depth always comes back, and the items that are made on the way are
    linked to a tree of valid chains. */
module ParseBuffers {
  import opened CText
  import opened Json
  import opened Unescaping
  import opened Scanning
  import opened Siblings
  import opened ItemTrees
  import Parsing

  /** Elements already read in front of a result. */
  function Prepend<T>(items: seq<T>, r: Parsed<seq<T>>): Parsed<seq<T>> {
    if r.Parsed? then Parsed(items + r.value, r.offset) else Failed
  }

  /** Nothing more is read in front of the closing character. */
  function ListEnd<T>(c: string, length: nat, p: nat, close: char): Parsed<seq<T>>
    requires length <= |c|
  {
    if p < length && c[p] == close then Parsed([], p + 1) else Failed
  }

  lemma PrependNone<T>(r: Parsed<seq<T>>)
    ensures Prepend([], r) == r
  {
    if r.Parsed? { assert [] + r.value == r.value; }
  }

  lemma PrependOneMore<T>(items: seq<T>, x: T, r: Parsed<seq<T>>)
    ensures Prepend(items + [x], r) == Prepend(items, Prepend([x], r))
  {
    if r.Parsed? { assert (items + [x]) + r.value == items + ([x] + r.value); }
  }

  /** What is left of an element list once the blanks behind an element are skipped. */
  function ElementsLeft(b: Parsing.Input, q: nat, depth: nat, more: bool): Parsed<seq<Value>>
    requires Parsing.Sound(b) && q <= b.length && (more ==> q < b.length)
  {
    if more then Parsing.ParseElements(b, q + 1, depth) else ListEnd(b.c, b.length, q, ']')
  }

  function MembersLeft(b: Parsing.Input, q: nat, depth: nat, more: bool): Parsed<seq<Entry<Value>>>
    requires Parsing.Sound(b) && q <= b.length && (more ==> q < b.length)
  {
    if more then Parsing.ParseMembers(b, q + 1, depth) else ListEnd(b.c, b.length, q, '}')
  }

  lemma {:induction false} ListIsRead<T>(
      items: seq<T>, whole: Parsed<seq<T>>, left: Parsed<seq<T>>, ok: bool, offset: nat)
    requires whole == Prepend(items, left) && left == if ok then Parsed([], offset + 1) else Failed
    ensures whole == if ok then Parsed(items, offset + 1) else Failed
  {
    assert items + [] == items;
  }

  /** The element list once the element at p is read and the blanks behind it are skipped. */
  lemma ElementsAfter(
      b: Parsing.Input, whole: Parsed<seq<Value>>, items: seq<Value>, p: nat, depth: nat, x: Value, end: nat,
      q: nat, more: bool)
    requires Parsing.Sound(b) && p <= b.length && end <= b.length
    requires whole == Prepend(items, Parsing.ParseElements(b, p, depth))
    requires Parsing.ParseValue(b, Parsing.Skip(b, p), depth) == Parsed(x, end)
    requires q == Parsing.Skip(b, end) && (more <==> q < b.length && b.c[q] == ',')
    ensures whole == Prepend(items + [x], ElementsLeft(b, q, depth, more))
  {
    assert [x] + [] == [x];
    PrependOneMore(items, x, ElementsLeft(b, q, depth, more));
  }

  lemma MembersAfter(
      b: Parsing.Input, whole: Parsed<seq<Entry<Value>>>, members: seq<Entry<Value>>, p: nat, depth: nat,
      e: Entry<Value>, end: nat, q: nat, more: bool)
    requires Parsing.Sound(b) && p <= b.length && end <= b.length
    requires whole == Prepend(members, Parsing.ParseMembers(b, p, depth))
    requires Parsing.ParseMember(b, p, depth) == Parsed(e, end)
    requires q == Parsing.Skip(b, end) && (more <==> q < b.length && b.c[q] == ',')
    ensures whole == Prepend(members + [e], MembersLeft(b, q, depth, more))
  {
    assert [e] + [] == [e];
    PrependOneMore(members, e, MembersLeft(b, q, depth, more));
  }

  lemma NumberGrows(c: string, length: nat, p: nat, room: nat)
    requires room > 0 && p < length <= |c| && NumberChar(c[p])
    ensures |NumberText(c, length, p, room)| == 1 + |NumberText(c, length, p + 1, room - 1)|
  {
  }

  /** A copy of the right length is the number text. */
  lemma CopiedNumber(c: string, length: nat, p: nat, room: nat, text: string)
    requires p <= length <= |c| && |text| == |NumberText(c, length, p, room)|
    requires forall k :: 0 <= k < |text| ==> text[k] == c[p + k]
    ensures text == NumberText(c, length, p, room)
  {
    NumberTextIsSlice(c, length, p, room);
  }

  /** The terminator behind a decoded string is where its contents end. */
  lemma {:induction false} ContentsBeforeTerminator(output: string, n: nat)
    requires n < |output| && output[n] == NUL
    ensures UntilNul(output) == UntilNul(output[..n])
    decreases n
  {
    if n > 0 && output[0] != NUL {
      ContentsBeforeTerminator(output[1..], n - 1);
      assert output[..n][1..] == output[1..][..n - 1];
    }
  }

  /** A comma or a bracket that was read is no terminator, so a character behind it can be read. */
  lemma RoomBehind(c: string, length: nat, p: nat)
    requires Readable(c, length) && p < length && c[p] != NUL
    ensures p + 1 < |c|
  {
  }

  lemma {:induction false} NumberIs(c: string, length: nat, p: nat, consumed: nat, number: Int32)
    requires p <= length <= |c| && Strtod(NumberText(c, length, p, 63)) == (consumed, number)
    ensures Scanning.ParseNumber(c, length, p)
         == if consumed == 0 then Failed else Parsed(Number(number), p + consumed)
  {
  }

  /** What stands behind an opening bracket. */
  datatype ListStart = Refused | Empty | Opened

  class ParseBuffer {
    const content: string
    const length: nat
    var offset: nat
    var depth: nat
    /** What the specification reads. */
    ghost const input: Parsing.Input

    ghost predicate Valid()
      reads this
    {
      && Readable(content, length) && offset <= length
      && Parsing.Sound(input) && input.c == content && input.length == length
      && forall p: nat {:trigger Lexical(p)} :: Lexical(p)
    }

    /** The specification reads scalars and quoted strings of this buffer. */
    ghost predicate Lexical(p: nat)
      requires Readable(content, length)
    {
      && (p <= length ==> input.scalar(p) == Scanning.ParseScalar(content, length, p))
      && (p <= length && p < |content| ==> input.quoted(p) == Scanning.ParseString(content, length, p))
    }

    constructor (content: string, length: nat)
      requires Readable(content, length)
      ensures Valid() && this.content == content && this.length == length && offset == 0 && depth == 0
      ensures input == Parsing.InputOf(content, length)
    {
      this.content := content;
      this.length := length;
      offset := 0;
      depth := 0;
      input := Parsing.InputOf(content, length);
    }

    predicate CanAccess()
      reads this
    {
      offset < length
    }

    predicate At(x: char)
      requires Valid()
      reads this
    {
      CanAccess() && content[offset] == x
    }

    method SkipWhitespace()
      requires Valid()
      modifies `offset
      ensures Valid() && offset == SkipBlanks(content, length, old(offset))
    {
      if !CanAccess() {
        return;
      }
      while CanAccess() && content[offset] <= ' '
        invariant old(offset) <= offset <= length
        invariant BlankEnd(content, length, old(offset)) == BlankEnd(content, length, offset)
        decreases length - offset
      {
        offset := offset + 1;
      }
      if offset == length {
        offset := offset - 1;
      }
    }

    method SkipUtf8Bom()
      requires Valid() && offset == 0
      modifies `offset
      ensures Valid() && offset == Parsing.SkipBom(content, length)
    {
      if 4 < length && content[0] == 0xEF as char && content[1] == 0xBB as char && content[2] == 0xBF as char {
        offset := offset + 3;
      }
    }

    /** The number is copied into a buffer of its own before strtod sees it. */
    method CopyNumber(size: nat) returns (text: string)
      requires Valid() && size > 0
      ensures text == NumberText(content, length, offset, size - 1)
    {
      ghost var count := |NumberText(content, length, offset, size - 1)|;
      var numberCString := new char[size];
      var i := 0;
      while i < size - 1 && offset + i < length && NumberChar(content[offset + i])
        invariant i <= size - 1 && offset + i <= length
        invariant forall k :: 0 <= k < i ==> numberCString[k] == content[offset + k]
        invariant count == i + |NumberText(content, length, offset + i, size - 1 - i)|
      {
        NumberGrows(content, length, offset + i, size - 1 - i);
        numberCString[i] := content[offset + i];
        i := i + 1;
      }
      text := numberCString[..i];
      CopiedNumber(content, length, offset, size - 1, text);
    }

    method ParseNumber() returns (ok: bool, item: Value)
      requires Valid()
      modifies `offset
      ensures Valid()
      ensures ok <==> Scanning.ParseNumber(content, length, old(offset)).Parsed?
      ensures ok ==> Scanning.ParseNumber(content, length, old(offset)) == Parsed(item, offset)
    {
      var text := CopyNumber(64);
      var (consumed, number) := Strtod(text);
      NumberIs(content, length, offset, consumed, number);
      if consumed == 0 {
        return false, Invalid;
      }
      offset := offset + consumed;
      return true, Number(number);
    }

    /** Both passes over a string; what the item then holds ends at the first NUL. */
    method ParseString() returns (ok: bool, contents: string)
      requires Valid() && offset < |content|
      modifies `offset
      ensures Valid()
      ensures ok <==> Scanning.ParseString(content, length, old(offset)).Parsed?
      ensures ok ==> Scanning.ParseString(content, length, old(offset)) == Parsed(contents, offset)
    {
      if content[offset] != '\"' || offset + 1 > length {
        return false, [];
      }
      var measured, end, skipped := Measure(content, length, offset + 1);
      if !measured {
        return false, [];
      }
      var decoded, output, n := DecodeInto(content, length, offset + 1, end, skipped);
      if !decoded {
        return false, [];
      }
      ContentsBeforeTerminator(output[..], n);
      assert output[..][..n] == output[..n];
      offset := end + 1;
      return true, UntilNul(output[..]);
    }

    /** parse_value: the item is given what is read; the value says what that is. */
    method ParseValue(item: Item) returns (ok: bool, value: Value, ghost shape: Shape)
      requires Valid() && Blank(item)
      modifies this, item`child, item`children
      ensures Valid()
      ensures Parsing.ParseValue(input, old(offset), old(depth)) == if ok then Parsed(value, offset) else Failed
      ensures ok ==> old(offset) < offset && depth == old(depth)
      ensures ok ==> Filled(item, shape, value) && fresh(ItemsOf(shape.kids))
      decreases length - offset, 2
    {
      shape := Shape(item, []);
      if At('[') {
        ok, value, shape := ParseArray(item);
        return;
      }
      if At('{') {
        ok, value, shape := ParseObject(item);
        return;
      }
      ok, value := ParseScalar();
      if ok { LeafHolds(item, value); }
    }

    /** The branches of parse_value that link no items. */
    method ParseScalar() returns (ok: bool, value: Value)
      requires Valid() && !At('[') && !At('{')
      modifies `offset
      ensures Valid()
      ensures Parsing.ParseValue(input, old(offset), depth) == if ok then Parsed(value, offset) else Failed
      ensures ok ==> old(offset) < offset && !value.Array? && !value.Object?
    {
      assert Lexical(offset);
      if Literal(content, length, offset, "null") {
        offset := offset + 4;
        return true, Null;
      }
      if Literal(content, length, offset, "false") {
        offset := offset + 5;
        return true, False;
      }
      if Literal(content, length, offset, "true") {
        offset := offset + 4;
        return true, True;
      }
      if At('\"') {
        var contents;
        ok, contents := ParseString();
        return ok, String(contents);
      }
      if CanAccess() && (content[offset] == '-' || '0' <= content[offset] <= '9') {
        ok, value := ParseNumber();
        return;
      }
      return false, Invalid;
    }

    /** What parse_array and parse_object do in front of the first element. */
    method OpenList(close: char) returns (start: ListStart)
      requires Valid() && CanAccess()
      modifies this
      ensures Valid()
      ensures var p := Parsing.Skip(input, old(offset) + 1);
        if old(depth) >= Parsing.NESTING_LIMIT || p == length then start == Refused
        else if content[p] == close then start == Empty && offset == p + 1 && depth == old(depth)
        else start == Opened && offset == p - 1 && depth == old(depth) + 1
    {
      if depth >= Parsing.NESTING_LIMIT {
        return Refused;
      }
      depth := depth + 1;
      offset := offset + 1;
      SkipWhitespace();
      if At(close) {
        depth := depth - 1;
        offset := offset + 1;
        return Empty;
      }
      if !CanAccess() {
        offset := offset - 1;
        return Refused;
      }
      offset := offset - 1;
      return Opened;
    }

    /** Behind the last element: the items that were read become the children. */
    method CloseArray(item: Item, items: seq<Item>, ghost kids: seq<Shape>, ghost values: seq<Value>)
      requires Valid() && CanAccess() && depth > 0
      requires Blank(item) && item !in ItemsOf(kids) && Elements(items, kids, values)
      modifies this, item`child, item`children, ItemsOf(kids)
      ensures Valid() && depth == old(depth) - 1 && offset == old(offset) + 1
      ensures Filled(item, Shape(item, kids), Array(values))
    {
      KidsExist(kids);
      depth := depth - 1;
      LinkArray(item, items, kids, values);
      offset := offset + 1;
    }

    method CloseObject(item: Item, items: seq<Item>, ghost kids: seq<Shape>, ghost members: seq<Entry<Value>>)
      requires Valid() && CanAccess() && depth > 0
      requires Blank(item) && item !in ItemsOf(kids) && NamedElements(items, kids, members)
      modifies this, item`child, item`children, ItemsOf(kids)
      ensures Valid() && depth == old(depth) - 1 && offset == old(offset) + 1
      ensures Filled(item, Shape(item, kids), Object(members))
    {
      KidsExist(kids);
      depth := depth - 1;
      LinkObject(item, items, kids, members);
      offset := offset + 1;
    }

    method ParseArray(item: Item) returns (ok: bool, value: Value, ghost shape: Shape)
      requires Valid() && At('[') && Blank(item)
      modifies this, item`child, item`children
      ensures Valid()
      ensures Parsing.ParseArray(input, old(offset), old(depth)) == if ok then Parsed(value, offset) else Failed
      ensures ok ==> old(offset) < offset && depth == old(depth)
      ensures ok ==> Filled(item, shape, value) && fresh(ItemsOf(shape.kids))
      decreases length - offset, 1
    {
      shape := Shape(item, []);
      var start := OpenList(']');
      if start != Opened {
        LeafHolds(item, Array([]));
        return start == Empty, Array([]), shape;
      }
      var values, items;
      ghost var kids;
      ok, values, items, kids := ParseElements();
      if !ok {
        return false, Invalid, shape;
      }
      CloseArray(item, items, kids, values);
      return true, Array(values), Shape(item, kids);
    }

    /** The loop of parse_array, from in front of the first element up to the closing bracket. */
    method ParseElements() returns (ok: bool, values: seq<Value>, items: seq<Item>, ghost kids: seq<Shape>)
      requires Valid() && offset < length
      modifies this
      ensures Valid()
      ensures Parsing.ParseElements(input, old(offset) + 1, old(depth))
           == if ok then Parsed(values, offset + 1) else Failed
      ensures ok ==> offset < length && depth == old(depth) && old(offset) < offset
      ensures ok ==> Elements(items, kids, values) && fresh(ItemsOf(kids))
      decreases length - offset, 0
    {
      ghost var whole := Parsing.ParseElements(input, offset + 1, depth);
      values, items, kids := [], [], [];
      var more := true;
      PrependNone(whole);
      while more
        invariant Valid() && depth == old(depth) && old(offset) <= offset
        invariant if more then offset < length else old(offset) < offset
        invariant whole == Prepend(values, ElementsLeft(input, offset, depth, more))
        invariant Elements(items, kids, values) && fresh(ItemsOf(kids))
        decreases more, length - offset
      {
        var read, element, item;
        ghost var shape;
        KidsExist(kids);
        read, element, item, shape, more := ParseElement(values, whole);
        if !read {
          return false, values, items, kids;
        }
        OneMoreElement(items, kids, values, item, shape, element);
        values, items, kids := values + [element], items + [item], kids + [shape];
      }
      ok := At(']');
      ListIsRead(values, whole, ElementsLeft(input, offset, depth, false), ok, offset);
    }

    /** One round: the element, the blanks behind it, and whether a comma follows. */
    method ParseElement(ghost values: seq<Value>, ghost whole: Parsed<seq<Value>>)
        returns (ok: bool, element: Value, item: Item, ghost shape: Shape, more: bool)
      requires Valid() && offset < length
      requires whole == Prepend(values, Parsing.ParseElements(input, offset + 1, depth))
      modifies this
      ensures Valid() && (!ok ==> whole.Failed?)
      ensures ok ==> depth == old(depth) && old(offset) < offset && (more ==> offset < length)
      ensures ok ==> whole == Prepend(values + [element], ElementsLeft(input, offset, depth, more))
      ensures ok ==> Filled(item, shape, element) && item.next == null && fresh(Items(shape))
      decreases length - offset - 1, 4
    {
      ghost var p := offset + 1;
      ok, element, item, shape := ParseNewItem();
      more := false;
      if ok {
        ghost var end := offset;
        ItemsExist(shape);
        SkipWhitespace();
        more := At(',');
        ElementsAfter(input, whole, values, p, depth, element, end, offset, more);
      }
    }

    /** The element behind the bracket or comma. */
    method ParseNewItem() returns (ok: bool, element: Value, item: Item, ghost shape: Shape)
      requires Valid() && offset < length
      modifies this
      ensures Valid()
      ensures Parsing.ParseValue(input, Parsing.Skip(input, old(offset) + 1), old(depth))
           == if ok then Parsed(element, offset) else Failed
      ensures ok ==> depth == old(depth) && old(offset) < offset
      ensures ok ==> Filled(item, shape, element) && item.next == null && fresh(Items(shape))
      decreases length - offset - 1, 3
    {
      item := new Item([]);
      offset := offset + 1;
      SkipWhitespace();
      ok, element, shape := ParseValue(item);
    }

    method ParseObject(item: Item) returns (ok: bool, value: Value, ghost shape: Shape)
      requires Valid() && At('{') && Blank(item)
      modifies this, item`child, item`children
      ensures Valid()
      ensures Parsing.ParseObject(input, old(offset), old(depth)) == if ok then Parsed(value, offset) else Failed
      ensures ok ==> old(offset) < offset && depth == old(depth)
      ensures ok ==> Filled(item, shape, value) && fresh(ItemsOf(shape.kids))
      decreases length - offset, 1
    {
      shape := Shape(item, []);
      var start := OpenList('}');
      if start != Opened {
        LeafHolds(item, Object([]));
        return start == Empty, Object([]), shape;
      }
      var members, items;
      ghost var kids;
      ok, members, items, kids := ParseMembers();
      if !ok {
        return false, Invalid, shape;
      }
      CloseObject(item, items, kids, members);
      return true, Object(members), Shape(item, kids);
    }

    /** The loop of parse_object, from in front of the first name up to the closing brace. */
    method ParseMembers() returns (ok: bool, members: seq<Entry<Value>>, items: seq<Item>, ghost kids: seq<Shape>)
      requires Valid() && offset < length && offset + 1 < |content|
      modifies this
      ensures Valid()
      ensures Parsing.ParseMembers(input, old(offset) + 1, old(depth))
           == if ok then Parsed(members, offset + 1) else Failed
      ensures ok ==> offset < length && depth == old(depth) && old(offset) < offset
      ensures ok ==> NamedElements(items, kids, members) && fresh(ItemsOf(kids))
      decreases length - offset, 0
    {
      ghost var whole := Parsing.ParseMembers(input, offset + 1, depth);
      members, items, kids := [], [], [];
      var more := true;
      PrependNone(whole);
      while more
        invariant Valid() && depth == old(depth) && old(offset) <= offset
        invariant if more then offset < length && offset + 1 < |content| else old(offset) < offset
        invariant whole == Prepend(members, MembersLeft(input, offset, depth, more))
        invariant NamedElements(items, kids, members) && fresh(ItemsOf(kids))
        decreases more, length - offset
      {
        var read, member, item;
        ghost var shape;
        KidsExist(kids);
        read, member, item, shape, more := ParseMember(members, whole);
        if !read {
          return false, members, items, kids;
        }
        OneMoreNamedElement(items, kids, members, item, shape, member);
        members, items, kids := members + [member], items + [item], kids + [shape];
      }
      ok := At('}');
      ListIsRead(members, whole, MembersLeft(input, offset, depth, false), ok, offset);
    }

    /** One round: the member, the blanks behind it, and whether a comma follows. */
    method ParseMember(ghost members: seq<Entry<Value>>, ghost whole: Parsed<seq<Entry<Value>>>)
        returns (ok: bool, member: Entry<Value>, item: Item, ghost shape: Shape, more: bool)
      requires Valid() && offset < length && offset + 1 < |content|
      requires whole == Prepend(members, Parsing.ParseMembers(input, offset + 1, depth))
      modifies this
      ensures Valid() && (!ok ==> whole.Failed?)
      ensures ok ==> depth == old(depth) && old(offset) < offset
      ensures ok && more ==> offset < length && offset + 1 < |content|
      ensures ok ==> whole == Prepend(members + [member], MembersLeft(input, offset, depth, more))
      ensures ok ==> Filled(item, shape, member.value) && item.name == member.key && item.next == null
      ensures ok ==> fresh(Items(shape))
      decreases length - offset - 1, 4
    {
      ghost var p := offset + 1;
      ok, member, item, shape := ParsePair();
      more := false;
      if ok {
        ghost var end := offset;
        ItemsExist(shape);
        SkipWhitespace();
        more := At(',');
        if more { RoomBehind(content, length, offset); }
        MembersAfter(input, whole, members, p, depth, member, end, offset, more);
      }
    }

    /** The name, the colon and the value. */
    method ParsePair() returns (ok: bool, member: Entry<Value>, item: Item, ghost shape: Shape)
      requires Valid() && offset < length && offset + 1 < |content|
      modifies this
      ensures Valid()
      ensures ok <==> Parsing.ParseMember(input, old(offset) + 1, old(depth)).Parsed?
      ensures ok ==> Parsing.ParseMember(input, old(offset) + 1, old(depth)) == Parsed(member, offset)
      ensures ok ==> depth == old(depth) && old(offset) + 1 < offset
      ensures ok ==> Filled(item, shape, member.value) && item.name == member.key && item.next == null
      ensures ok ==> fresh(Items(shape))
      decreases length - offset - 1, 3
    {
      member := Entry([], Invalid);
      var key, value;
      ok, key := ParseName();
      item := new Item(key);
      shape := Shape(item, []);
      if ok {
        ok, value, shape := ParseValue(item);
        member := Entry(key, value);
      }
    }

    /** The name and the colon, with the blanks around them. */
    method ParseName() returns (ok: bool, key: string)
      requires Valid() && offset < length && offset + 1 < |content|
      modifies `offset
      ensures Valid()
      ensures var name := input.quoted(Parsing.Skip(input, old(offset) + 1));
        && (ok ==> name.Parsed?)
        && (name.Parsed? ==>
             var q := Parsing.Skip(input, name.offset);
             && (ok <==> q < length && content[q] == ':')
             && (ok ==> key == name.value && offset == Parsing.Skip(input, q + 1)))
      ensures ok ==> old(offset) + 1 < offset
    {
      offset := offset + 1;
      SkipWhitespace();
      assert Lexical(offset);
      ok, key := ParseString();
      if !ok {
        return;
      }
      SkipWhitespace();
      if !At(':') {
        return false, key;
      }
      offset := offset + 1;
      SkipWhitespace();
    }
  }

  /** cJSON_ParseWithLengthOpts. Every item of the tree, at any depth, heads a valid chain: its children in order,
      closed by null, and the last one behind the prev of the first. */
  method ParseWithLengthOpts(content: string, length: nat, requireNullTerminated: bool)
      returns (ok: bool, value: Value, item: Item, ghost shape: Shape, end: nat)
    requires Readable(content, length)
    ensures Parsing.ParseText(content, length, requireNullTerminated) == if ok then Parsed(value, end) else Failed
    ensures ok ==> Filled(item, shape, value) && fresh(Items(shape))
    ensures ok ==> forall x :: x in Items(shape) ==> x.Valid()
  {
    ok, value, item, shape, end := ParseInto(content, length, requireNullTerminated);
    if ok { EveryChainIsValid(shape, value); }
  }

  method ParseInto(content: string, length: nat, requireNullTerminated: bool)
      returns (ok: bool, value: Value, item: Item, ghost shape: Shape, end: nat)
    requires Readable(content, length)
    ensures Parsing.ParseText(content, length, requireNullTerminated) == if ok then Parsed(value, end) else Failed
    ensures ok ==> Filled(item, shape, value) && fresh(Items(shape))
  {
    end := 0;
    value := Invalid;
    item := new Item([]);
    shape := Shape(item, []);
    if length == 0 {
      return false, value, item, shape, end;
    }
    var buffer := new ParseBuffer(content, length);
    buffer.SkipUtf8Bom();
    buffer.SkipWhitespace();
    ok, value, shape := buffer.ParseValue(item);
    if !ok {
      return;
    }
    if requireNullTerminated {
      ItemsExist(shape);
      buffer.SkipWhitespace();
      if buffer.offset >= length || content[buffer.offset] != NUL {
        return false, value, item, shape, end;
      }
    }
    end := buffer.offset;
  }
}
