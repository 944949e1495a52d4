/** The in-place printer: a growing (or fixed) byte buffer that every print function writes into. Whatever
    is printed stands behind the text that was there before, and only the room that is left decides whether
    it can be printed. */
module Printing {
  import opened CText
  import opened Json
  import opened Rendering
  import opened Sequences

  class PrintBuffer {
    var buffer: array<char>
    var length: nat
    var offset: nat
    var depth: nat
    const noalloc: bool
    const format: bool

    constructor (buffer: array<char>, noalloc: bool, format: bool)
      requires buffer.Length <= INT_MAX
      ensures this.buffer == buffer && length == buffer.Length && offset == 0 && depth == 0
      ensures this.noalloc == noalloc && this.format == format
      ensures Valid()
    {
      this.buffer, this.length, this.offset, this.depth := buffer, buffer.Length, 0, 0;
      this.noalloc, this.format := noalloc, format;
    }

    ghost predicate Valid()
      reads this
    {
      && buffer.Length == length <= INT_MAX
      && (offset < length || (length == 0 && offset == 0))
    }

    /** How far the buffer can ever reach. */
    ghost function Capacity(): nat
      reads this
    {
      if noalloc then length else INT_MAX
    }

    /** What has been printed so far. */
    ghost function Text(): string
      requires Valid()
      reads this, buffer
    {
      buffer[..offset]
    }

    /** ensure: room for `needed` more bytes and one to spare, moving the contents if it must grow. */
    method Ensure(needed: nat) returns (ok: bool)
      requires Valid()
      modifies this
      ensures Valid()
      ensures offset == old(offset) && depth == old(depth)
      ensures Capacity() == old(Capacity())
      ensures buffer == old(buffer) || (!noalloc && fresh(buffer))
      ensures ok <==> old(offset) + needed + 1 <= old(Capacity())
      ensures ok ==> offset + needed + 1 <= length
      ensures ok ==> buffer[..offset] == old(buffer[..offset])
    {
      if length > 0 && offset >= length {
        return false;
      }
      if needed > INT_MAX {
        return false;
      }
      var total := needed + offset + 1;
      if total <= length {
        return true;
      }
      if noalloc {
        return false;
      }
      var newsize: nat;
      if total > INT_MAX / 2 {
        if total <= INT_MAX {
          newsize := INT_MAX;
        } else {
          return false;
        }
      } else {
        newsize := total * 2;
      }
      var newbuffer := new char[newsize];
      var i := 0;
      while i < length
        invariant 0 <= i <= length
        invariant newbuffer[..i] == buffer[..i]
        modifies newbuffer
      {
        newbuffer[i] := buffer[i];
        i := i + 1;
      }
      length := newsize;
      buffer := newbuffer;
      return true;
    }

    /** The print at `start` is finished up to its terminator: the text before it is untouched, the
        output and a NUL follow, and the cursor is somewhere in the output. */
    ghost predicate Holds(start: nat, before: string, output: string)
      reads this, buffer
    {
      && Valid()
      && start <= offset <= start + |output| < length
      && |before| == start
      && buffer[..start + |output|] == before + output
      && buffer[start + |output|] == NUL
    }

    /** A finished print is finished for everything printed since an earlier start. */
    lemma HoldsFrom(start: nat, before: string, middle: string, output: string)
      requires |before| == start && Holds(start + |middle|, before + middle, output)
      ensures Holds(start, before, middle + output)
    {
      Regroup(before, middle, output);
    }

    /** update_offset: move the cursor to the terminator. */
    method UpdateOffset(ghost start: nat, ghost before: string, ghost output: string)
      requires Holds(start, before, output) && NulFree(output)
      modifies this`offset
      ensures Holds(start, before, output) && offset == start + |output|
      ensures Text() == before + output
    {
      var n := 0;
      while buffer[offset + n] != NUL
        invariant offset + n <= start + |output|
        decreases start + |output| - offset - n
      {
        n := n + 1;
      }
      offset := offset + n;
    }

    /** Store one character at the output pointer and step it. */
    method Put(at: nat, c: char)
      requires Valid() && at < length
      modifies buffer
      ensures buffer[..at + 1] == old(buffer[..at]) + [c]
    {
      buffer[at] := c;
    }

    /** Copy a finished piece of text to the output pointer. */
    method Write(at: nat, s: string)
      requires Valid() && at + |s| <= length
      modifies buffer
      ensures buffer[..at + |s|] == old(buffer[..at]) + s
    {
      var i := 0;
      ghost var before := buffer[..at];
      while i < |s|
        invariant 0 <= i <= |s|
        invariant buffer[..at + i] == before + s[..i]
      {
        Put(at + i, s[i]);
        Regroup(before, s[..i], [s[i]]);
        assert s[..i + 1] == s[..i] + [s[i]];
        i := i + 1;
      }
      assert s[..|s|] == s;
    }

    /** Store the terminator. */
    method Terminate(at: nat)
      requires Valid() && at < length
      modifies buffer
      ensures buffer[..at] == old(buffer[..at])
      ensures buffer[at] == NUL
    {
      buffer[at] := NUL;
    }

    /** strcpy of a literal. */
    method PrintLiteral(s: string) returns (ok: bool)
      requires Valid()
      modifies this, buffer
      ensures buffer == old(buffer) || (!noalloc && fresh(buffer))
      ensures Capacity() == old(Capacity())
      ensures ok <==> old(offset) + |s| + 2 <= old(Capacity())
      ensures ok ==> depth == old(depth) && Holds(old(offset), old(Text()), s)
    {
      ok := Ensure(|s| + 1);
      if ok {
        Write(offset, s);
        Terminate(offset + |s|);
      }
    }

    method PrintNumber(n: Int32) returns (ok: bool)
      requires Valid()
      modifies this, buffer
      ensures buffer == old(buffer) || (!noalloc && fresh(buffer))
      ensures Capacity() == old(Capacity())
      ensures ok <==> old(offset) + |IntText(n)| + 2 <= old(Capacity())
      ensures ok ==> depth == old(depth) && Holds(old(offset), old(Text()), IntText(n))
    {
      var numberBuffer := IntText(n);
      IntTextShort(n);
      ok := Ensure(|numberBuffer| + 1);
      if ok {
        Write(offset, numberBuffer);
        Terminate(offset + |numberBuffer|);
        offset := offset + |numberBuffer|;
      }
    }

    /** print_string_ptr: count the escapes, reserve, then copy or escape. */
    method PrintString(s: string) returns (ok: bool)
      requires Valid()
      modifies this, buffer
      ensures buffer == old(buffer) || (!noalloc && fresh(buffer))
      ensures Capacity() == old(Capacity())
      ensures ok <==> old(offset) + |RenderString(s)| + 2 <= old(Capacity())
      ensures ok ==> depth == old(depth) && Holds(old(offset), old(Text()), RenderString(s))
    {
      var escapeCharacters := CountEscapes(s);
      var outputLength := |s| + escapeCharacters;
      ok := Ensure(outputLength + 3);
      if !ok {
        return;
      }
      WriteString(s, outputLength, escapeCharacters == 0);
    }

    /** The quotes and, in between, one of two ways of copying into the reserved space. */
    method WriteString(s: string, outputLength: nat, plain: bool)
      requires Valid() && outputLength == |Escape(s)| && (plain <==> |s| == outputLength)
      requires offset + outputLength + 3 <= length
      modifies buffer
      ensures Holds(offset, old(Text()), RenderString(s))
    {
      ghost var before, body := buffer[..offset], Escape(s);
      WriteQuoted(s, outputLength, plain, before, body);
      Quoted(before, body);
    }

    method WriteQuoted(s: string, n: nat, plain: bool, ghost before: string, ghost body: string)
      requires Valid() && body == Escape(s) && n == |body| && (plain <==> |s| == n)
      requires offset + n + 3 <= length && before == buffer[..offset]
      modifies buffer
      ensures buffer[..offset + n + 2] == before + ['\"'] + body + ['\"'] && buffer[offset + n + 2] == NUL
    {
      Put(offset, '\"');
      WriteBody(offset + 1, s, plain, body);
      WriteEnd(offset + 1 + n);
    }

    /** The closing quote and the terminator. */
    method WriteEnd(at: nat)
      requires Valid() && at + 1 < length
      modifies buffer
      ensures buffer[..at + 1] == old(buffer[..at]) + ['\"'] && buffer[at + 1] == NUL
    {
      Put(at, '\"');
      Terminate(at + 1);
    }

    method WriteBody(at: nat, s: string, plain: bool, ghost body: string)
      requires Valid() && body == Escape(s) && at + |body| <= length && (plain <==> |s| == |body|)
      modifies buffer
      ensures buffer[..at + |body|] == old(buffer[..at]) + body
    {
      if plain {
        NoEscapes(s);
        Write(at, s);
      } else {
        WriteEscaped(at, s);
      }
    }

    /** The numbers of additional characters needed for escaping. */
    static method CountEscapes(s: string) returns (escapeCharacters: nat)
      ensures |s| + escapeCharacters == |Escape(s)|
    {
      escapeCharacters := 0;
      var i := 0;
      while i < |s|
        invariant 0 <= i <= |s|
        invariant i + escapeCharacters == |Escape(s[..i])|
      {
        EscapeSnoc(s, i);
        if ShortEscape(s[i]).Some? {
          escapeCharacters := escapeCharacters + 1;
        } else if s[i] < ' ' {
          escapeCharacters := escapeCharacters + 5;
        }
        i := i + 1;
      }
      assert s[..|s|] == s;
    }

    /** One character, escaped where it must be. */
    method WriteChar(at: nat, c: char) returns (next: nat)
      requires Valid() && at + |EscapeChar(c)| <= length
      modifies buffer
      ensures next == at + |EscapeChar(c)|
      ensures buffer[..next] == old(buffer[..at]) + EscapeChar(c)
    {
      next := at;
      if Plain(c) {
        Put(next, c);
      } else {
        Put(next, '\\');
        next := next + 1;
        ghost var before := old(buffer[..at]);
        if ShortEscape(c).Some? {
          Put(next, ShortEscape(c).value);
        } else {
          Write(next, "u" + Hex4(c));
          next := next + 4;
          assert ['\\'] + ("u" + Hex4(c)) == EscapeChar(c);
          Regroup(before, ['\\'], "u" + Hex4(c));
        }
      }
      next := next + 1;
    }

    /** The copying loop of print_string_ptr. */
    method WriteEscaped(at: nat, s: string)
      requires Valid() && at + |Escape(s)| <= length
      modifies buffer
      ensures buffer[..at + |Escape(s)|] == old(buffer[..at]) + Escape(s)
    {
      ghost var before := buffer[..at];
      var outputPointer := at;
      var i := 0;
      while i < |s|
        invariant 0 <= i <= |s|
        invariant outputPointer == at + |Escape(s[..i])| <= at + |Escape(s)|
        invariant buffer[..outputPointer] == before + Escape(s[..i])
      {
        EscapeSnoc(s, i);
        EscapePrefix(s, i + 1);
        Regroup(before, Escape(s[..i]), EscapeChar(s[i]));
        outputPointer := WriteChar(outputPointer, s[i]);
        i := i + 1;
      }
      assert s[..|s|] == s;
    }

    method PrintValue(v: Value) returns (ok: bool)
      requires Valid() && NulFreeTree(v)
      modifies this, buffer
      ensures buffer == old(buffer) || (!noalloc && fresh(buffer))
      ensures Capacity() == old(Capacity())
      ensures ok <==> Printable(v) && old(offset) + |Render(v, format, old(depth))| + 2 <= old(Capacity())
      ensures ok ==> depth == old(depth) && Holds(old(offset), old(Text()), Render(v, format, old(depth)))
      decreases v, 0
    {
      match v
      case Invalid => ok := false;
      case Null => ok := PrintLiteral("null");
      case False => ok := PrintLiteral("false");
      case True => ok := PrintLiteral("true");
      case Number(n) => ok := PrintNumber(n);
      case String(s) => ok := PrintString(s);
      case Array(items) => ok := PrintArray(items);
      case Object(ms) => ok := PrintObject(ms);
    }

    method PrintArray(items: seq<Value>) returns (ok: bool)
      requires Valid() && NulFreeTree(Array(items))
      modifies this, buffer
      ensures buffer == old(buffer) || (!noalloc && fresh(buffer))
      ensures Capacity() == old(Capacity())
      ensures ok <==>
        Printable(Array(items)) && old(offset) + |Render(Array(items), format, old(depth))| + 2 <= old(Capacity())
      ensures ok ==> depth == old(depth) && Holds(old(offset), old(Text()), Render(Array(items), format, old(depth)))
      decreases items, 2
    {
      ghost var before, middle := Text(), "[" + RenderItems(items, format, depth + 1);
      ok := PrintArrayBody(items);
      if !ok {
        return;
      }
      ok := CloseArray();
      if ok {
        HoldsFrom(old(offset), before, middle, "]");
      }
    }

    /** Everything up to the last element. */
    method PrintArrayBody(items: seq<Value>) returns (ok: bool)
      requires Valid() && NulFreeTree(Array(items))
      modifies this, buffer
      ensures buffer == old(buffer) || (!noalloc && fresh(buffer))
      ensures Capacity() == old(Capacity())
      ensures !ok ==> Printable(Array(items)) ==>
        old(offset) + |"[" + RenderItems(items, format, old(depth) + 1)| + 2 > old(Capacity())
      ensures ok ==> Printable(Array(items)) && Valid() && depth == old(depth) + 1
      ensures ok ==> Text() == old(Text()) + ("[" + RenderItems(items, format, old(depth) + 1))
      decreases items, 1
    {
      ghost var before, all := Text(), RenderItems(items, format, depth + 1);
      ok := OpenArray();
      if !ok {
        return;
      }
      ok := PrintElements(items);
      Regroup(before, "[", all);
    }

    method OpenArray() returns (ok: bool)
      requires Valid()
      modifies this, buffer
      ensures buffer == old(buffer) || (!noalloc && fresh(buffer))
      ensures Capacity() == old(Capacity())
      ensures ok <==> old(offset) + 2 <= old(Capacity())
      ensures ok ==> Valid() && depth == old(depth) + 1
      ensures ok ==> Text() == old(Text()) + "["
    {
      ok := Ensure(1);
      if !ok {
        return;
      }
      Put(offset, '[');
      offset := offset + 1;
      depth := depth + 1;
    }

    method CloseArray() returns (ok: bool)
      requires Valid() && depth > 0
      modifies this, buffer
      ensures buffer == old(buffer) || (!noalloc && fresh(buffer))
      ensures Capacity() == old(Capacity())
      ensures ok <==> old(offset) + 3 <= old(Capacity())
      ensures ok ==> depth == old(depth) - 1 && Holds(old(offset), old(Text()), "]")
    {
      ok := Ensure(2);
      if !ok {
        return;
      }
      Put(offset, ']');
      Terminate(offset + 1);
      depth := depth - 1;
    }

    /** The loop of print_array. */
    method PrintElements(items: seq<Value>) returns (ok: bool)
      requires Valid() && NulFreeTree(Array(items))
      modifies this, buffer
      ensures buffer == old(buffer) || (!noalloc && fresh(buffer))
      ensures Capacity() == old(Capacity())
      ensures !ok ==> Printable(Array(items)) ==>
        old(offset) + |RenderItems(items, format, old(depth))| + 2 > old(Capacity())
      ensures ok ==> Printable(Array(items)) && Valid() && depth == old(depth)
      ensures ok ==> Text() == old(Text()) + RenderItems(items, format, old(depth))
      decreases items, 0
    {
      ghost var before, all := Text(), RenderItems(items, format, depth);
      ghost var left := all;
      var i := 0;
      assert items[0..] == items;
      while i < |items|
        invariant 0 <= i <= |items| && forall j :: 0 <= j < i ==> Printable(items[j])
        invariant Valid() && depth == old(depth) && Capacity() == old(Capacity())
        invariant buffer == old(buffer) || (!noalloc && fresh(buffer))
        invariant left == RenderItems(items[i..], format, depth) && Text() + left == before + all
      {
        ItemsUnfold(items, i, format, depth);
        ghost var one, rest := Render(items[i], format, depth) + ItemSeparator(i + 1 < |items|, format),
                               RenderItems(items[i + 1..], format, depth);
        Moves(before + all, Text(), left, one, rest);
        ok := PrintElement(items[i], i + 1 < |items|);
        if !ok {
          return;
        }
        left := rest;
        i := i + 1;
      }
      ok := true;
    }

    /** One turn of the loop of print_array. */
    method PrintElement(item: Value, more: bool) returns (ok: bool)
      requires Valid() && NulFreeTree(item)
      modifies this, buffer
      ensures buffer == old(buffer) || (!noalloc && fresh(buffer))
      ensures Capacity() == old(Capacity())
      ensures var n := |Render(item, format, old(depth)) + ItemSeparator(more, format)|;
        ok <==> Printable(item) && old(offset) + n + 2 <= old(Capacity())
      ensures ok ==> Valid() && depth == old(depth)
      ensures ok ==> Text() == old(Text()) + (Render(item, format, old(depth)) + ItemSeparator(more, format))
      decreases item, 2
    {
      ghost var before, r := Text(), Render(item, format, depth);
      ok := PrintItem(item, r);
      if !ok {
        return;
      }
      ok := Separate(more);
      Regroup(before, r, ItemSeparator(more, format));
    }

    /** The comma between elements. */
    method Separate(more: bool) returns (ok: bool)
      requires Valid()
      modifies this, buffer
      ensures buffer == old(buffer) || (!noalloc && fresh(buffer))
      ensures Capacity() == old(Capacity())
      ensures ok <==> !more || old(offset) + |ItemSeparator(more, format)| + 2 <= old(Capacity())
      ensures ok ==> Valid() && depth == old(depth)
      ensures ok ==> Text() == old(Text()) + ItemSeparator(more, format)
    {
      ok := true;
      if more {
        var length := if format then 2 else 1;
        ok := Ensure(length + 1);
        if !ok {
          return;
        }
        WriteComma(length);
        offset := offset + length;
      }
    }

    method WriteComma(n: nat)
      requires Valid() && n == |ItemSeparator(true, format)| && offset + n < length
      modifies buffer
      ensures buffer[..offset + n] == old(Text()) + ItemSeparator(true, format) && buffer[offset + n] == NUL
    {
      ghost var before := Text();
      Put(offset, ',');
      if format {
        Put(offset + 1, ' ');
        Regroup(before, [','], [' ']);
        assert [','] + [' '] == ItemSeparator(true, format);
      }
      Terminate(offset + n);
    }

    method PrintObject(ms: seq<Entry<Value>>) returns (ok: bool)
      requires Valid() && NulFreeTree(Object(ms))
      modifies this, buffer
      ensures buffer == old(buffer) || (!noalloc && fresh(buffer))
      ensures Capacity() == old(Capacity())
      ensures ok <==>
        Printable(Object(ms)) && old(offset) + |Render(Object(ms), format, old(depth))| + 2 <= old(Capacity())
      ensures ok ==> depth == old(depth) && Holds(old(offset), old(Text()), Render(Object(ms), format, old(depth)))
      decreases ms, 3
    {
      ghost var all, text := RenderMembers(ms, format, depth + 1), Render(Object(ms), format, depth);
      ok := PrintBraces(ms, all, Opening(format) + all, Closing(format, depth), text);
    }

    /** The body and the closing brace, with the texts they come to. */
    method PrintBraces(ms: seq<Entry<Value>>, ghost all: string, ghost middle: string, ghost closing: string,
        ghost text: string) returns (ok: bool)
      requires Valid() && NulFreeTree(Object(ms))
      requires all == RenderMembers(ms, format, depth + 1) && middle == Opening(format) + all
      requires closing == Closing(format, depth) && text == middle + closing
      modifies this, buffer
      ensures buffer == old(buffer) || (!noalloc && fresh(buffer))
      ensures Capacity() == old(Capacity())
      ensures ok <==> Printable(Object(ms)) && old(offset) + |text| + 2 <= old(Capacity())
      ensures ok ==> depth == old(depth) && Holds(old(offset), old(Text()), text)
      decreases ms, 2
    {
      ghost var start, before := offset, Text();
      ok := PrintObjectBody(ms, all, middle);
      if ok {
        ok := CloseBehind(start, before, middle, closing);
      }
    }

    method CloseBehind(ghost start: nat, ghost before: string, ghost middle: string, ghost closing: string)
        returns (ok: bool)
      requires Valid() && depth > 0 && closing == Closing(format, depth - 1)
      requires |before| == start && Text() == before + middle
      modifies this, buffer
      ensures buffer == old(buffer) || (!noalloc && fresh(buffer))
      ensures Capacity() == old(Capacity())
      ensures ok <==> start + |middle + closing| + 2 <= old(Capacity())
      ensures ok ==> depth == old(depth) - 1 && Holds(start, before, middle + closing)
    {
      ok := CloseObject();
      if ok { HoldsFrom(start, before, middle, closing); }
    }

    /** Everything up to the last member. */
    method PrintObjectBody(ms: seq<Entry<Value>>, ghost all: string, ghost middle: string) returns (ok: bool)
      requires Valid() && NulFreeTree(Object(ms))
      requires all == RenderMembers(ms, format, depth + 1) && middle == Opening(format) + all
      modifies this, buffer
      ensures buffer == old(buffer) || (!noalloc && fresh(buffer))
      ensures Capacity() == old(Capacity())
      ensures !ok ==> Printable(Object(ms)) ==> old(offset) + |middle| + 2 > old(Capacity())
      ensures ok ==> Printable(Object(ms)) && Valid() && depth == old(depth) + 1 && Text() == old(Text()) + middle
      decreases ms, 1
    {
      ghost var before := Text();
      ok := OpenObject();
      if !ok {
        return;
      }
      ok := PrintMembers(ms, all);
      Regroup(before, Opening(format), all);
    }

    /** The loop of print_object. */
    method PrintMembers(ms: seq<Entry<Value>>, ghost all: string) returns (ok: bool)
      requires Valid() && NulFreeTree(Object(ms)) && all == RenderMembers(ms, format, depth)
      modifies this, buffer
      ensures buffer == old(buffer) || (!noalloc && fresh(buffer))
      ensures Capacity() == old(Capacity())
      ensures !ok ==> Printable(Object(ms)) ==> old(offset) + |all| + 2 > old(Capacity())
      ensures ok ==> Printable(Object(ms)) && Valid() && depth == old(depth) && Text() == old(Text()) + all
      decreases ms, 0
    {
      ghost var before := Text();
      ghost var left := all;
      var i := 0;
      assert ms[0..] == ms;
      while i < |ms|
        invariant 0 <= i <= |ms| && forall j :: 0 <= j < i ==> Printable(ms[j].value)
        invariant Valid() && depth == old(depth) && Capacity() == old(Capacity())
        invariant buffer == old(buffer) || (!noalloc && fresh(buffer))
        invariant left == RenderMembers(ms[i..], format, depth) && Text() + left == before + all
      {
        ok, left := PrintNextMember(ms, i, left, before + all);
        if !ok {
          return;
        }
        i := i + 1;
      }
      ok := true;
    }

    method PrintNextMember(ms: seq<Entry<Value>>, i: nat, ghost left: string, ghost whole: string)
        returns (ok: bool, ghost rest: string)
      requires Valid() && NulFreeTree(Object(ms)) && i < |ms|
      requires left == RenderMembers(ms[i..], format, depth) && Text() + left == whole
      modifies this, buffer
      ensures buffer == old(buffer) || (!noalloc && fresh(buffer))
      ensures Capacity() == old(Capacity())
      ensures !ok ==> Printable(ms[i].value) ==> |whole| + 2 > old(Capacity())
      ensures ok ==> Printable(ms[i].value) && Valid() && depth == old(depth)
      ensures ok ==> rest == RenderMembers(ms[i + 1..], format, depth) && Text() + rest == whole
      decreases ms[i], 3
    {
      ghost var one := MemberText(ms[i], format, depth) + MemberEnd(i + 1 < |ms|, format);
      rest := RenderMembers(ms[i + 1..], format, depth);
      MembersUnfold(ms, i, format, depth);
      Moves(whole, Text(), left, one, rest);
      ok := PrintMember(ms[i], i + 1 < |ms|, one);
    }

    /** The opening brace, and the line end of a formatted print. */
    method OpenObject() returns (ok: bool)
      requires Valid()
      modifies this, buffer
      ensures buffer == old(buffer) || (!noalloc && fresh(buffer))
      ensures Capacity() == old(Capacity())
      ensures ok <==> old(offset) + |Opening(format)| + 2 <= old(Capacity())
      ensures ok ==> Valid() && depth == old(depth) + 1
      ensures ok ==> Text() == old(Text()) + Opening(format)
    {
      var length := if format then 2 else 1;
      ok := Ensure(length + 1);
      if !ok {
        return;
      }
      Put(offset, '{');
      depth := depth + 1;
      if format {
        Put(offset + 1, '\n');
      }
      offset := offset + length;
    }

    /** The indentation loop. */
    method WriteTabs(at: nat, n: nat)
      requires Valid() && at + n <= length
      modifies buffer
      ensures buffer[..at + n] == old(buffer[..at]) + Tabs(n)
    {
      ghost var before := buffer[..at];
      var i := 0;
      while i < n
        invariant 0 <= i <= n
        invariant buffer[..at + i] == before + Tabs(i)
      {
        Put(at + i, '\t');
        TabsSnoc(i);
        Regroup(before, Tabs(i), "\t");
        i := i + 1;
      }
    }

    /** The indentation of the closing brace, the brace and the terminator, in reserved space. */
    method WriteClosing(ghost n: nat)
      requires Valid() && depth > 0 && n == |Closing(format, depth - 1)| && offset + n < length
      modifies buffer
      ensures buffer[..offset + n] == old(Text()) + Closing(format, depth - 1) && buffer[offset + n] == NUL
    {
      ghost var before, tabs := Text(), Tabs(depth - 1);
      var outputPointer := offset;
      if format {
        WriteTabs(outputPointer, depth - 1);
        outputPointer := outputPointer + depth - 1;
        assert buffer[..outputPointer] == before + tabs;
        Regroup(before, tabs, "}");
      }
      Put(outputPointer, '}');
      Terminate(outputPointer + 1);
    }

    method CloseObject() returns (ok: bool)
      requires Valid() && depth > 0
      modifies this, buffer
      ensures buffer == old(buffer) || (!noalloc && fresh(buffer))
      ensures Capacity() == old(Capacity())
      ensures ok <==> old(offset) + |Closing(format, old(depth) - 1)| + 2 <= old(Capacity())
      ensures ok ==> depth == old(depth) - 1 && Holds(old(offset), old(Text()), Closing(format, depth))
    {
      ghost var n := |Closing(format, depth - 1)|;
      assert n == if format then depth else 1;
      ok := Ensure(if format then depth + 1 else 2);
      if !ok {
        return;
      }
      WriteClosing(n);
      depth := depth - 1;
    }

    /** One turn of the loop of print_object, with the text it comes to. */
    method PrintMember(e: Entry<Value>, more: bool, ghost text: string) returns (ok: bool)
      requires Valid() && NulFree(e.key) && NulFreeTree(e.value)
      requires text == MemberText(e, format, depth) + MemberEnd(more, format)
      modifies this, buffer
      ensures buffer == old(buffer) || (!noalloc && fresh(buffer))
      ensures Capacity() == old(Capacity())
      ensures ok <==> Printable(e.value) && old(offset) + |text| + 2 <= old(Capacity())
      ensures ok ==> Valid() && depth == old(depth) && Text() == old(Text()) + text
      decreases e, 2
    {
      ok := PrintPieces(e, more, MemberStart(e.key, format, depth), Render(e.value, format, depth), text);
    }

    /** The same, with the texts it comes to. */
    method PrintPieces(e: Entry<Value>, more: bool, ghost start: string, ghost r: string, ghost text: string)
        returns (ok: bool)
      requires Valid() && NulFree(e.key) && NulFreeTree(e.value)
      requires start == MemberStart(e.key, format, depth) && r == Render(e.value, format, depth)
      requires text == start + r + MemberEnd(more, format)
      modifies this, buffer
      ensures buffer == old(buffer) || (!noalloc && fresh(buffer))
      ensures Capacity() == old(Capacity())
      ensures ok <==> Printable(e.value) && old(offset) + |text| + 2 <= old(Capacity())
      ensures ok ==> Valid() && depth == old(depth) && Text() == old(Text()) + text
      decreases e, 1
    {
      ghost var before := Text();
      ok := PrintKey(e.key);
      if !ok {
        return;
      }
      ok := PrintItem(e.value, r);
      if !ok {
        return;
      }
      ok := EndMember(more);
      Regroup(before, start, r);
      Regroup(before, start + r, MemberEnd(more, format));
    }

    /** A value inside a list: the cursor goes to its end. */
    method PrintItem(v: Value, ghost r: string) returns (ok: bool)
      requires Valid() && NulFreeTree(v) && r == Render(v, format, depth)
      modifies this, buffer
      ensures buffer == old(buffer) || (!noalloc && fresh(buffer))
      ensures Capacity() == old(Capacity())
      ensures ok <==> Printable(v) && old(offset) + |r| + 2 <= old(Capacity())
      ensures ok ==> Valid() && depth == old(depth) && Text() == old(Text()) + r
      decreases v, 1
    {
      ghost var start, before := offset, Text();
      ok := PrintValue(v);
      if !ok {
        return;
      }
      RenderNulFree(v, format, depth);
      UpdateOffset(start, before, r);
    }

    /** Indentation, key and colon. */
    method PrintKey(key: string) returns (ok: bool)
      requires Valid() && NulFree(key)
      modifies this, buffer
      ensures buffer == old(buffer) || (!noalloc && fresh(buffer))
      ensures Capacity() == old(Capacity())
      ensures ok <==> old(offset) + |MemberStart(key, format, old(depth))| + 1 <= old(Capacity())
      ensures ok ==> Valid() && depth == old(depth)
      ensures ok ==> Text() == old(Text()) + MemberStart(key, format, old(depth))
    {
      ghost var before, tabs := Text(), Indentation(format, depth);
      ok := Indent();
      if !ok {
        return;
      }
      ghost var start := offset;
      ok := PrintString(key);
      if !ok {
        return;
      }
      RenderStringNulFree(key);
      UpdateOffset(start, before + tabs, RenderString(key));
      ok := PrintColon();
      Bracketed(before, tabs, RenderString(key), Colon(format));
    }

    /** The indentation of a member in a formatted print. */
    method Indent() returns (ok: bool)
      requires Valid()
      modifies this, buffer
      ensures buffer == old(buffer) || (!noalloc && fresh(buffer))
      ensures Capacity() == old(Capacity())
      ensures ok <==> !format || old(offset) + old(depth) + 1 <= old(Capacity())
      ensures ok ==> Valid() && depth == old(depth)
      ensures ok ==> Text() == old(Text()) + Indentation(format, depth)
    {
      ok := true;
      if format {
        ok := Ensure(depth);
        if !ok {
          return;
        }
        WriteTabs(offset, depth);
        offset := offset + depth;
      }
    }

    /** The colon, which leaves the buffer without a terminator for a moment. */
    method PrintColon() returns (ok: bool)
      requires Valid()
      modifies this, buffer
      ensures buffer == old(buffer) || (!noalloc && fresh(buffer))
      ensures Capacity() == old(Capacity())
      ensures ok <==> old(offset) + (if format then 2 else 1) + 1 <= old(Capacity())
      ensures ok ==> Valid() && depth == old(depth)
      ensures ok ==> Text() == old(Text()) + Colon(format)
    {
      var length := if format then 2 else 1;
      ok := Ensure(length);
      if !ok {
        return;
      }
      Put(offset, ':');
      if format {
        Put(offset + 1, '\t');
      }
      offset := offset + length;
    }

    /** The comma unless the member is the last one, and the line end of a formatted print. */
    method EndMember(more: bool) returns (ok: bool)
      requires Valid()
      modifies this, buffer
      ensures buffer == old(buffer) || (!noalloc && fresh(buffer))
      ensures Capacity() == old(Capacity())
      ensures ok <==> old(offset) + |MemberEnd(more, format)| + 2 <= old(Capacity())
      ensures ok ==> Valid() && depth == old(depth)
      ensures ok ==> Text() == old(Text()) + MemberEnd(more, format)
    {
      var length := (if format then 1 else 0) + (if more then 1 else 0);
      ok := Ensure(length + 1);
      if !ok {
        return;
      }
      var outputPointer := offset;
      if more {
        Put(outputPointer, ',');
        outputPointer := outputPointer + 1;
      }
      if format {
        Put(outputPointer, '\n');
        outputPointer := outputPointer + 1;
      }
      Terminate(outputPointer);
      offset := offset + length;
    }
  }

  /** cJSON_PrintPreallocated: it succeeds exactly when two bytes are left behind the text. */
  method PrintPreallocated(v: Value, buffer: array<char>, length: int, format: bool) returns (ok: bool)
    requires NulFreeTree(v)
    requires length <= INT_MAX && (length < 0 || buffer.Length == length)
    modifies buffer
    ensures ok <==> Printable(v) && length >= |Render(v, format, 0)| + 2
    ensures ok ==> buffer[..|Render(v, format, 0)|] == Render(v, format, 0) && buffer[|Render(v, format, 0)|] == NUL
  {
    if length < 0 {
      return false;
    }
    var p := new PrintBuffer(buffer, true, format);
    ok := p.PrintValue(v);
  }

  /** print: a buffer of 256 bytes that grows, cut to size at the end. */
  method Print(v: Value, format: bool) returns (printed: array?<char>)
    requires NulFreeTree(v)
    ensures printed != null <==> Printable(v) && |Render(v, format, 0)| + 2 <= INT_MAX
    ensures printed != null ==> fresh(printed) && printed[..] == Render(v, format, 0) + [NUL]
  {
    var buffer := new char[256];
    var p := new PrintBuffer(buffer, false, format);
    var ok := p.PrintValue(v);
    if !ok {
      return null;
    }
    RenderNulFree(v, format, 0);
    p.UpdateOffset(0, [], Render(v, format, 0));
    printed := CutToSize(p);
  }

  /** The reallocation to the exact size. */
  method CutToSize(p: PrintBuffer) returns (printed: array<char>)
    requires p.Valid() && p.offset < p.length && p.buffer[p.offset] == NUL
    ensures fresh(printed) && printed[..] == p.Text() + [NUL]
  {
    printed := new char[p.offset + 1];
    var i := 0;
    while i < p.offset + 1
      invariant 0 <= i <= p.offset + 1
      invariant printed[..i] == p.buffer[..i]
    {
      printed[i] := p.buffer[i];
      i := i + 1;
    }
    assert printed[..] == printed[..p.offset + 1];
  }

  /** cJSON_PrintBuffered: any starting size, even none. */
  method PrintBuffered(v: Value, prebuffer: int, format: bool) returns (printed: array?<char>)
    requires NulFreeTree(v) && prebuffer <= INT_MAX
    ensures printed != null <==> prebuffer >= 0 && Printable(v) && |Render(v, format, 0)| + 2 <= INT_MAX
    ensures printed != null ==>
      var r := Render(v, format, 0);
      |r| < printed.Length && printed[..|r|] == r && printed[|r|] == NUL
  {
    if prebuffer < 0 {
      return null;
    }
    var buffer := new char[prebuffer];
    var p := new PrintBuffer(buffer, false, format);
    var ok := p.PrintValue(v);
    if !ok {
      return null;
    }
    printed := p.buffer;
  }

  lemma {:induction false} TabsSnoc(n: nat)
    ensures Tabs(n + 1) == Tabs(n) + "\t"
  {
    if n > 0 { TabsSnoc(n - 1); }
  }

  lemma Bracketed(before: string, opening: string, all: string, closing: string)
    ensures before + opening + all + closing == before + (opening + all + closing)
  {
  }

  /** One piece moves from what is left to what is printed. */
  lemma Moves(whole: string, printed: string, left: string, one: string, rest: string)
    requires printed + left == whole && left == one + rest
    ensures (printed + one) + rest == whole && |printed| + |one| <= |whole|
  {
    Regroup(printed, one, rest);
  }

  lemma ItemsUnfold(items: seq<Value>, i: nat, format: bool, depth: nat)
    requires i < |items|
    ensures RenderItems(items[i..], format, depth)
         == Render(items[i], format, depth) + ItemSeparator(i + 1 < |items|, format)
            + RenderItems(items[i + 1..], format, depth)
  {
    assert items[i..][1..] == items[i + 1..];
  }

  lemma MembersUnfold(ms: seq<Entry<Value>>, i: nat, format: bool, depth: nat)
    requires i < |ms|
    ensures RenderMembers(ms[i..], format, depth)
         == MemberText(ms[i], format, depth) + MemberEnd(i + 1 < |ms|, format)
            + RenderMembers(ms[i + 1..], format, depth)
  {
    assert ms[i..][1..] == ms[i + 1..];
  }

  lemma RenderStringNulFree(s: string)
    requires NulFree(s)
    ensures NulFree(RenderString(s))
  {
    EscapeNulFree(s);
  }

  lemma Quoted(before: string, s: string)
    ensures before + ['\"'] + s + ['\"'] == before + ("\"" + s + "\"")
  {
  }

  lemma EscapePrefix(s: string, i: nat)
    requires i <= |s|
    ensures |Escape(s[..i])| <= |Escape(s)|
  {
    assert s == s[..i] + s[i..];
    EscapeAppend(s[..i], s[i..]);
  }

  lemma {:induction false} EscapeAppend(s: string, t: string)
    ensures Escape(s + t) == Escape(s) + Escape(t)
  {
    if s == [] {
      assert s + t == t;
    } else {
      assert (s + t)[1..] == s[1..] + t;
      EscapeAppend(s[1..], t);
    }
  }

  lemma EscapeSnoc(s: string, i: nat)
    requires i < |s|
    ensures Escape(s[..i + 1]) == Escape(s[..i]) + EscapeChar(s[i])
  {
    assert s[..i + 1] == s[..i] + [s[i]];
    EscapeAppend(s[..i], [s[i]]);
    assert [s[i]][1..] == [];
  }

  /** Without escapes the text is the string itself. */
  lemma {:induction false} NoEscapes(s: string)
    ensures |Escape(s)| >= |s|
    ensures |Escape(s)| == |s| ==> Escape(s) == s
  {
    if s != [] {
      NoEscapes(s[1..]);
      assert s == [s[0]] + s[1..];
    }
  }
}
