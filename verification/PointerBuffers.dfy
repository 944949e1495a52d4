/** The loops over pointer text. */
module PointerBuffers {
  // Encoding and decoding tokens in buffers, matching a token with a name, reading an index, and following a
  // pointer through a tree.

  import opened CText
  import opened Json
  import opened Options
  import opened Pointer
  import opened Patch
  import opened Sequences

  // Encoding into a reserved buffer

  method PointerEncodedLength(s: string) returns (length: nat)
    ensures length == |EncodeToken(s)|
  {
    length := 0;
    var i := 0;
    while i < |s|
      invariant 0 <= i <= |s|
      invariant |EncodeToken(s)| == length + |EncodeToken(s[i..])|
    {
      assert s[i..][0] == s[i] && s[i..][1..] == s[i + 1..];
      if s[i] == '~' || s[i] == '/' {
        length := length + 1;
      }
      length := length + 1;
      i := i + 1;
    }
  }

  /** The encoding of what stands from i on. */
  function Encoded(source: string, i: nat): string
    requires i <= |source|
  {
    EncodeToken(source[i..])
  }

  lemma EncodeStep(source: string, i: nat)
    requires i < |source|
    ensures Encoded(source, i) == EscapeOf(source[i]) + Encoded(source, i + 1)
  {
    assert source[i..][0] == source[i] && source[i..][1..] == source[i + 1..];
  }

  method WriteEscaped(destination: array<char>, ghost start: nat, d: nat, c: char) returns (next: nat)
    requires start <= d && d + |EscapeOf(c)| <= destination.Length
    modifies destination
    ensures next == d + |EscapeOf(c)| && destination[start..next] == old(destination[start..d]) + EscapeOf(c)
    ensures forall k :: 0 <= k < d || next <= k < destination.Length ==> destination[k] == old(destination[k])
  {
    ghost var written := destination[start..d];
    next := d;
    if c == '/' {
      destination[next] := '~';
      destination[next + 1] := '1';
      next := next + 1;
    } else if c == '~' {
      destination[next] := '~';
      destination[next + 1] := '0';
      next := next + 1;
    } else {
      destination[next] := c;
    }
    next := next + 1;
    assert destination[start..d] == written && destination[d..next] == EscapeOf(c);
    assert destination[start..next] == destination[start..d] + destination[d..next];
  }

  lemma EncodedFits(whole: string, written: string, source: string, i: nat)
    requires i < |source| && whole == written + Encoded(source, i)
    ensures whole == (written + EscapeOf(source[i])) + Encoded(source, i + 1)
    ensures |whole| == |written| + |EscapeOf(source[i])| + |Encoded(source, i + 1)|
  {
    EncodeStep(source, i);
    Regroup(written, EscapeOf(source[i]), Encoded(source, i + 1));
  }

  lemma EncodedEnd(whole: string, written: string, source: string)
    requires whole == written + Encoded(source, |source|)
    ensures whole == written
  {
    assert Encoded(source, |source|) == [];
  }

  /** encode_string_as_pointer: exactly the reserved characters are written, and the terminator. */
  method EncodeStringAsPointer(destination: array<char>, start: nat, source: string)
    requires start + |EncodeToken(source)| < destination.Length
    modifies destination
    ensures var end := start + |EncodeToken(source)|;
      && destination[start..end] == EncodeToken(source) && destination[end] == NUL
      && forall k :: 0 <= k < start || end < k < destination.Length ==> destination[k] == old(destination[k])
  {
    ghost var whole := EncodeToken(source);
    var d, i: nat := start, 0;
    ghost var written: string := [];
    assert source[0..] == source && whole == written + Encoded(source, 0);
    while i < |source|
      invariant d == start + |written| && d < destination.Length && i <= |source|
      invariant whole == written + Encoded(source, i) && destination[start..d] == written
      invariant forall k :: 0 <= k < start || d <= k < destination.Length ==> destination[k] == old(destination[k])
    {
      EncodedFits(whole, written, source, i);
      d := WriteEscaped(destination, start, d, source[i]);
      written := written + EscapeOf(source[i]);
      i := i + 1;
    }
    EncodedEnd(whole, written, source);
    destination[d] := NUL;
    assert destination[start..d] == written;
  }

  // Decoding in place

  /** decode_pointer_inplace: what the buffer then holds up to its terminator. */
  method DecodePointerInplace(buffer: array<char>, ghost n: nat)
    requires n < buffer.Length && buffer[n] == NUL && NulFree(buffer[..n])
    modifies buffer
    ensures var r := DecodeInPlace(old(buffer[..n]));
      |r| <= n && buffer[..|r|] == r && buffer[|r|] == NUL && NulFree(r)
  {
    var decoded: nat, i: nat := 0, 0;
    ghost var whole := DecodeInPlace(buffer[..n]);
    while buffer[i] != NUL
      invariant decoded <= i <= n && buffer[n] == NUL && NulFree(buffer[..n])
      invariant DecodeFrom(buffer[..n], decoded, i) == whole
      decreases n - i
    {
      assert i < n && buffer[..n][i] == buffer[i];
      if buffer[i] == '~' {
        assert i + 1 < n ==> buffer[..n][i + 1] == buffer[i + 1];
        if buffer[i + 1] == '0' {
          ghost var before := buffer[..n];
          buffer[decoded] := '~';
          assert buffer[..n] == before[decoded := '~'];
        } else if buffer[i + 1] == '1' {
          ghost var before := buffer[..n];
          buffer[decoded + 1] := '/';
          assert buffer[..n] == before[decoded + 1 := '/'];
        } else {
          return;
        }
        i := i + 1;
      }
      decoded := decoded + 1;
      i := i + 1;
    }
    assert buffer[..decoded] == buffer[..n][..decoded];
    buffer[decoded] := NUL;
  }

  // Matching and reading tokens

  /** compare_pointers: two cursors, one of which skips the second half of an escape. */
  method CompareWithToken(name: string, pointer: string, cs: bool) returns (equal: bool)
    requires NulFree(name) && NulFree(pointer)
    ensures equal == ComparePointers(name, pointer, cs)
  {
    var i: nat, p: nat := 0, 0;
    while At(name, i) != NUL && At(pointer, p) != NUL && At(pointer, p) != '/'
      invariant i <= |name| && p <= |pointer|
      invariant ComparePointers(name, pointer, cs) == ComparePointers(name[i..], pointer[p..], cs)
      decreases |name| - i
    {
      assert name[i..][0] == name[i] && pointer[p..][0] == pointer[p];
      assert name[i..][1..] == name[i + 1..] && pointer[p..][1..] == pointer[p + 1..];
      assert At(pointer[p..], 1) == At(pointer, p + 1);
      if pointer[p] == '~' {
        if (At(pointer, p + 1) != '0' || name[i] != '~') && (At(pointer, p + 1) != '1' || name[i] != '/') {
          return false;
        }
        p := p + 1;
        assert pointer[p - 1..][2..] == pointer[p + 1..];
      } else if FoldChar(name[i], cs) != FoldChar(pointer[p], cs) {
        return false;
      }
      i := i + 1;
      p := p + 1;
    }
    assert p < |pointer| ==> pointer[p..][0] == pointer[p];
    equal := (At(pointer, p) != NUL && At(pointer, p) != '/') == (At(name, i) != NUL);
  }

  /** decode_array_index_from_pointer, with the guard as it is. */
  method DecodeArrayIndex(pointer: string) returns (index: Option<nat>)
    requires NulFree(pointer)
    ensures index == DecodeIndex(pointer)
  {
    if At(pointer, 0) == '0' && At(pointer, 1) != NUL && At(pointer, 1) != '/' {
      return None;
    }
    var position: nat, parsed: nat := 0, 0;
    while At(pointer, position) >= '0' && At(pointer, 0) <= '9'
      invariant position <= |pointer| && parsed < SIZE_LIMIT
      invariant DecodeDigits(pointer, 0, 0) == DecodeDigits(pointer, position, parsed)
      decreases |pointer| - position
    {
      parsed := (10 * parsed + (pointer[position] as int - '0' as int)) % SIZE_LIMIT;
      position := position + 1;
    }
    if At(pointer, position) != NUL && At(pointer, position) != '/' {
      return None;
    }
    return Some(parsed);
  }

  // Following a pointer

  /** The child search of get_item_from_pointer. */
  method FindChild(ms: seq<Entry<Value>>, pointer: string, cs: bool) returns (i: nat)
    requires NulFree(pointer) && forall j :: 0 <= j < |ms| ==> NulFree(ms[j].key)
    ensures i == FindPointed(ms, pointer, cs)
  {
    i := 0;
    while i < |ms|
      invariant i <= |ms| && FindPointed(ms, pointer, cs) == i + FindPointed(ms[i..], pointer, cs)
    {
      assert ms[i..][0] == ms[i] && ms[i..][1..] == ms[i + 1..];
      var found := CompareWithToken(ms[i].key, pointer, cs);
      if found {
        return;
      }
      i := i + 1;
    }
  }

  /** Every key is a C string. */
  predicate NulFreeKeys(v: Value) {
    match v
    case Array(items) => forall i :: 0 <= i < |items| ==> NulFreeKeys(items[i])
    case Object(ms) => forall i :: 0 <= i < |ms| ==> NulFree(ms[i].key) && NulFreeKeys(ms[i].value)
    case _ => true
  }

  lemma BelowTwice(at: seq<nat>, i: nat, r: Option<seq<nat>>)
    ensures Behind(at, Below(i, r)) == Behind(at + [i], r)
  {
    if r.Some? { assert at + ([i] + r.value) == (at + [i]) + r.value; }
  }

  /** A path in front of a result. */
  function Behind(at: seq<nat>, r: Option<seq<nat>>): Option<seq<nat>> {
    if r.Some? then Some(at + r.value) else None
  }

  method SkipPast(pointer: string, p: nat) returns (q: nat)
    requires p <= |pointer| && NulFree(pointer)
    ensures p <= q <= |pointer| && pointer[q..] == SkipToken(pointer[p..])
  {
    q := p;
    while At(pointer, q) != NUL && At(pointer, q) != '/'
      invariant p <= q <= |pointer| && SkipToken(pointer[p..]) == SkipToken(pointer[q..])
      decreases |pointer| - q
    {
      assert pointer[q..][0] == pointer[q] && pointer[q..][1..] == pointer[q + 1..];
      q := q + 1;
    }
    assert q < |pointer| ==> pointer[q..][0] == pointer[q];
  }

  /** get_item_from_pointer: the position of the item that is reached. */
  method GetItemFromPointer(root: Value, pointer: string, cs: bool) returns (item: Option<seq<nat>>)
    requires NulFree(pointer) && NulFreeKeys(root)
    ensures item == Locate(root, pointer, cs)
  {
    var current, at, p := root, [], 0;
    PathBehindNothing(Locate(root, pointer, cs));
    assert pointer[0..] == pointer;
    while At(pointer, p) == '/'
      invariant 0 <= p <= |pointer| && NulFreeKeys(current)
      invariant Locate(root, pointer, cs) == Behind(at, Locate(current, pointer[p..], cs))
      decreases |pointer| - p
    {
      ghost var rest := pointer[p..];
      assert rest[0] == '/' && rest[1..] == pointer[p + 1..];
      p := p + 1;
      var i: nat;
      match current {
        case Array(items) =>
          var index := DecodeArrayIndex(pointer[p..]);
          if index.None? || index.value >= |items| {
            return None;
          }
          i := index.value;
          current := items[i];
        case Object(ms) =>
          i := FindChild(ms, pointer[p..], cs);
          if i == |ms| {
            return None;
          }
          current := ms[i].value;
        case _ =>
          return None;
      }
      p := SkipPast(pointer, p);
      BelowTwice(at, i, Locate(current, pointer[p..], cs));
      at := at + [i];
    }
    assert p < |pointer| ==> pointer[p..][0] == pointer[p];
    assert at + [] == at;
    item := Some(at);
  }

  lemma PathBehindNothing(r: Option<seq<nat>>)
    ensures Behind([], r) == r
  {
    if r.Some? { assert [] + r.value == r.value; }
  }
}
