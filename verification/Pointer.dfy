/** JSON Pointers (RFC 6901) as the engine prints and resolves them. */
module Pointer {
  import opened CText
  import opened Json
  import opened Options

  /** The range of size_t, which array indices wrap around in. */
  const SIZE_LIMIT: nat := 0x1_0000_0000_0000_0000

  /** One reference token of a pointer: a raw member name or an array index. */
  datatype Step = Key(name: string) | Index(i: nat)

  // Printing

  /** encode_string_as_pointer: '~' becomes "~0" and '/' becomes "~1". */
  function EscapeOf(c: char): (e: string)
    ensures 1 <= |e| <= 2
  {
    if c == '/' then "~1" else if c == '~' then "~0" else [c]
  }

  function EncodeToken(s: string): string {
    if s == [] then []
    else EscapeOf(s[0]) + EncodeToken(s[1..])
  }

  function Digit(d: nat): char
    requires d < 10
  {
    '0' + d as char
  }

  /** What "%lu" prints. */
  function IndexText(n: nat): (r: string)
    ensures r != []
  {
    if n < 10 then [Digit(n)] else IndexText(n / 10) + [Digit(n % 10)]
  }

  function StepText(s: Step): string {
    match s
    case Key(name) => EncodeToken(name)
    case Index(i) => IndexText(i)
  }

  function PathText(steps: seq<Step>): string {
    if steps == [] then [] else "/" + StepText(steps[0]) + PathText(steps[1..])
  }

  // Resolving

  /** compare_pointers: does the next token of the pointer name this member? */
  predicate ComparePointers(name: string, p: string, cs: bool) {
    if name == [] || p == [] || p[0] == '/' then
      (p != [] && p[0] != '/') == (name != [])
    else if p[0] == '~' then
      && ((At(p, 1) == '0' && name[0] == '~') || (At(p, 1) == '1' && name[0] == '/'))
      && |p| >= 2
      && ComparePointers(name[1..], p[2..], cs)
    else
      FoldChar(name[0], cs) == FoldChar(p[0], cs) && ComparePointers(name[1..], p[1..], cs)
  }

  /** The digit loop of decode_array_index_from_pointer from one position on. Its guard looks at
      the first character of the token where the current one was meant. */
  function DecodeDigits(p: string, position: nat, parsed: nat): (r: (nat, nat))
    requires position <= |p| && parsed < SIZE_LIMIT
    ensures position <= r.0 <= |p| && r.1 < SIZE_LIMIT
    decreases |p| - position
  {
    if position < |p| && p[position] >= '0' && p[0] <= '9' then
      DecodeDigits(p, position + 1, (10 * parsed + (p[position] as int - '0' as int)) % SIZE_LIMIT)
    else (position, parsed)
  }

  function DecodeIndex(p: string): Option<nat> {
    if At(p, 0) == '0' && At(p, 1) != NUL && At(p, 1) != '/' then None
    else
      var (position, parsed) := DecodeDigits(p, 0, 0);
      if position < |p| && p[position] != '/' then None else Some(parsed)
  }

  function SkipToken(p: string): (r: string)
    ensures |r| <= |p|
    ensures r != [] ==> r[0] == '/'
  {
    if p == [] || p[0] == '/' then p else SkipToken(p[1..])
  }

  /** The search for the child an object token names. */
  function FindPointed(ms: seq<Entry<Value>>, p: string, cs: bool): (i: nat)
    ensures i <= |ms|
    ensures i < |ms| ==> ComparePointers(ms[i].key, p, cs)
    ensures forall j :: 0 <= j < i ==> !ComparePointers(ms[j].key, p, cs)
  {
    if ms == [] || ComparePointers(ms[0].key, p, cs) then 0 else 1 + FindPointed(ms[1..], p, cs)
  }

  /** get_item_from_pointer. An item of the tree is identified by the child positions that lead to it. */
  function Locate(v: Value, p: string, cs: bool): Option<seq<nat>>
    decreases |p|
  {
    if p == [] || p[0] != '/' then Some([])
    else
      match v
      case Array(items) =>
        (match DecodeIndex(p[1..])
         case None => None
         case Some(i) =>
           if i < |items| then Below(i, Locate(items[i], SkipToken(p[1..]), cs)) else None)
      case Object(ms) =>
        var i := FindPointed(ms, p[1..], cs);
        if i < |ms| then Below(i, Locate(ms[i].value, SkipToken(p[1..]), cs)) else None
      case _ => None
  }

  function Below(i: nat, r: Option<seq<nat>>): Option<seq<nat>> {
    if r.Some? then Some([i] + r.value) else None
  }

  // Items of a tree

  function Children(v: Value): seq<Value> {
    match v
    case Array(items) => items
    case Object(ms) => seq(|ms|, i requires 0 <= i < |ms| => ms[i].value)
    case _ => []
  }

  predicate HasNode(v: Value, at: seq<nat>)
    decreases |at|
  {
    at == [] || (at[0] < |Children(v)| && HasNode(Children(v)[at[0]], at[1..]))
  }

  function NodeAt(v: Value, at: seq<nat>): Value
    requires HasNode(v, at)
    decreases |at|
  {
    if at == [] then v else NodeAt(Children(v)[at[0]], at[1..])
  }

  /** The tokens that lead from the root to an item. */
  function StepsTo(v: Value, at: seq<nat>): (r: seq<Step>)
    requires HasNode(v, at)
    ensures |r| == |at|
    decreases |at|
  {
    if at == [] then []
    else
      [if v.Object? then Key(v.members[at[0]].key) else Index(at[0])]
      + StepsTo(Children(v)[at[0]], at[1..])
  }

  /** The same tokens followed in a tree: what a pointer ought to resolve to. */
  function Resolve(v: Value, steps: seq<Step>, cs: bool): Option<seq<nat>>
    decreases |steps|
  {
    if steps == [] then Some([])
    else
      match (v, steps[0])
      case (Array(items), Index(i)) =>
        if i < |items| then Below(i, Resolve(items[i], steps[1..], cs)) else None
      case (Object(ms), Key(name)) =>
        var i := FindMember(ms, name, cs);
        if i < |ms| then Below(i, Resolve(ms[i].value, steps[1..], cs)) else None
      case _ => None
  }

  /** Every array index of the path is a size_t. */
  predicate Addressable(steps: seq<Step>) {
    forall i :: 0 <= i < |steps| && steps[i].Index? ==> steps[i].i < SIZE_LIMIT
  }

  // Round trip of one token

  predicate EndsToken(rest: string) {
    rest == [] || rest[0] == '/'
  }

  lemma FoldTail(s: string, cs: bool)
    requires s != []
    ensures Fold(s, cs)[0] == FoldChar(s[0], cs) && Fold(s, cs)[1..] == Fold(s[1..], cs)
  {
  }

  lemma FoldEqualTails(s: string, t: string, cs: bool)
    requires s != [] && t != []
    ensures Fold(s, cs) == Fold(t, cs) <==>
      FoldChar(s[0], cs) == FoldChar(t[0], cs) && Fold(s[1..], cs) == Fold(t[1..], cs)
  {
    FoldTail(s, cs);
    FoldTail(t, cs);
    assert Fold(s, cs) == [Fold(s, cs)[0]] + Fold(s, cs)[1..];
    assert Fold(t, cs) == [Fold(t, cs)[0]] + Fold(t, cs)[1..];
  }

  /** A printed member name is matched by exactly the names that compare equal to it, whatever
      characters it holds. */
  lemma {:induction false} TokenNamesItsKey(n: string, m: string, rest: string, cs: bool)
    requires EndsToken(rest)
    ensures ComparePointers(n, EncodeToken(m) + rest, cs) <==> Fold(n, cs) == Fold(m, cs)
  {
    var p := EncodeToken(m) + rest;
    if m == [] {
      assert p == rest;
      assert |Fold(n, cs)| == |n|;
    } else {
      var e := EscapeOf(m[0]);
      assert p == e + (EncodeToken(m[1..]) + rest);
      assert p[|e|..] == EncodeToken(m[1..]) + rest;
      if n != [] {
        TokenNamesItsKey(n[1..], m[1..], rest, cs);
        FoldEqualTails(n, m, cs);
      } else {
        assert |Fold(m, cs)| == |m|;
      }
    }
  }

  lemma {:induction false} EncodedHasNoSlash(s: string)
    ensures '/' !in EncodeToken(s)
  {
    if s != [] { EncodedHasNoSlash(s[1..]); }
  }

  lemma {:induction false} IndexTextIsDigits(n: nat)
    ensures forall i :: 0 <= i < |IndexText(n)| ==> '0' <= IndexText(n)[i] <= '9'
    ensures n > 0 ==> IndexText(n)[0] != '0'
    ensures n == 0 ==> IndexText(n) == "0"
  {
    if n >= 10 { IndexTextIsDigits(n / 10); }
  }

  lemma StepTextHasNoSlash(s: Step)
    ensures '/' !in StepText(s)
  {
    match s
    case Key(name) => EncodedHasNoSlash(name);
    case Index(i) => IndexTextIsDigits(i);
  }

  lemma {:induction false} SkipTokenStops(tok: string, rest: string)
    requires '/' !in tok && EndsToken(rest)
    ensures SkipToken(tok + rest) == rest
  {
    if tok == [] {
      assert tok + rest == rest;
    } else {
      assert (tok + rest)[1..] == tok[1..] + rest;
      SkipTokenStops(tok[1..], rest);
    }
  }

  /** Horner's rule over the digits of s. */
  function DigitsValue(s: string): nat
    requires forall i :: 0 <= i < |s| ==> '0' <= s[i] <= '9'
  {
    if s == [] then 0 else 10 * DigitsValue(s[..|s| - 1]) + (s[|s| - 1] as int - '0' as int)
  }

  lemma {:induction false} IndexTextValue(n: nat)
    ensures forall i :: 0 <= i < |IndexText(n)| ==> '0' <= IndexText(n)[i] <= '9'
    ensures DigitsValue(IndexText(n)) == n
  {
    IndexTextIsDigits(n);
    var s := IndexText(n);
    if n < 10 {
      assert s[..0] == [];
    } else {
      IndexTextValue(n / 10);
      assert s[..|s| - 1] == IndexText(n / 10);
    }
  }

  lemma {:induction false} PrefixValueSmaller(s: string, k: nat)
    requires forall i :: 0 <= i < |s| ==> '0' <= s[i] <= '9'
    requires k <= |s|
    ensures DigitsValue(s[..k]) <= DigitsValue(s)
    decreases |s|
  {
    if k == |s| {
      assert s[..k] == s;
    } else {
      PrefixValueSmaller(s[..|s| - 1], k);
      assert s[..|s| - 1][..k] == s[..k];
    }
  }

  lemma NoWrap(x: nat)
    requires x < SIZE_LIMIT
    ensures x % SIZE_LIMIT == x
  {
  }

  lemma DigitsSnoc(s: string, position: nat)
    requires (forall i :: 0 <= i < |s| ==> '0' <= s[i] <= '9') && position < |s|
    ensures DigitsValue(s[..position + 1]) == 10 * DigitsValue(s[..position]) + (s[position] as int - '0' as int)
  {
    var t := s[..position + 1];
    assert t[..|t| - 1] == s[..position] && t[|t| - 1] == s[position];
  }

  /** One more digit is one step of Horner's rule, and nothing wraps below the range. */
  lemma NextDigit(s: string, position: nat)
    requires (forall i :: 0 <= i < |s| ==> '0' <= s[i] <= '9') && position < |s|
    requires DigitsValue(s) < SIZE_LIMIT
    ensures DigitsValue(s[..position + 1])
         == (10 * DigitsValue(s[..position]) + (s[position] as int - '0' as int)) % SIZE_LIMIT
    ensures DigitsValue(s[..position + 1]) < SIZE_LIMIT
  {
    DigitsSnoc(s, position);
    PrefixValueSmaller(s, position + 1);
    NoWrap(DigitsValue(s[..position + 1]));
  }

  lemma {:induction false} DecodeDigitsReads(s: string, rest: string, position: nat)
    requires s != [] && (forall i :: 0 <= i < |s| ==> '0' <= s[i] <= '9') && EndsToken(rest)
    requires position <= |s| && DigitsValue(s) < SIZE_LIMIT
    requires DigitsValue(s[..position]) < SIZE_LIMIT
    ensures DecodeDigits(s + rest, position, DigitsValue(s[..position])) == (|s|, DigitsValue(s))
    decreases |s| - position
  {
    if position == |s| {
      assert s[..position] == s;
    } else {
      NextDigit(s, position);
      assert (s + rest)[position] == s[position] && (s + rest)[0] == s[0];
      DecodeDigitsReads(s, rest, position + 1);
    }
  }

  /** A printed index is read back, for every index a size_t can hold. */
  lemma IndexRoundTrip(n: nat, rest: string)
    requires EndsToken(rest) && n < SIZE_LIMIT
    ensures DecodeIndex(IndexText(n) + rest) == Some(n)
  {
    IndexTextIsDigits(n);
    IndexTextValue(n);
    var s := IndexText(n);
    assert s[..0] == [];
    DecodeDigitsReads(s, rest, 0);
    if |s| > 1 && n < 10 { assert false; }
  }

  // Round trip of whole pointers

  lemma {:induction false} PathTextEndsToken(steps: seq<Step>)
    ensures EndsToken(PathText(steps))
  {
  }

  lemma {:induction false} PathTextAppend(a: seq<Step>, b: seq<Step>)
    ensures PathText(a + b) == PathText(a) + PathText(b)
  {
    if a == [] {
      assert a + b == b;
    } else {
      assert (a + b)[1..] == a[1..] + b;
      PathTextAppend(a[1..], b);
      assert PathText(a + b) == "/" + StepText(a[0]) + (PathText(a[1..]) + PathText(b));
    }
  }

  lemma {:induction false} PointedIsMember(ms: seq<Entry<Value>>, name: string, rest: string, cs: bool)
    requires EndsToken(rest)
    ensures FindPointed(ms, EncodeToken(name) + rest, cs) == FindMember(ms, name, cs)
  {
    if ms != [] {
      TokenNamesItsKey(ms[0].key, name, rest, cs);
      PointedIsMember(ms[1..], name, rest, cs);
    }
  }

  /** One printed token in front of the rest of a pointer. */
  lemma FirstToken(s: Step, rest: string)
    requires EndsToken(rest)
    ensures var p := "/" + StepText(s) + rest;
      p[0] == '/' && p[1..] == StepText(s) + rest && SkipToken(p[1..]) == rest
  {
    StepTextHasNoSlash(s);
    SkipTokenStops(StepText(s), rest);
  }

  lemma LocateKey(ms: seq<Entry<Value>>, name: string, rest: string, cs: bool)
    requires EndsToken(rest)
    ensures var i := FindMember(ms, name, cs);
      Locate(Object(ms), "/" + StepText(Key(name)) + rest, cs)
      == if i < |ms| then Below(i, Locate(ms[i].value, rest, cs)) else None
  {
    FirstToken(Key(name), rest);
    PointedIsMember(ms, name, rest, cs);
  }

  lemma LocateIndex(items: seq<Value>, i: nat, rest: string, cs: bool)
    requires EndsToken(rest) && i < SIZE_LIMIT
    ensures Locate(Array(items), "/" + StepText(Index(i)) + rest, cs)
         == if i < |items| then Below(i, Locate(items[i], rest, cs)) else None
  {
    FirstToken(Index(i), rest);
    IndexRoundTrip(i, rest);
  }

  /** Resolving the text of a path follows the path: names may hold '~' and '/', and neither the
      tree nor the names need distinct keys. */
  lemma {:induction false} LocateFollowsPath(v: Value, steps: seq<Step>, cs: bool)
    requires Addressable(steps) && Resolve(v, steps, cs).Some?
    ensures Locate(v, PathText(steps), cs) == Resolve(v, steps, cs)
    decreases |steps|
  {
    if steps != [] {
      PathTextEndsToken(steps[1..]);
      match (v, steps[0])
      case (Array(items), Index(i)) =>
        LocateIndex(items, i, PathText(steps[1..]), cs);
        LocateFollowsPath(items[i], steps[1..], cs);
      case (Object(ms), Key(name)) =>
        LocateKey(ms, name, PathText(steps[1..]), cs);
        LocateFollowsPath(ms[FindMember(ms, name, cs)].value, steps[1..], cs);
    }
  }

  /** The tokens printed for an item lead back to it when keys are distinct. */
  lemma {:induction false} ResolveFindsItem(v: Value, at: seq<nat>, cs: bool)
    requires Distinct(v, cs) && HasNode(v, at)
    ensures Resolve(v, StepsTo(v, at), cs) == Some(at)
    decreases |at|
  {
    if at != [] {
      var steps := StepsTo(v, at);
      var child := Children(v)[at[0]];
      assert steps[1..] == StepsTo(child, at[1..]);
      assert at == [at[0]] + at[1..];
      match v
      case Array(items) =>
        ResolveFindsItem(child, at[1..], cs);
      case Object(ms) =>
        assert ms[at[0]].value == child;
        ResolveFindsItem(child, at[1..], cs);
        CanonAt(ms, at[0], cs);
    }
  }

  /** Pointer round trip (sections 3 to 5 of RFC 6901): the pointer printed for an item resolves to
      exactly that item in every tree with distinct keys per object, for keys of any characters. */
  lemma PointerRoundTrip(v: Value, at: seq<nat>, cs: bool)
    requires Distinct(v, cs) && HasNode(v, at)
    requires forall i :: 0 <= i < |at| ==> at[i] < SIZE_LIMIT
    ensures Locate(v, PathText(StepsTo(v, at)), cs) == Some(at)
  {
    ResolveFindsItem(v, at, cs);
    StepsAddressable(v, at);
    LocateFollowsPath(v, StepsTo(v, at), cs);
  }

  lemma {:induction false} StepsAddressable(v: Value, at: seq<nat>)
    requires HasNode(v, at)
    requires forall i :: 0 <= i < |at| ==> at[i] < SIZE_LIMIT
    ensures Addressable(StepsTo(v, at))
    decreases |at|
  {
    if at != [] { StepsAddressable(Children(v)[at[0]], at[1..]); }
  }
}
