/** What the text of any path resolves to, also of one that leads nowhere. */
module PointerPaths {
  import opened CText
  import opened Json
  import opened Options
  import opened Pointer
  import opened IndexTokens

  /** The member that a token names in an object. */
  function NameOf(s: Step): string {
    match s
    case Key(name) => name
    case Index(i) => IndexText(i)
  }

  /** A pointer is text: in an array every token is taken for an index, in an object for a name, and below
      anything else there is nothing. */
  function Follow(v: Value, steps: seq<Step>, cs: bool): Option<seq<nat>>
    decreases |steps|
  {
    if steps == [] then Some([])
    else
      match v
      case Array(items) =>
        var token := StepText(steps[0]);
        if Accepted(token) && Weight(token) % SIZE_LIMIT < |items| then
          Below(Weight(token) % SIZE_LIMIT, Follow(items[Weight(token) % SIZE_LIMIT], steps[1..], cs))
        else None
      case Object(ms) =>
        var i := FindMember(ms, NameOf(steps[0]), cs);
        if i < |ms| then Below(i, Follow(ms[i].value, steps[1..], cs)) else None
      case _ => None
  }

  /** The names are C strings. */
  predicate CNames(steps: seq<Step>) {
    forall i :: 0 <= i < |steps| && steps[i].Key? ==> NulFree(steps[i].name)
  }

  lemma {:induction false} EncodedIsNulFree(s: string)
    requires NulFree(s)
    ensures NulFree(EncodeToken(s))
  {
    if s != [] { EncodedIsNulFree(s[1..]); }
  }

  lemma {:induction false} TokenIsNulFree(s: Step)
    requires s.Key? ==> NulFree(s.name)
    ensures NulFree(StepText(s))
  {
    match s
    case Key(name) => EncodedIsNulFree(name);
    case Index(i) => IndexTextIsDigits(i);
  }

  lemma {:induction false} PathIsNulFree(steps: seq<Step>)
    requires CNames(steps)
    ensures NulFree(PathText(steps))
  {
    if steps != [] {
      TokenIsNulFree(steps[0]);
      PathIsNulFree(steps[1..]);
    }
  }

  lemma {:induction false} TokenInFront(token: string, rest: string)
    requires '/' !in token && EndsToken(rest)
    ensures TokenOf(token + rest) == token
  {
    if token == [] {
      assert token + rest == rest;
    } else {
      assert (token + rest)[1..] == token[1..] + rest;
      TokenInFront(token[1..], rest);
    }
  }

  lemma {:induction false} LocateInArray(items: seq<Value>, s: Step, rest: string, cs: bool)
    requires EndsToken(rest) && NulFree(rest) && (s.Key? ==> NulFree(s.name))
    ensures var token := StepText(s);
      Locate(Array(items), "/" + token + rest, cs)
      == if Accepted(token) && Weight(token) % SIZE_LIMIT < |items| then
           Below(Weight(token) % SIZE_LIMIT, Locate(items[Weight(token) % SIZE_LIMIT], rest, cs))
         else None
  {
    FirstToken(s, rest);
    TokenIsNulFree(s);
    StepTextHasNoSlash(s);
    TokenInFront(StepText(s), rest);
    DecodesAccepted(StepText(s) + rest);
  }

  lemma {:induction false} LocateInObject(ms: seq<Entry<Value>>, s: Step, rest: string, cs: bool)
    requires EndsToken(rest)
    ensures var i := FindMember(ms, NameOf(s), cs);
      Locate(Object(ms), "/" + StepText(s) + rest, cs)
      == if i < |ms| then Below(i, Locate(ms[i].value, rest, cs)) else None
  {
    if s.Index? {
      IndexTextIsDigits(s.i);
      DigitsStay(IndexText(s.i));
    }
    LocateKey(ms, NameOf(s), rest, cs);
  }

  /** A name of digits is its own token. */
  lemma {:induction false} DigitsStay(s: string)
    requires AllDigits(s)
    ensures EncodeToken(s) == s
  {
    if s != [] {
      DigitsStay(s[1..]);
      assert s == [s[0]] + s[1..];
    }
  }

  /** Resolving the text of any path of C strings, whether it leads to an item or not. */
  lemma {:induction false} LocateReadsText(v: Value, steps: seq<Step>, cs: bool)
    requires CNames(steps)
    ensures Locate(v, PathText(steps), cs) == Follow(v, steps, cs)
    decreases |steps|
  {
    if steps != [] {
      var rest := PathText(steps[1..]);
      PathTextEndsToken(steps[1..]);
      PathIsNulFree(steps[1..]);
      match v
      case Array(items) =>
        LocateInArray(items, steps[0], rest, cs);
        var token := StepText(steps[0]);
        if Accepted(token) && Weight(token) % SIZE_LIMIT < |items| {
          LocateReadsText(items[Weight(token) % SIZE_LIMIT], steps[1..], cs);
        }
      case Object(ms) =>
        LocateInObject(ms, steps[0], rest, cs);
        var i := FindMember(ms, NameOf(steps[0]), cs);
        if i < |ms| { LocateReadsText(ms[i].value, steps[1..], cs); }
      case _ =>
    }
  }

  /** A name is taken for an index, or an index for a name, and something is found there. */
  predicate Mistaken(v: Value, steps: seq<Step>, cs: bool)
    decreases |steps|
  {
    steps != [] &&
    match (v, steps[0])
    case (Array(items), Index(i)) => i < |items| && Mistaken(items[i], steps[1..], cs)
    case (Object(ms), Key(name)) =>
      var i := FindMember(ms, name, cs);
      i < |ms| && Mistaken(ms[i].value, steps[1..], cs)
    case _ => Follow(v, steps, cs).Some?
  }

  lemma {:induction false} IndexIsAccepted(i: nat)
    ensures Accepted(IndexText(i)) && Weight(IndexText(i)) == i
  {
    IndexTextIsDigits(i);
    IndexTextValue(i);
    WeighsDigits(IndexText(i));
    if i > 0 && i < 10 { assert |IndexText(i)| == 1; }
  }

  lemma {:induction false} WeighsDigits(s: string)
    requires AllDigits(s)
    ensures Weight(s) == DigitsValue(s)
  {
    if s != [] { WeighsDigits(s[..|s| - 1]); }
  }

  lemma {:induction false} BelowIsInjective(i: nat, a: Option<seq<nat>>, b: Option<seq<nat>>)
    ensures Below(i, a) == Below(i, b) <==> a == b
  {
    if a.Some? && b.Some? && [i] + a.value == [i] + b.value {
      assert ([i] + a.value)[1..] == a.value && ([i] + b.value)[1..] == b.value;
    }
  }

  lemma {:induction false} FollowIndex(items: seq<Value>, i: nat, steps: seq<Step>, cs: bool)
    requires steps != [] && steps[0] == Index(i) && i < SIZE_LIMIT
    ensures Follow(Array(items), steps, cs)
         == if i < |items| then Below(i, Follow(items[i], steps[1..], cs)) else None
  {
    var token := StepText(steps[0]);
    IndexIsAccepted(i);
    NoWrap(i);
    assert Accepted(token) && Weight(token) % SIZE_LIMIT == i;
  }

  lemma {:induction false} FollowIsResolve(v: Value, steps: seq<Step>, cs: bool)
    requires Addressable(steps)
    ensures Follow(v, steps, cs) == Resolve(v, steps, cs) <==> !Mistaken(v, steps, cs)
    ensures Resolve(v, steps, cs).Some? ==> !Mistaken(v, steps, cs)
    decreases |steps|
  {
    if steps != [] {
      match (v, steps[0])
      case (Array(items), Index(i)) =>
        FollowIndex(items, i, steps, cs);
        if i < |items| {
          FollowIsResolve(items[i], steps[1..], cs);
          BelowIsInjective(i, Follow(items[i], steps[1..], cs), Resolve(items[i], steps[1..], cs));
        }
      case (Object(ms), Key(name)) =>
        var i := FindMember(ms, name, cs);
        if i < |ms| {
          FollowIsResolve(ms[i].value, steps[1..], cs);
          BelowIsInjective(i, Follow(ms[i].value, steps[1..], cs), Resolve(ms[i].value, steps[1..], cs));
        }
      case _ =>
    }
  }

  /** The text of a path is followed as the path is, to an item or to none, exactly when no name is found as an
      index and no index as a name. */
  lemma {:induction false} LocateIsResolve(v: Value, steps: seq<Step>, cs: bool)
    requires Addressable(steps) && CNames(steps)
    ensures Locate(v, PathText(steps), cs) == Resolve(v, steps, cs) <==> !Mistaken(v, steps, cs)
  {
    LocateReadsText(v, steps, cs);
    FollowIsResolve(v, steps, cs);
  }

  /** The name "0" is found in an array. */
  lemma {:induction false} NameIsIndex()
    ensures var v, steps := Array([True]), [Key("0")];
      Locate(v, PathText(steps), true) == Some([0]) && Resolve(v, steps, true) == None
  {
    var steps := [Key("0")];
    LocateReadsText(Array([True]), steps, true);
    IndexIsAccepted(0);
    assert StepText(steps[0]) == "0" == IndexText(0);
    assert steps[1..] == [] && Follow(True, [], true) == Some([]);
    assert [0] + [] == [0];
  }

  // Tokens that nobody printed

  /** Section 4 of RFC 6901: a '~' in a token is followed by '0' or by '1'. */
  function Unescaped(token: string): Option<string> {
    if token == [] then Some([])
    else if token[0] != '~' then Then(token[0], Unescaped(token[1..]))
    else if |token| > 1 && token[1] == '0' then Then('~', Unescaped(token[2..]))
    else if |token| > 1 && token[1] == '1' then Then('/', Unescaped(token[2..]))
    else None
  }

  function Then(c: char, rest: Option<string>): Option<string> {
    if rest.Some? then Some([c] + rest.value) else None
  }

  /** Any token matches exactly the names that compare equal to what it stands for; one with another '~' matches
      none. */
  lemma {:induction false} TokenIsUnescaped(n: string, token: string, rest: string, cs: bool)
    requires '/' !in token && EndsToken(rest)
    ensures ComparePointers(n, token + rest, cs)
       <==> Unescaped(token).Some? && Fold(n, cs) == Fold(Unescaped(token).value, cs)
    decreases |token|, 0
  {
    var p := token + rest;
    if token == [] {
      assert p == rest;
      assert |Fold(n, cs)| == |n| && Fold([], cs) == [];
    } else if token[0] != '~' {
      assert p[1..] == token[1..] + rest;
      TokenGoesOn(n, token[0], token[1..], rest, cs);
    } else if |token| > 1 && (token[1] == '0' || token[1] == '1') {
      assert p[2..] == token[2..] + rest && At(p, 1) == token[1];
      TokenGoesOn(n, if token[1] == '0' then '~' else '/', token[2..], rest, cs);
    } else {
      assert |token| > 1 ==> At(p, 1) == token[1];
      assert |token| == 1 ==> p == "~" + rest;
    }
  }

  lemma {:induction false} TokenGoesOn(n: string, c: char, token: string, rest: string, cs: bool)
    requires '/' !in token && EndsToken(rest)
    ensures n != [] ==>
      (ComparePointers(n[1..], token + rest, cs) && FoldChar(n[0], cs) == FoldChar(c, cs)
       <==> Then(c, Unescaped(token)).Some? && Fold(n, cs) == Fold(Then(c, Unescaped(token)).value, cs))
    ensures n == [] && Then(c, Unescaped(token)).Some? ==> Fold(n, cs) != Fold(Then(c, Unescaped(token)).value, cs)
    decreases |token|, 1
  {
    if Unescaped(token).Some? {
      var m := [c] + Unescaped(token).value;
      assert m[1..] == Unescaped(token).value;
      assert |Fold(m, cs)| == |m| && |Fold(n, cs)| == |n|;
      if n != [] {
        TokenIsUnescaped(n[1..], token, rest, cs);
        FoldEqualTails(n, m, cs);
      }
    } else if n != [] {
      TokenIsUnescaped(n[1..], token, rest, cs);
    }
  }
}
