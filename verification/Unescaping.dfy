/** The two passes of parse_string: measuring a string literal, then decoding it. */
module Unescaping {
  import opened CText
  import opened Options
  import opened Rendering

  // UTF-16 literals

  function HexValue(c: char): (r: int)
    ensures -1 <= r < 16
  {
    if '0' <= c <= '9' then c as int - '0' as int
    else if 'A' <= c <= 'F' then 10 + c as int - 'A' as int
    else if 'a' <= c <= 'f' then 10 + c as int - 'a' as int
    else -1
  }

  /** parse_hex4: bad digits make the whole code zero. */
  function ParseHex4(c: string, p: nat): (r: nat)
    requires p + 4 <= |c|
    ensures r < 0x1_0000
  {
    var a, b, d, e := HexValue(c[p]), HexValue(c[p + 1]), HexValue(c[p + 2]), HexValue(c[p + 3]);
    if a < 0 || b < 0 || d < 0 || e < 0 then 0
    else 0x1000 * a + 0x100 * b + 0x10 * d + e
  }

  function Byte(n: nat): char
    requires n < 0x100
  {
    n as char
  }

  /** The encoding loop of utf16_literal_to_utf8. */
  function Utf8(cp: nat): (r: string)
    requires cp <= 0x10_FFFF
    ensures 1 <= |r| <= 4
    ensures cp < 0x1_0000 ==> |r| <= 3
  {
    if cp < 0x80 then [Byte(cp)]
    else if cp < 0x800 then [Byte(0xC0 + cp / 0x40), Byte(0x80 + cp % 0x40)]
    else if cp < 0x1_0000 then
      [Byte(0xE0 + cp / 0x40 / 0x40), Byte(0x80 + cp / 0x40 % 0x40), Byte(0x80 + cp % 0x40)]
    else
      [Byte(0xF0 + cp / 0x40 / 0x40 / 0x40), Byte(0x80 + cp / 0x40 / 0x40 % 0x40), Byte(0x80 + cp / 0x40 % 0x40),
       Byte(0x80 + cp % 0x40)]
  }

  /** The bytes a literal stands for and how many characters of input it takes. */
  function Utf16Literal(c: string, p: nat, end: nat): (r: Option<(string, nat)>)
    requires p <= end <= |c|
    ensures r.Some? ==> (r.value.1 == 6 && |r.value.0| <= 3) || (r.value.1 == 12 && |r.value.0| == 4)
    ensures r.Some? ==> p + r.value.1 <= end
  {
    if end - p < 6 then None
    else
      var first := ParseHex4(c, p + 2);
      if 0xDC00 <= first <= 0xDFFF then None
      else if 0xD800 <= first <= 0xDBFF then
        if end - (p + 6) < 6 || c[p + 6] != '\\' || c[p + 7] != 'u' then None
        else
          var second := ParseHex4(c, p + 8);
          if second < 0xDC00 || second > 0xDFFF then None
          else Some((Utf8(0x1_0000 + (first % 0x400) * 0x400 + second % 0x400), 12))
      else Some((Utf8(first), 6))
  }

  // First pass

  /** Position of the closing quote; every backslash takes the next character with it. */
  function StringEnd(c: string, length: nat, p: nat): (r: Option<nat>)
    requires p <= length <= |c|
    ensures r.Some? ==> p <= r.value < length && c[r.value] == '\"'
    decreases length - p
  {
    if p == length then None
    else if c[p] == '\"' then Some(p)
    else if c[p] == '\\' then
      if p + 1 >= length then None else StringEnd(c, length, p + 2)
    else StringEnd(c, length, p + 1)
  }

  /** The number of backslashes the first pass counts between p and end. */
  function SkippedBytes(c: string, p: nat, end: nat): nat
    requires end <= |c|
    decreases end - p
  {
    if p >= end then 0
    else if c[p] == '\\' then 1 + SkippedBytes(c, p + 2, end)
    else SkippedBytes(c, p + 1, end)
  }

  // Second pass

  function SimpleEscape(c: char): Option<char> {
    if c == 'b' then Some(8 as char)
    else if c == 'f' then Some(12 as char)
    else if c == 'n' then Some('\n')
    else if c == 'r' then Some('\r')
    else if c == 't' then Some('\t')
    else if c == '\"' || c == '\\' || c == '/' then Some(c)
    else None
  }

  /** Decoding from p up to the closing quote at end, which a bad literal may make it step over. */
  function Decode(c: string, p: nat, end: nat): Option<string>
    requires end < |c|
    decreases end - p
  {
    if p >= end then Some([])
    else if c[p] != '\\' then Push([c[p]], Decode(c, p + 1, end))
    else if c[p + 1] == 'u' then
      match Utf16Literal(c, p, end)
      case None => None
      case Some((bytes, n)) => Push(bytes, Decode(c, p + n, end))
    else
      match SimpleEscape(c[p + 1])
      case None => None
      case Some(x) => Push([x], Decode(c, p + 2, end))
  }

  function Push(s: string, r: Option<string>): Option<string> {
    if r.Some? then Some(s + r.value) else None
  }

  /** The contents of the C string that starts a buffer. */
  function UntilNul(s: string): string {
    if s == [] || s[0] == NUL then [] else [s[0]] + UntilNul(s[1..])
  }

  lemma {:induction false} NulFreeIsWhole(s: string)
    requires NulFree(s)
    ensures UntilNul(s) == s
  {
    if s != [] {
      NulFreeIsWhole(s[1..]);
      assert s == [s[0]] + s[1..];
    }
  }

  // The reservation is enough

  /** Where the first pass, started at p, stands when it first reaches q or passes it. */
  function Reach(c: string, p: nat, q: nat): (r: nat)
    requires p <= q <= |c|
    ensures q <= r <= q + 1
    ensures r == q + 1 ==> p < q && c[q - 1] == '\\'
    decreases q - p
  {
    if p == q then p
    else if c[p] == '\\' then (if p + 1 == q then p + 2 else Reach(c, p + 2, q))
    else Reach(c, p + 1, q)
  }

  lemma {:induction false} SkippedSplits(c: string, p: nat, q: nat, end: nat)
    requires p <= q <= end <= |c|
    ensures SkippedBytes(c, p, end) == SkippedBytes(c, p, q) + SkippedBytes(c, Reach(c, p, q), end)
    decreases q - p
  {
    if p < q {
      if c[p] == '\\' {
        if p + 1 < q { SkippedSplits(c, p + 2, q, end); }
      } else {
        SkippedSplits(c, p + 1, q, end);
      }
    }
  }

  /** Backslashes come with a second character, so at most every other position counts. */
  lemma {:induction false} SkippedAtMostHalf(c: string, p: nat, end: nat)
    requires end <= |c|
    ensures p <= end ==> 2 * SkippedBytes(c, p, end) <= end - p + 1
    decreases end - p
  {
    if p < end {
      if c[p] == '\\' {
        SkippedAtMostHalf(c, p + 2, end);
      } else {
        SkippedAtMostHalf(c, p + 1, end);
      }
    }
  }

  /** What the second pass may still write when it stands at p. */
  function Budget(c: string, start: nat, p: nat, end: nat): int
    requires start <= p <= end <= |c|
  {
    end - p - SkippedBytes(c, Reach(c, start, p), end)
  }

  /** Each step of the second pass writes no more than the budget it uses up: a plain character is no
      counted backslash, an escape covers at most one, and a literal is longer than what it writes by
      more than the backslashes it can cover. */
  lemma StepFitsBudget(c: string, start: nat, p: nat, n: nat, end: nat)
    requires start <= p && p + n <= end < |c|
    requires n == 1 || n == 2 || n == 6 || n == 12
    requires n == 1 ==> c[p] != '\\'
    ensures var written := if n <= 2 then 1 else if n == 6 then 3 else 4;
      Budget(c, start, p, end) >= written + Budget(c, start, p + n, end)
  {
    var a, b := Reach(c, start, p), Reach(c, start, p + n);
    ReachTwice(c, start, p, p + n);
    if a <= p + n {
      SkippedSplits(c, a, p + n, end);
      SkippedAtMostHalf(c, a, p + n);
      if n == 1 && a == p {
        assert SkippedBytes(c, p, p + 1) == SkippedBytes(c, p + 1, p + 1) == 0;
      }
    }
  }

  lemma {:induction false} ReachTwice(c: string, start: nat, p: nat, q: nat)
    requires start <= p <= q <= |c|
    ensures var a := Reach(c, start, p);
      if a <= q then Reach(c, start, q) == Reach(c, a, q) else Reach(c, start, q) == a
    decreases p - start
  {
    if start < p {
      if c[start] == '\\' {
        if start + 1 < p { ReachTwice(c, start + 2, p, q); }
      } else {
        ReachTwice(c, start + 1, p, q);
      }
    }
  }

  /** The first pass stops in step with itself at the closing quote. */
  lemma {:induction false} EndReached(c: string, length: nat, p: nat, end: nat)
    requires p <= length <= |c| && StringEnd(c, length, p) == Some(end)
    ensures Reach(c, p, end) == end
    decreases length - p
  {
    if c[p] == '\"' {
    } else if c[p] == '\\' {
      EndReached(c, length, p + 2, end);
    } else {
      EndReached(c, length, p + 1, end);
    }
  }

  /** An escape that reaches over the closing quote starts out of step with the first pass. */
  lemma LastStepFitsBudget(c: string, length: nat, start: nat, p: nat, end: nat)
    requires start <= p < end < |c| && p + 1 == end && c[p] == '\\'
    requires start <= length <= |c| && StringEnd(c, length, start) == Some(end)
    ensures Budget(c, start, p, end) == 1
  {
    EndReached(c, length, start, end);
    ReachTwice(c, start, p, end);
  }

  lemma BudgetNotNegative(c: string, start: nat, p: nat, end: nat)
    requires start <= p <= end <= |c|
    ensures Budget(c, start, p, end) >= 0
  {
    SkippedAtMostHalf(c, Reach(c, start, p), end);
  }

  /** utf16_literal_to_utf8 with its output pointer: the continuation bytes from the back, then the
      first byte. (codepoint | 0x80) & 0xBF is 0x80 plus the low six bits. */
  method WriteUtf8(output: array<char>, at: nat, cp: nat) returns (next: nat)
    requires cp <= 0x10_FFFF && at + |Utf8(cp)| <= output.Length
    modifies output
    ensures next == at + |Utf8(cp)|
    ensures output[..next] == old(output[..at]) + Utf8(cp)
  {
    var utf8Length, firstByteMark := 1, 0;
    if cp >= 0x1_0000 {
      utf8Length, firstByteMark := 4, 0xF0;
    } else if cp >= 0x800 {
      utf8Length, firstByteMark := 3, 0xE0;
    } else if cp >= 0x80 {
      utf8Length, firstByteMark := 2, 0xC0;
    }
    BytesOf(cp);
    next := WriteBytes(output, at, cp, utf8Length, firstByteMark, Utf8(cp));
  }

  /** The bytes from the last to the first. */
  method WriteBytes(output: array<char>, at: nat, cp: nat, utf8Length: nat, firstByteMark: nat, ghost bytes: string)
      returns (next: nat)
    requires utf8Length > 0 && |bytes| == utf8Length && (utf8Length == 1 ==> firstByteMark == 0)
    requires at + utf8Length <= output.Length
    requires ShiftedBy(cp, utf8Length - 1) + firstByteMark < 0x100
    requires bytes[0] == Byte(ShiftedBy(cp, utf8Length - 1) + firstByteMark)
    requires forall i: nat {:trigger Continues(cp, bytes, i)} :: 0 < i < utf8Length ==> Continues(cp, bytes, i)
    modifies output
    ensures next == at + utf8Length && output[..next] == old(output[..at]) + bytes
  {
    var rest := cp;
    var position := utf8Length - 1;
    while position > 0
      invariant 0 <= position < utf8Length
      invariant output[..at] == old(output[..at])
      invariant forall i :: position < i < utf8Length ==> output[at + i] == bytes[i]
      invariant rest == ShiftedBy(cp, utf8Length - 1 - position)
    {
      assert Continues(cp, bytes, position);
      output[at + position] := Byte(0x80 + rest % 0x40);
      rest := rest / 0x40;
      position := position - 1;
    }
    output[at] := if utf8Length > 1 then Byte(rest + firstByteMark) else Byte(rest);
    next := at + utf8Length;
  }

  /** Each byte but the first carries six bits. */
  predicate Continues(cp: nat, bytes: string, i: nat)
    requires 0 < i < |bytes|
  {
    bytes[i] == Byte(0x80 + ShiftedBy(cp, |bytes| - 1 - i) % 0x40)
  }

  function FirstByteMark(n: nat): nat {
    if n == 2 then 0xC0 else if n == 3 then 0xE0 else if n == 4 then 0xF0 else 0
  }

  lemma BytesOf(cp: nat)
    requires cp <= 0x10_FFFF
    ensures var n := |Utf8(cp)|;
      var first := ShiftedBy(cp, n - 1) + FirstByteMark(n);
      first < 0x100 && Utf8(cp)[0] == Byte(first)
    ensures forall i: nat {:trigger Continues(cp, Utf8(cp), i)} :: 0 < i < |Utf8(cp)| ==> Continues(cp, Utf8(cp), i)
  {
    ThreeShifts(cp);
  }

  lemma ThreeShifts(cp: nat)
    ensures ShiftedBy(cp, 0) == cp && ShiftedBy(cp, 1) == cp / 0x40 && ShiftedBy(cp, 2) == cp / 0x40 / 0x40
    ensures ShiftedBy(cp, 3) == cp / 0x40 / 0x40 / 0x40
  {
  }

  /** codepoint >>= 6, k times. */
  function ShiftedBy(cp: nat, k: nat): nat {
    if k == 0 then cp else ShiftedBy(cp, k - 1) / 0x40
  }

  /** First pass of parse_string: the closing quote and the number of skipped bytes. */
  method Measure(c: string, length: nat, start: nat) returns (ok: bool, end: nat, skipped: nat)
    requires start <= length <= |c|
    ensures ok <==> StringEnd(c, length, start).Some?
    ensures ok ==> StringEnd(c, length, start) == Some(end) && skipped == SkippedBytes(c, start, end)
  {
    end, skipped := start, 0;
    while end < length && c[end] != '\"'
      invariant start <= end <= length
      invariant StringEnd(c, length, start) == StringEnd(c, length, end)
      invariant Reach(c, start, end) == end && skipped == SkippedBytes(c, start, end)
      decreases length - end
    {
      ghost var before := end;
      if c[end] == '\\' {
        if end + 1 >= length {
          return false, end, skipped;
        }
        skipped := skipped + 1;
        end := end + 1;
      }
      end := end + 1;
      MeasureStep(c, start, before, end);
    }
    ok := end < length;
  }

  lemma MeasureStep(c: string, start: nat, p: nat, q: nat)
    requires start <= p < q <= |c| && Reach(c, start, p) == p
    requires q == if c[p] == '\\' then p + 2 else p + 1
    ensures Reach(c, start, q) == q
    ensures SkippedBytes(c, start, q) == SkippedBytes(c, start, p) + if c[p] == '\\' then 1 else 0
  {
    ReachTwice(c, start, p, q);
    SkippedSplits(c, start, p, q);
  }

  /** Second pass of parse_string, into a buffer of exactly the size the first pass reserved. No write
      is out of bounds, whatever the input. */
  method DecodeInto(c: string, length: nat, start: nat, end: nat, skipped: nat)
      returns (ok: bool, output: array<char>, n: nat)
    requires start > 0 && start <= length <= |c| && StringEnd(c, length, start) == Some(end)
    requires skipped == SkippedBytes(c, start, end)
    ensures fresh(output)
    ensures ok <==> Decode(c, start, end).Some?
    ensures ok ==> n < output.Length && output[..n] == Decode(c, start, end).value && output[n] == NUL
    ensures output.Length == end - (start - 1) - skipped + 1
  {
    BudgetNotNegative(c, start, start, end);
    var allocationLength := end - (start - 1) - skipped;
    output := new char[allocationLength + 1];
    n := 0;
    var p := start;
    assert output[..0] == [];
    PushNothing(Decode(c, start, end));
    while p < end
      invariant start <= p <= end + 1 && n <= allocationLength
      invariant p <= end ==> n + Budget(c, start, p, end) < allocationLength
      invariant Decode(c, start, end) == Push(output[..n], Decode(c, p, end))
      decreases end - p
    {
      ok, n, p := DecodeNext(c, length, start, end, output, n, p, Decode(c, start, end));
      if !ok {
        return;
      }
    }
    output[n] := NUL;
    ok := true;
  }

  /** One character or escape sequence. */
  method DecodeNext(c: string, length: nat, start: nat, end: nat, output: array<char>, at: nat, from: nat,
      ghost whole: Option<string>) returns (ok: bool, n: nat, p: nat)
    requires 0 < start <= from < end && start <= length <= |c| && StringEnd(c, length, start) == Some(end)
    requires at < output.Length && at + Budget(c, start, from, end) + 1 < output.Length
    requires whole == Push(output[..at], Decode(c, from, end))
    modifies output
    ensures !ok ==> whole.None?
    ensures ok ==> from < p <= end + 1 && n < output.Length && whole == Push(output[..n], Decode(c, p, end))
    ensures ok && p <= end ==> n + Budget(c, start, p, end) + 1 < output.Length
  {
    BudgetNotNegative(c, start, from, end);
    ghost var written := output[..at];
    n, p := at, from;
    if c[p] != '\\' {
      StepFitsBudget(c, start, p, 1, end);
      BudgetNotNegative(c, start, p + 1, end);
      output[n] := c[p];
      n := n + 1;
      p := p + 1;
      assert output[..n] == written + [c[from]];
      PushTwice(written, [c[from]], Decode(c, p, end));
    } else if c[p + 1] == 'u' {
      match Utf16Literal(c, p, end) {
        case None =>
          return false, n, p;
        case Some((bytes, sequenceLength)) =>
          StepFitsBudget(c, start, p, sequenceLength, end);
          BudgetNotNegative(c, start, p + sequenceLength, end);
          n := WriteLiteral(output, n, c, p, end);
          p := p + sequenceLength;
          PushTwice(written, bytes, Decode(c, p, end));
      }
    } else {
      match SimpleEscape(c[p + 1]) {
        case None =>
          return false, n, p;
        case Some(x) =>
          if p + 1 == end {
            LastStepFitsBudget(c, length, start, p, end);
          } else {
            StepFitsBudget(c, start, p, 2, end);
            BudgetNotNegative(c, start, p + 2, end);
          }
          output[n] := x;
          n := n + 1;
          p := p + 2;
          assert output[..n] == written + [x];
          PushTwice(written, [x], Decode(c, p, end));
      }
    }
    ok := true;
  }

  lemma PushNothing(r: Option<string>)
    ensures Push([], r) == r
  {
    if r.Some? { assert [] + r.value == r.value; }
  }

  lemma PushTwice(a: string, b: string, r: Option<string>)
    ensures Push(a, Push(b, r)) == Push(a + b, r)
  {
    if r.Some? { assert a + (b + r.value) == (a + b) + r.value; }
  }

  /** The code point a successful literal decodes to, and its bytes at the output pointer. */
  method WriteLiteral(output: array<char>, at: nat, c: string, p: nat, end: nat) returns (next: nat)
    requires p <= end <= |c| && Utf16Literal(c, p, end).Some?
    requires at + |Utf16Literal(c, p, end).value.0| <= output.Length
    modifies output
    ensures next == at + |Utf16Literal(c, p, end).value.0|
    ensures output[..next] == old(output[..at]) + Utf16Literal(c, p, end).value.0
  {
    var first := ParseHex4(c, p + 2);
    var codepoint := first;
    if 0xD800 <= first <= 0xDBFF {
      var second := ParseHex4(c, p + 8);
      codepoint := 0x1_0000 + (first % 0x400) * 0x400 + second % 0x400;
    }
    next := WriteUtf8(output, at, codepoint);
  }

  // Decoding what the printer escaped

  lemma HexDigitValue(d: nat)
    requires d < 16
    ensures HexValue(HexDigit(d)) == d
  {
  }

  /** Character i of s stands in its place behind p. */
  predicate CharAt(c: string, p: nat, s: string, i: nat)
    requires p + |s| <= |c| && i < |s|
  {
    c[p + i] == s[i]
  }

  /** The text of s stands in c at position p. */
  predicate TextAt(c: string, p: nat, s: string) {
    p + |s| <= |c| && forall i: nat {:trigger CharAt(c, p, s, i)} :: i < |s| ==> CharAt(c, p, s, i)
  }

  lemma TextAtSplit(c: string, p: nat, a: string, b: string)
    requires TextAt(c, p, a + b)
    ensures TextAt(c, p, a) && TextAt(c, p + |a|, b)
  {
    forall i: nat | i < |a| ensures CharAt(c, p, a, i) {
      assert CharAt(c, p, a + b, i);
    }
    var q := p + |a|;
    forall i: nat | i < |b| ensures CharAt(c, q, b, i) {
      assert CharAt(c, p, a + b, |a| + i);
    }
  }

  lemma TextAtIndex(c: string, p: nat, s: string, i: nat)
    requires TextAt(c, p, s) && i < |s|
    ensures p + i < |c| && c[p + i] == s[i]
  {
    assert CharAt(c, p, s, i);
  }

  lemma TextAtSix(c: string, p: nat, s: string)
    requires TextAt(c, p, s) && |s| == 6
    ensures p + 6 <= |c| && c[p] == s[0] && c[p + 1] == s[1] && c[p + 2] == s[2] && c[p + 3] == s[3]
    ensures c[p + 4] == s[4] && c[p + 5] == s[5]
  {
    TextAtIndex(c, p, s, 0);
    TextAtIndex(c, p, s, 1);
    TextAtIndex(c, p, s, 2);
    TextAtIndex(c, p, s, 3);
    TextAtIndex(c, p, s, 4);
    TextAtIndex(c, p, s, 5);
  }

  /** One escaped character decodes to itself, and the first pass passes over it. */
  lemma DecodeChar(c: string, length: nat, p: nat, end: nat, x: char)
    requires x != NUL && TextAt(c, p, EscapeChar(x)) && p + |EscapeChar(x)| <= end < length <= |c|
    ensures Decode(c, p, end) == Push([x], Decode(c, p + |EscapeChar(x)|, end))
    ensures StringEnd(c, length, p) == StringEnd(c, length, p + |EscapeChar(x)|)
  {
    var e := EscapeChar(x);
    TextAtIndex(c, p, e, 0);
    if |e| > 1 { TextAtIndex(c, p, e, 1); }
    if !Plain(x) && ShortEscape(x).None? {
      HexDigitValue(x as nat / 16);
      HexDigitValue(x as nat % 16);
      TextAtSix(c, p, e);
      assert c[p] == '\\' && c[p + 1] == 'u' && c[p + 2] == '0' && c[p + 3] == '0';
      assert c[p + 4] == HexDigit(x as nat / 16) && c[p + 5] == HexDigit(x as nat % 16);
      assert ParseHex4(c, p + 2) == x as nat;
      assert Utf8(x as nat) == [x];
      PassOver(c, length, p, 4);
    }
  }

  /** The first pass steps over characters that are neither quotes nor backslashes. */
  lemma PassOver(c: string, length: nat, p: nat, n: nat)
    requires p + 2 + n <= length <= |c| && c[p] == '\\' && p + 1 < length
    requires forall i :: p + 2 <= i < p + 2 + n ==> c[i] != '\"' && c[i] != '\\'
    ensures StringEnd(c, length, p) == StringEnd(c, length, p + 2 + n)
  {
    var q := p + 2;
    while q < p + 2 + n
      invariant p + 2 <= q <= p + 2 + n
      invariant StringEnd(c, length, p) == StringEnd(c, length, q)
    {
      q := q + 1;
    }
  }

  /** Escaped text in front of a quote decodes to the string it came from. */
  lemma {:induction false} DecodeEscaped(c: string, length: nat, p: nat, end: nat, s: string)
    requires NulFree(s) && TextAt(c, p, Escape(s))
    requires p + |Escape(s)| == end < length <= |c| && c[end] == '\"'
    ensures StringEnd(c, length, p) == Some(end)
    ensures Decode(c, p, end) == Some(s)
    decreases |s|
  {
    if s != [] {
      var x, rest := s[0], Escape(s[1..]);
      assert Escape(s) == EscapeChar(x) + rest;
      TextAtSplit(c, p, EscapeChar(x), rest);
      DecodeEscaped(c, length, p + |EscapeChar(x)|, end, s[1..]);
      DecodeChar(c, length, p, end, x);
      assert s == [x] + s[1..];
    }
  }

  // RFC 3629

  predicate Continuation(b: char) {
    0x80 <= b as nat < 0xC0
  }

  /** Section 3 of RFC 3629: the code point that starts s, and its length; overlong forms, surrogates
      and codes above 10FFFF are refused. */
  function FromUtf8(s: string): Option<(nat, nat)> {
    if s == [] then None
    else
      var b := s[0] as nat;
      if b < 0x80 then Some((b, 1))
      else if 0xC0 <= b < 0xE0 && |s| >= 2 && Continuation(s[1]) then
        var cp := (b - 0xC0) * 0x40 + (s[1] as nat - 0x80);
        if cp < 0x80 then None else Some((cp, 2))
      else if 0xE0 <= b < 0xF0 && |s| >= 3 && Continuation(s[1]) && Continuation(s[2]) then
        var cp := ((b - 0xE0) * 0x40 + (s[1] as nat - 0x80)) * 0x40 + (s[2] as nat - 0x80);
        if cp < 0x800 || 0xD800 <= cp < 0xE000 then None else Some((cp, 3))
      else if 0xF0 <= b < 0xF8 && |s| >= 4 && Continuation(s[1]) && Continuation(s[2]) && Continuation(s[3]) then
        var cp := (((b - 0xF0) * 0x40 + (s[1] as nat - 0x80)) * 0x40 + (s[2] as nat - 0x80)) * 0x40
                  + (s[3] as nat - 0x80);
        if cp < 0x1_0000 || cp > 0x10_FFFF then None else Some((cp, 4))
      else None
  }

  /** A Unicode scalar value. */
  predicate Scalar(cp: nat) {
    cp <= 0x10_FFFF && !(0xD800 <= cp < 0xE000)
  }

  /** What the engine writes for a scalar value is its UTF-8 form, whatever follows. */
  lemma Utf8RoundTrip(cp: nat, rest: string)
    requires Scalar(cp)
    ensures FromUtf8(Utf8(cp) + rest) == Some((cp, |Utf8(cp)|))
  {
    var s, u := Utf8(cp) + rest, Utf8(cp);
    forall i | 0 <= i < |u| ensures s[i] == u[i] {}
    var a := cp / 0x40;
    var b := a / 0x40;
    assert cp == 0x40 * a + cp % 0x40 && a == 0x40 * b + a % 0x40;
  }

  function HexCode(n: nat): (r: string)
    requires n < 0x1_0000
    ensures |r| == 4
  {
    [HexDigit(n / 0x1000), HexDigit(n / 0x100 % 0x10), HexDigit(n / 0x10 % 0x10), HexDigit(n % 0x10)]
  }

  /** A well-formed \u escape of a scalar value: one literal, or a surrogate pair (section 7 of RFC 8259). */
  function Utf16Escape(cp: nat): string
    requires Scalar(cp)
  {
    if cp < 0x1_0000 then "\\u" + HexCode(cp)
    else "\\u" + HexCode(0xD800 + (cp - 0x1_0000) / 0x400) + ("\\u" + HexCode(0xDC00 + (cp - 0x1_0000) % 0x400))
  }

  predicate AllScalar(cps: seq<nat>) {
    cps == [] || (Scalar(cps[0]) && AllScalar(cps[1..]))
  }

  function Utf16Escapes(cps: seq<nat>): string
    requires AllScalar(cps)
  {
    if cps == [] then [] else Utf16Escape(cps[0]) + Utf16Escapes(cps[1..])
  }

  function Utf8Text(cps: seq<nat>): string
    requires AllScalar(cps)
  {
    if cps == [] then [] else Utf8(cps[0]) + Utf8Text(cps[1..])
  }

  lemma HexCodeParses(c: string, p: nat, n: nat)
    requires n < 0x1_0000 && TextAt(c, p, "\\u" + HexCode(n))
    ensures p + 6 <= |c| && c[p] == '\\' && c[p + 1] == 'u' && ParseHex4(c, p + 2) == n
  {
    TextAtSix(c, p, "\\u" + HexCode(n));
    HexDigitValue(n / 0x1000);
    HexDigitValue(n / 0x100 % 0x10);
    HexDigitValue(n / 0x10 % 0x10);
    HexDigitValue(n % 0x10);
    var a := n / 0x10;
    var b := a / 0x10;
    assert n / 0x100 == b && n / 0x1000 == b / 0x10;
  }

  lemma SurrogateParts(d: nat)
    requires d < 0x10_0000
    ensures d / 0x400 < 0x400
    ensures (0xD800 + d / 0x400) % 0x400 == d / 0x400
    ensures (0xDC00 + d % 0x400) % 0x400 == d % 0x400
    ensures d / 0x400 * 0x400 + d % 0x400 == d
  {
  }

  lemma SurrogatePair(c: string, p: nat, end: nat, first: nat, second: nat)
    requires p + 12 <= end <= |c| && c[p + 6] == '\\' && c[p + 7] == 'u'
    requires ParseHex4(c, p + 2) == first && 0xD800 <= first < 0xDC00
    requires ParseHex4(c, p + 8) == second && 0xDC00 <= second < 0xE000
    ensures Utf16Literal(c, p, end) == Some((Utf8(0x1_0000 + (first % 0x400) * 0x400 + second % 0x400), 12))
  {
  }

  lemma OneLiteralDecodes(c: string, p: nat, end: nat, cp: nat)
    requires Scalar(cp) && cp < 0x1_0000 && p + 6 <= end < |c| && TextAt(c, p, "\\u" + HexCode(cp))
    ensures Decode(c, p, end) == Push(Utf8(cp), Decode(c, p + 6, end))
  {
    HexCodeParses(c, p, cp);
  }

  lemma PairDecodes(c: string, p: nat, end: nat, d: nat)
    requires d < 0x10_0000 && p + 12 <= end < |c|
    requires TextAt(c, p, "\\u" + HexCode(0xD800 + d / 0x400) + ("\\u" + HexCode(0xDC00 + d % 0x400)))
    ensures Decode(c, p, end) == Push(Utf8(0x1_0000 + d), Decode(c, p + 12, end))
  {
    SurrogateParts(d);
    TextAtSplit(c, p, "\\u" + HexCode(0xD800 + d / 0x400), "\\u" + HexCode(0xDC00 + d % 0x400));
    HexCodeParses(c, p, 0xD800 + d / 0x400);
    HexCodeParses(c, p + 6, 0xDC00 + d % 0x400);
    SurrogatePair(c, p, end, 0xD800 + d / 0x400, 0xDC00 + d % 0x400);
  }

  lemma LiteralDecodes(c: string, p: nat, end: nat, cp: nat)
    requires Scalar(cp) && p + |Utf16Escape(cp)| <= end < |c| && TextAt(c, p, Utf16Escape(cp))
    ensures Decode(c, p, end) == Push(Utf8(cp), Decode(c, p + |Utf16Escape(cp)|, end))
  {
    if cp < 0x1_0000 {
      OneLiteralDecodes(c, p, end, cp);
    } else {
      PairDecodes(c, p, end, cp - 0x1_0000);
    }
  }

  /** Well-formed \u escapes of any number of scalar values decode to their UTF-8 text. */
  lemma {:induction false} EscapesDecodeToUtf8(c: string, p: nat, end: nat, cps: seq<nat>)
    requires AllScalar(cps) && TextAt(c, p, Utf16Escapes(cps)) && p + |Utf16Escapes(cps)| == end < |c|
    ensures Decode(c, p, end) == Some(Utf8Text(cps))
    decreases |cps|
  {
    if cps != [] {
      var cp, rest := cps[0], Utf16Escapes(cps[1..]);
      var q := p + |Utf16Escape(cp)|;
      assert Utf16Escapes(cps) == Utf16Escape(cp) + rest;
      TextAtSplit(c, p, Utf16Escape(cp), rest);
      EscapesDecodeToUtf8(c, q, end, cps[1..]);
      LiteralDecodes(c, p, end, cp);
    }
  }
}
