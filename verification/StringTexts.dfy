/** String literals as section 7 of RFC 8259 has them: what each escape stands for, and which are refused. */
module StringTexts {
  import opened Options
  import opened Unescaping
  import opened Scanning

  /** The two-character escapes. */
  const ESCAPES: map<char, char> := map[
    '\"' := '\"', '\\' := '\\', '/' := '/', 'b' := 8 as char, 'f' := 12 as char, 'n' := 10 as char,
    'r' := 13 as char, 't' := 9 as char]

  /** A hex digit, in either case. */
  datatype Nibble = Nibble(value: nat, upper: bool)

  /** One character of a literal, one escape, or a pair of escapes for one character. */
  datatype Part =
    | Bare(c: char)
    | Escaped(letter: char)
    | Unit(hex: seq<Nibble>)
    | Pair(high: seq<Nibble>, low: seq<Nibble>)

  predicate FourDigits(hex: seq<Nibble>) {
    |hex| == 4 && hex[0].value < 16 && hex[1].value < 16 && hex[2].value < 16 && hex[3].value < 16
  }

  function DigitChar(n: Nibble): char
    requires n.value < 16
  {
    if n.upper then "0123456789ABCDEF"[n.value] else "0123456789abcdef"[n.value]
  }

  function UnitText(hex: seq<Nibble>): (r: string)
    requires FourDigits(hex)
    ensures |r| == 6
  {
    ['\\', 'u', DigitChar(hex[0]), DigitChar(hex[1]), DigitChar(hex[2]), DigitChar(hex[3])]
  }

  function Code(hex: seq<Nibble>): (r: nat)
    requires FourDigits(hex)
    ensures r < 0x1_0000
  {
    0x1000 * hex[0].value + 0x100 * hex[1].value + 0x10 * hex[2].value + hex[3].value
  }

  predicate HighSurrogate(n: nat) {
    0xD800 <= n < 0xDC00
  }

  predicate LowSurrogate(n: nat) {
    0xDC00 <= n < 0xE000
  }

  /** The code point of a surrogate pair. */
  function PairCode(high: nat, low: nat): (r: nat)
    requires HighSurrogate(high) && LowSurrogate(low)
    ensures r <= 0x10_FFFF
  {
    0x1_0000 + (high - 0xD800) * 0x400 + (low - 0xDC00)
  }

  predicate PartFits(x: Part) {
    match x
    case Bare(c) => c != '\"' && c != '\\'
    case Escaped(letter) => letter in ESCAPES
    case Unit(hex) => FourDigits(hex) && !HighSurrogate(Code(hex)) && !LowSurrogate(Code(hex))
    case Pair(high, low) =>
      FourDigits(high) && FourDigits(low) && HighSurrogate(Code(high)) && LowSurrogate(Code(low))
  }

  function PartText(x: Part): (r: string)
    requires PartFits(x)
    ensures |r| > 0
  {
    match x
    case Bare(c) => [c]
    case Escaped(letter) => ['\\', letter]
    case Unit(hex) => UnitText(hex)
    case Pair(high, low) => UnitText(high) + UnitText(low)
  }

  /** The bytes that a part stands for. */
  function Meaning(x: Part): string
    requires PartFits(x)
  {
    match x
    case Bare(c) => [c]
    case Escaped(letter) => [ESCAPES[letter]]
    case Unit(hex) => Utf8(Code(hex))
    case Pair(high, low) => Utf8(PairCode(Code(high), Code(low)))
  }

  predicate AllFit(xs: seq<Part>) {
    xs == [] || (PartFits(xs[0]) && AllFit(xs[1..]))
  }

  function PartsText(xs: seq<Part>): string
    requires AllFit(xs)
  {
    if xs == [] then [] else PartText(xs[0]) + PartsText(xs[1..])
  }

  function PartsMeaning(xs: seq<Part>): string
    requires AllFit(xs)
  {
    if xs == [] then [] else Meaning(xs[0]) + PartsMeaning(xs[1..])
  }

  // Decoding

  lemma {:induction false} DigitIsRead(n: Nibble)
    requires n.value < 16
    ensures HexValue(DigitChar(n)) == n.value && DigitChar(n) != '\"' && DigitChar(n) != '\\'
  {
  }

  lemma {:induction false} UnitIsRead(c: string, p: nat, hex: seq<Nibble>)
    requires FourDigits(hex) && TextAt(c, p, UnitText(hex))
    ensures p + 6 <= |c| && c[p] == '\\' && c[p + 1] == 'u' && ParseHex4(c, p + 2) == Code(hex)
    ensures forall i :: p + 2 <= i < p + 6 ==> c[i] != '\"' && c[i] != '\\'
  {
    TextAtSix(c, p, UnitText(hex));
    DigitIsRead(hex[0]);
    DigitIsRead(hex[1]);
    DigitIsRead(hex[2]);
    DigitIsRead(hex[3]);
  }

  lemma {:induction false} SimpleIsRead(letter: char)
    ensures letter in ESCAPES ==> SimpleEscape(letter) == Some(ESCAPES[letter]) && letter != 'u'
    ensures letter !in ESCAPES ==> SimpleEscape(letter) == None
  {
  }

  /** What stands between p and q is decoded to m. */
  predicate DecodesTo(c: string, p: nat, q: nat, end: nat, m: string)
    requires end < |c|
  {
    Decode(c, p, end) == Push(m, Decode(c, q, end))
  }

  lemma {:induction false} UnitDecodes(c: string, p: nat, end: nat, hex: seq<Nibble>)
    requires FourDigits(hex) && !HighSurrogate(Code(hex)) && !LowSurrogate(Code(hex))
    requires TextAt(c, p, UnitText(hex)) && p + 6 <= end < |c|
    ensures DecodesTo(c, p, p + 6, end, Utf8(Code(hex)))
  {
    UnitIsRead(c, p, hex);
  }

  lemma {:induction false} Halves(high: nat, low: nat)
    requires HighSurrogate(high) && LowSurrogate(low)
    ensures 0x1_0000 + (high % 0x400) * 0x400 + low % 0x400 == PairCode(high, low)
  {
  }

  /** Two units that stand one behind the other. */
  lemma {:induction false} PairIsRead(c: string, p: nat, high: seq<Nibble>, low: seq<Nibble>)
    requires FourDigits(high) && FourDigits(low) && TextAt(c, p, UnitText(high) + UnitText(low))
    ensures p + 12 <= |c| && c[p] == '\\' && c[p + 1] == 'u' && ParseHex4(c, p + 2) == Code(high)
    ensures c[p + 6] == '\\' && c[p + 7] == 'u' && ParseHex4(c, p + 8) == Code(low)
    ensures forall i :: p + 2 <= i < p + 6 || p + 8 <= i < p + 12 ==> c[i] != '\"' && c[i] != '\\'
  {
    TextAtSplit(c, p, UnitText(high), UnitText(low));
    UnitIsRead(c, p, high);
    UnitIsRead(c, p + 6, low);
  }

  lemma {:induction false} LiteralIsPushed(c: string, p: nat, end: nat, m: string, n: nat)
    requires p < end < |c| && c[p] == '\\' && c[p + 1] == 'u'
    requires Utf16Literal(c, p, end) == Some((m, n))
    ensures DecodesTo(c, p, p + n, end, m)
  {
  }

  lemma {:induction false} PairIsLiteral(c: string, p: nat, end: nat, high: nat, low: nat)
    requires HighSurrogate(high) && LowSurrogate(low) && p + 12 <= end <= |c| && c[p + 6] == '\\' && c[p + 7] == 'u'
    requires ParseHex4(c, p + 2) == high && ParseHex4(c, p + 8) == low
    ensures Utf16Literal(c, p, end) == Some((Utf8(PairCode(high, low)), 12))
  {
    Halves(high, low);
    SurrogatePair(c, p, end, high, low);
  }

  lemma {:induction false} PairIsDecoded(c: string, p: nat, end: nat, high: seq<Nibble>, low: seq<Nibble>)
    requires FourDigits(high) && FourDigits(low) && HighSurrogate(Code(high)) && LowSurrogate(Code(low))
    requires TextAt(c, p, UnitText(high) + UnitText(low)) && p + 12 <= end < |c|
    ensures DecodesTo(c, p, p + 12, end, Utf8(PairCode(Code(high), Code(low))))
  {
    PairIsRead(c, p, high, low);
    PairIsLiteral(c, p, end, Code(high), Code(low));
    LiteralIsPushed(c, p, end, Utf8(PairCode(Code(high), Code(low))), 12);
  }

  lemma {:induction false} BareDecodes(c: string, p: nat, end: nat, x: char)
    requires x != '\"' && x != '\\' && TextAt(c, p, [x]) && p < end < |c|
    ensures DecodesTo(c, p, p + 1, end, [x])
  {
    TextAtIndex(c, p, [x], 0);
  }

  lemma {:induction false} EscapeDecodes(c: string, p: nat, end: nat, letter: char)
    requires letter in ESCAPES && TextAt(c, p, ['\\', letter]) && p + 2 <= end < |c|
    ensures DecodesTo(c, p, p + 2, end, [ESCAPES[letter]])
  {
    TextAtIndex(c, p, ['\\', letter], 0);
    TextAtIndex(c, p, ['\\', letter], 1);
    SimpleIsRead(letter);
  }

  lemma {:induction false} PartDecodes(c: string, p: nat, end: nat, x: Part)
    requires PartFits(x) && TextAt(c, p, PartText(x)) && p + |PartText(x)| <= end < |c|
    ensures DecodesTo(c, p, p + |PartText(x)|, end, Meaning(x))
  {
    match x
    case Bare(b) => BareDecodes(c, p, end, b);
    case Escaped(letter) => EscapeDecodes(c, p, end, letter);
    case Unit(hex) => UnitDecodes(c, p, end, hex);
    case Pair(high, low) => PairIsDecoded(c, p, end, high, low);
  }

  /** The first pass steps over a part. */
  lemma {:induction false} PartIsPassed(c: string, length: nat, p: nat, x: Part)
    requires PartFits(x) && TextAt(c, p, PartText(x)) && p + |PartText(x)| < length <= |c|
    ensures StringEnd(c, length, p) == StringEnd(c, length, p + |PartText(x)|)
  {
    TextAtIndex(c, p, PartText(x), 0);
    match x
    case Bare(b) =>
    case Escaped(letter) => TextAtIndex(c, p, PartText(x), 1);
    case Unit(hex) =>
      UnitIsRead(c, p, hex);
      PassOver(c, length, p, 4);
    case Pair(high, low) =>
      PairIsRead(c, p, high, low);
      PassOver(c, length, p, 4);
      PassOver(c, length, p + 6, 4);
  }

  /** What the two passes come to from each position on, and what they do at a part. */
  predicate StepsAt(c: string, end: nat, decoded: nat -> Option<string>, quote: nat -> Option<nat>, p: nat, x: Part) {
    PartFits(x) && TextAt(c, p, PartText(x)) && p + |PartText(x)| <= end ==>
      && decoded(p) == Push(Meaning(x), decoded(p + |PartText(x)|))
      && quote(p) == quote(p + |PartText(x)|)
  }

  ghost predicate Steps(c: string, end: nat, decoded: nat -> Option<string>, quote: nat -> Option<nat>) {
    forall p: nat, x: Part :: StepsAt(c, end, decoded, quote, p, x)
  }

  /** The passes go from p to q over a text with this meaning. */
  predicate GoesOver(decoded: nat -> Option<string>, quote: nat -> Option<nat>, p: nat, q: nat, m: string) {
    decoded(p) == Push(m, decoded(q)) && quote(p) == quote(q)
  }

  lemma {:induction false} GoesOn(
      decoded: nat -> Option<string>, quote: nat -> Option<nat>, p: nat, q: nat, stop: nat, m: string, n: string)
    requires GoesOver(decoded, quote, p, q, m) && GoesOver(decoded, quote, q, stop, n)
    ensures GoesOver(decoded, quote, p, stop, m + n)
  {
    PushTwice(m, n, decoded(stop));
  }

  lemma {:induction false} FirstStep(
      c: string, p: nat, q: nat, end: nat, decoded: nat -> Option<string>, quote: nat -> Option<nat>, x: Part)
    requires Steps(c, end, decoded, quote)
    requires PartFits(x) && TextAt(c, p, PartText(x)) && q == p + |PartText(x)| <= end
    ensures GoesOver(decoded, quote, p, q, Meaning(x))
  {
    assert StepsAt(c, end, decoded, quote, p, x);
  }

  lemma {:induction false} PartsStep(
      c: string, p: nat, stop: nat, end: nat, decoded: nat -> Option<string>, quote: nat -> Option<nat>,
      xs: seq<Part>)
    requires Steps(c, end, decoded, quote)
    requires AllFit(xs) && TextAt(c, p, PartsText(xs)) && p + |PartsText(xs)| == stop <= end
    ensures GoesOver(decoded, quote, p, stop, PartsMeaning(xs))
    decreases |xs|
  {
    if xs == [] {
      PushNothing(decoded(p));
    } else {
      var a := PartText(xs[0]);
      var q := p + |a|;
      TextAtSplit(c, p, a, PartsText(xs[1..]));
      FirstStep(c, p, q, end, decoded, quote, xs[0]);
      PartsStep(c, q, stop, end, decoded, quote, xs[1..]);
      GoesOn(decoded, quote, p, q, stop, Meaning(xs[0]), PartsMeaning(xs[1..]));
    }
  }

  lemma {:induction false} PassesStep(
      c: string, length: nat, end: nat, decoded: nat -> Option<string>, quote: nat -> Option<nat>)
    requires end < length <= |c|
    requires forall p: nat :: decoded(p) == Decode(c, p, end)
    requires forall p: nat :: p <= length ==> quote(p) == StringEnd(c, length, p)
    ensures Steps(c, end, decoded, quote)
  {
    forall p: nat, x: Part ensures StepsAt(c, end, decoded, quote, p, x) {
      if PartFits(x) && TextAt(c, p, PartText(x)) && p + |PartText(x)| <= end {
        PartDecodes(c, p, end, x);
        PartIsPassed(c, length, p, x);
      }
    }
  }

  /** Both passes go on behind any text of parts. */
  lemma {:induction false} PartsDecode(c: string, length: nat, p: nat, stop: nat, end: nat, xs: seq<Part>)
    requires AllFit(xs) && TextAt(c, p, PartsText(xs)) && p + |PartsText(xs)| == stop <= end < length <= |c|
    ensures DecodesTo(c, p, stop, end, PartsMeaning(xs))
    ensures StringEnd(c, length, p) == StringEnd(c, length, stop)
  {
    var decoded := (q: nat) => Decode(c, q, end);
    var quote := (q: nat) => if q <= length then StringEnd(c, length, q) else None;
    PassesStep(c, length, end, decoded, quote);
    PartsStep(c, p, stop, end, decoded, quote, xs);
    assert decoded(p) == Decode(c, p, end) && decoded(stop) == Decode(c, stop, end);
  }

  function LiteralText(xs: seq<Part>): (r: string)
    requires AllFit(xs)
    ensures |r| >= 2
  {
    "\"" + PartsText(xs) + "\""
  }

  lemma {:induction false} LiteralStands(c: string, p: nat, end: nat, xs: seq<Part>)
    requires AllFit(xs) && TextAt(c, p, LiteralText(xs)) && end == p + 1 + |PartsText(xs)|
    ensures p < end < |c| && TextAt(c, p + 1, PartsText(xs)) && c[p] == '\"' && c[end] == '\"'
  {
    QuotesStand(c, p, end, PartsText(xs));
  }

  lemma {:induction false} QuotesStand(c: string, p: nat, end: nat, text: string)
    requires TextAt(c, p, "\"" + text + "\"") && end == p + 1 + |text|
    ensures p < end < |c| && TextAt(c, p + 1, text) && c[p] == '\"' && c[end] == '\"'
  {
    TextAtSplit(c, p, "\"" + text, "\"");
    TextAtSplit(c, p, "\"", text);
    TextAtIndex(c, p, "\"", 0);
    TextAtIndex(c, end, "\"", 0);
  }

  lemma {:induction false} NothingBehind(whole: Option<string>, s: string, rest: Option<string>)
    requires whole == Push(s, rest) && rest == Some([])
    ensures whole == Some(s)
  {
    assert s + [] == s;
  }

  lemma {:induction false} NothingLeft(c: string, length: nat, end: nat)
    requires end < length <= |c| && c[end] == '\"'
    ensures StringEnd(c, length, end) == Some(end) && Decode(c, end, end) == Some([])
  {
  }

  /** The first pass finds the closing quote, and the second one what the parts stand for. */
  lemma {:induction false} LiteralDecodes(c: string, length: nat, p: nat, end: nat, xs: seq<Part>)
    requires AllFit(xs) && TextAt(c, p, PartsText(xs)) && p + |PartsText(xs)| == end < length <= |c| && c[end] == '\"'
    ensures StringEnd(c, length, p) == Some(end) && Decode(c, p, end) == Some(PartsMeaning(xs))
  {
    PartsDecode(c, length, p, end, end, xs);
    NothingLeft(c, length, end);
    NothingBehind(Decode(c, p, end), PartsMeaning(xs), Decode(c, end, end));
  }

  lemma {:induction false} ParseFrom(c: string, length: nat, p: nat, start: nat, end: nat, s: string)
    requires p < length <= |c| && c[p] == '\"' && start == p + 1 && end < |c|
    requires StringEnd(c, length, start) == Some(end) && Decode(c, start, end) == Some(s)
    ensures ParseString(c, length, p) == Parsed(UntilNul(s), end + 1)
  {
  }

  /** A string literal is parsed to what its parts stand for, up to the first NUL among them. */
  lemma {:induction false} LiteralParses(c: string, length: nat, p: nat, xs: seq<Part>)
    requires AllFit(xs) && TextAt(c, p, LiteralText(xs)) && p + |LiteralText(xs)| <= length <= |c|
    ensures ParseString(c, length, p) == Parsed(UntilNul(PartsMeaning(xs)), p + |LiteralText(xs)|)
  {
    var start, end := p + 1, p + 1 + |PartsText(xs)|;
    LiteralStands(c, p, end, xs);
    LiteralDecodes(c, length, start, end, xs);
    ParseFrom(c, length, p, start, end, PartsMeaning(xs));
  }

  // What is refused

  /** A backslash in front of any other letter, a surrogate that is no half of a pair, and an escape that is cut
      off by the closing quote. */
  predicate Refused(c: string, q: nat, end: nat)
    requires q < end < |c|
  {
    && c[q] == '\\'
    && if c[q + 1] != 'u' then c[q + 1] !in ESCAPES
       else
         || end - q < 6
         || LowSurrogate(ParseHex4(c, q + 2))
         || (&& HighSurrogate(ParseHex4(c, q + 2))
             && (end - q < 12 || c[q + 6] != '\\' || c[q + 7] != 'u' || !LowSurrogate(ParseHex4(c, q + 8))))
  }

  lemma {:induction false} RefusedHere(c: string, q: nat, end: nat)
    requires q < end < |c| && Refused(c, q, end)
    ensures Decode(c, q, end) == None
  {
    if c[q + 1] != 'u' {
      SimpleIsRead(c[q + 1]);
    } else {
      assert Utf16Literal(c, q, end) == None;
    }
  }

  /** Behind a text of parts the decoder fails if and only if it fails on what follows, and at such a place it
      does. */
  lemma {:induction false} RefusedFails(c: string, p: nat, q: nat, end: nat, xs: seq<Part>)
    requires AllFit(xs) && TextAt(c, p, PartsText(xs)) && q == p + |PartsText(xs)| < end < |c|
    ensures Decode(c, p, end).None? <==> Decode(c, q, end).None?
    ensures Refused(c, q, end) ==> Decode(c, p, end) == None
  {
    PartsDecode(c, |c|, p, q, end, xs);
    if Refused(c, q, end) { RefusedHere(c, q, end); }
  }

  /** Bad digits count as the code zero. */
  lemma {:induction false} BadDigitsAreZero(c: string, p: nat)
    requires p + 4 <= |c|
    requires exists i :: p <= i < p + 4 && !IsHexDigit(c[i])
    ensures ParseHex4(c, p) == 0
  {
    var i :| p <= i < p + 4 && !IsHexDigit(c[i]);
    if HexValue(c[i]) >= 0 {
      DigitIsListed(c[i]);
      assert false;
    }
  }

  predicate IsHexDigit(x: char) {
    x in "0123456789abcdefABCDEF"
  }

  lemma {:induction false} DigitIsListed(x: char)
    requires HexValue(x) >= 0
    ensures IsHexDigit(x)
  {
    var digits := "0123456789abcdefABCDEF";
    var i := if x <= '9' then x as int - '0' as int else if x >= 'a' then 10 + x as int - 'a' as int
             else 16 + x as int - 'A' as int;
    assert 0 <= i < |digits| && digits[i] == x;
  }
}
