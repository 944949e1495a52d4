/** The lexical layer of the parser: blanks, numbers, strings and literals of a parse buffer. */
module Scanning {
  import opened CText
  import opened Json
  import opened Pointer
  import opened Unescaping

  datatype Parsed<+T> = Failed | Parsed(value: T, offset: nat)

  /** What callers provide: a byte behind the end of the input can be read, or the input itself ends in
      a NUL (the way cJSON_Parse counts the terminator in). */
  predicate Readable(c: string, length: nat) {
    && length <= |c|
    && (|c| > length || (length > 0 && c[length - 1] == NUL))
  }

  // Whitespace

  /** The first position from p on that holds no blank or control byte. */
  function BlankEnd(c: string, length: nat, p: nat): (r: nat)
    requires p <= length <= |c|
    ensures p <= r <= length
    ensures r < length ==> c[r] > ' '
    decreases length - p
  {
    if p < length && c[p] <= ' ' then BlankEnd(c, length, p + 1) else p
  }

  /** buffer_skip_whitespace: it steps back from the very end, but never behind where it began. */
  function SkipBlanks(c: string, length: nat, p: nat): (r: nat)
    requires p <= length <= |c|
    ensures p <= r <= length
    ensures p < length ==> r < length
  {
    if p == length then p
    else
      var r := BlankEnd(c, length, p);
      if r == length then r - 1 else r
  }

  // Numbers

  predicate NumberChar(c: char) {
    '0' <= c <= '9' || c == '+' || c == '-' || c == 'e' || c == 'E' || c == '.'
  }

  /** The copy into the temporary buffer of 64 bytes. */
  function NumberText(c: string, length: nat, p: nat, room: nat): (r: string)
    requires p <= length <= |c|
    ensures |r| <= length - p
    decreases length - p
  {
    if room == 0 || p == length || !NumberChar(c[p]) then []
    else [c[p]] + NumberText(c, length, p + 1, room - 1)
  }

  lemma {:induction false} NumberTextIsSlice(c: string, length: nat, p: nat, room: nat)
    requires p <= length <= |c|
    ensures NumberText(c, length, p, room) == c[p..p + |NumberText(c, length, p, room)|]
    decreases length - p
  {
    if room != 0 && p != length && NumberChar(c[p]) {
      NumberTextIsSlice(c, length, p + 1, room - 1);
    }
  }

  predicate IsDigit(c: char) {
    '0' <= c <= '9'
  }

  function DigitsEnd(s: string, p: nat): (r: nat)
    requires p <= |s|
    ensures p <= r <= |s|
    ensures forall i :: p <= i < r ==> IsDigit(s[i])
    decreases |s| - p
  {
    if p < |s| && IsDigit(s[p]) then DigitsEnd(s, p + 1) else p
  }

  /** The whole part of m times ten to the e. */
  function Scale(m: nat, e: int): nat
    decreases if e < 0 then -e else e
  {
    if e > 0 then Scale(10 * m, e - 1) else if e < 0 then Scale(m / 10, e + 1) else m
  }

  /** The double as valueint: cut towards zero and clamped to the range of int. */
  function Saturate(negative: bool, magnitude: nat): (n: int)
    ensures INT_MIN <= n <= INT_MAX
  {
    if negative then (if magnitude >= -INT_MIN then INT_MIN else -(magnitude as int))
    else if magnitude >= INT_MAX then INT_MAX
    else magnitude
  }

  /** strtod on the characters a number text can hold, without rounding: the length it accepts, zero if
      there is no number, and the value as an int. */
  function Strtod(s: string): (r: (nat, int))
    ensures r.0 <= |s|
    ensures INT_MIN <= r.1 <= INT_MAX
  {
    var start := if s != [] && (s[0] == '-' || s[0] == '+') then 1 else 0;
    var whole := DigitsEnd(s, start);
    var fraction := if At(s, whole) == '.' && whole < |s| then DigitsEnd(s, whole + 1) else whole;
    StrtodParts(s, start, whole, fraction)
  }

  /** The digits are found; the exponent moves the point. */
  function StrtodParts(s: string, start: nat, whole: nat, fraction: nat): (r: (nat, int))
    requires start <= whole <= fraction <= |s| && (forall i :: start <= i < whole ==> IsDigit(s[i]))
    requires forall i :: whole < i < fraction ==> IsDigit(s[i])
    ensures r.0 <= |s|
    ensures INT_MIN <= r.1 <= INT_MAX
  {
    var digits := Mantissa(s, start, whole, fraction);
    if digits == [] then (0, 0)
    else
      var scale := if whole < fraction then fraction - whole - 1 else 0;
      var (end, exponent) := Exponent(s, fraction);
      (end, Saturate(s[0] == '-', Scale(DigitsValue(digits), exponent - scale)))
  }

  /** The digits in front of the point and behind it. */
  function Mantissa(s: string, start: nat, whole: nat, fraction: nat): (r: string)
    requires start <= whole <= fraction <= |s| && (forall i :: start <= i < whole ==> IsDigit(s[i]))
    requires forall i :: whole < i < fraction ==> IsDigit(s[i])
    ensures forall i :: 0 <= i < |r| ==> '0' <= r[i] <= '9'
  {
    if whole < fraction then Digits(s, start, whole) + Digits(s, whole + 1, fraction) else Digits(s, start, whole)
  }

  /** A run of digits. */
  function Digits(s: string, a: nat, b: nat): (r: string)
    requires a <= b <= |s| && forall i :: a <= i < b ==> IsDigit(s[i])
    ensures forall i :: 0 <= i < |r| ==> '0' <= r[i] <= '9'
  {
    var r := s[a..b];
    assert forall i :: 0 <= i < |r| ==> r[i] == s[a + i] && IsDigit(s[a + i]);
    r
  }

  /** An exponent counts only with at least one digit. */
  function Exponent(s: string, p: nat): (r: (nat, int))
    requires p <= |s|
    ensures p <= r.0 <= |s|
  {
    if p == |s| || (s[p] != 'e' && s[p] != 'E') then (p, 0)
    else
      var start := if At(s, p + 1) == '-' || At(s, p + 1) == '+' then p + 2 else p + 1;
      if start > |s| then (p, 0)
      else
        var end := DigitsEnd(s, start);
        if end == start then (p, 0)
        else
          var n: int := DigitsValue(Digits(s, start, end));
          (end, if At(s, p + 1) == '-' then -n else n)
  }

  function ParseNumber(c: string, length: nat, offset: nat): (r: Parsed<Value>)
    requires offset <= length <= |c|
    ensures r.Parsed? ==> offset < r.offset <= length
  {
    var (n, d) := Strtod(NumberText(c, length, offset, 63));
    if n == 0 then Failed else Parsed(Number(d), offset + n)
  }

  // Strings

  function ParseString(c: string, length: nat, offset: nat): (r: Parsed<string>)
    requires offset < |c| && offset <= length <= |c|
    ensures r.Parsed? ==> offset < r.offset <= length
  {
    if c[offset] != '\"' || offset + 1 > length then Failed
    else
      match StringEnd(c, length, offset + 1)
      case None => Failed
      case Some(end) =>
        match Decode(c, offset + 1, end)
        case None => Failed
        case Some(s) => Parsed(UntilNul(s), end + 1)
  }

  // Literals

  /** strncmp of a literal with what can still be read. */
  predicate Literal(c: string, length: nat, p: nat, s: string)
    requires p <= length <= |c|
    decreases |s|
  {
    s == [] || (p < length && c[p] == s[0] && Literal(c, length, p + 1, s[1..]))
  }

  /** The branches of parse_value that do not recurse. */
  function ParseScalar(c: string, length: nat, offset: nat): (r: Parsed<Value>)
    requires Readable(c, length) && offset <= length
    ensures r.Parsed? ==> offset < r.offset <= length
  {
    if Literal(c, length, offset, "null") then Parsed(Null, LiteralEnd(c, length, offset, "null"))
    else if Literal(c, length, offset, "false") then Parsed(False, LiteralEnd(c, length, offset, "false"))
    else if Literal(c, length, offset, "true") then Parsed(True, LiteralEnd(c, length, offset, "true"))
    else if offset == length then Failed
    else if c[offset] == '\"' then
      var r := ParseString(c, length, offset);
      if r.Parsed? then Parsed(String(r.value), r.offset) else Failed
    else if c[offset] == '-' || IsDigit(c[offset]) then ParseNumber(c, length, offset)
    else Failed
  }

  /** A literal that was read fits in the input. */
  function LiteralEnd(c: string, length: nat, p: nat, s: string): (r: nat)
    requires p <= length <= |c| && Literal(c, length, p, s)
    ensures r == p + |s| <= length
    decreases |s|
  {
    if s == [] then p else LiteralEnd(c, length, p + 1, s[1..])
  }
}
