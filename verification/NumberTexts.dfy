/** Number literals as section 6 of RFC 8259 has them, and the int that each one is read as. */
module NumberTexts {
  import opened CText
  import opened Json
  import opened Options
  import opened IndexTokens
  import opened Pointer
  import opened Rendering
  import opened Unescaping
  import opened Scanning
  import opened ParsePrinted

  datatype ExponentForm = ExponentForm(letter: char, sign: string, digits: string)

  /** The parts of a number. Besides the numbers of the standard there are some that the engine reads, too: with
      leading zeros, or without digits on one side of the point. */
  datatype NumberForm =
    NumberForm(minus: bool, whole: string, fraction: Option<string>, exponent: Option<ExponentForm>)

  predicate ExponentFits(e: ExponentForm) {
    (e.letter == 'e' || e.letter == 'E') && (e.sign == [] || e.sign == "+" || e.sign == "-")
    && e.digits != [] && AllDigits(e.digits)
  }

  predicate FormFits(f: NumberForm) {
    && AllDigits(f.whole) && AllDigits(FractionDigits(f)) && f.whole + FractionDigits(f) != []
    && (f.whole == [] ==> f.minus)
    && (f.exponent.Some? ==> ExponentFits(f.exponent.value))
  }

  function MinusText(minus: bool): string {
    if minus then "-" else []
  }

  function FractionText(fraction: Option<string>): string {
    if fraction.Some? then "." + fraction.value else []
  }

  function ExponentText(exponent: Option<ExponentForm>): string {
    if exponent.Some? then [exponent.value.letter] + exponent.value.sign + exponent.value.digits else []
  }

  function FormText(f: NumberForm): string {
    MinusText(f.minus) + f.whole + FractionText(f.fraction) + ExponentText(f.exponent)
  }

  // The value

  function FractionDigits(f: NumberForm): string {
    if f.fraction.Some? then f.fraction.value else []
  }

  /** All digits, with the point moved behind the last one. */
  function AllDigitsOf(f: NumberForm): (r: string)
    requires FormFits(f)
    ensures r != [] && AllDigits(r)
  {
    f.whole + FractionDigits(f)
  }

  function ExponentValue(e: Option<ExponentForm>): int
    requires e.Some? ==> ExponentFits(e.value)
  {
    if e.None? then 0
    else
      var n: int := DigitsValue(e.value.digits);
      if e.value.sign == "-" then -n else n
  }

  function ExponentOf(f: NumberForm): int
    requires FormFits(f)
  {
    ExponentValue(f.exponent)
  }

  /** Where the point stands behind that. */
  function PointShift(f: NumberForm): int
    requires FormFits(f)
  {
    ExponentOf(f) - |FractionDigits(f)|
  }

  /** A number with its point moved, cut to a whole one. */
  function Shifted(d: nat, shift: int): nat {
    if shift >= 0 then Times(d, Pow10(shift)) else Over(d, Pow10(-shift))
  }

  function Times(d: nat, p: nat): nat {
    d * p
  }

  function Over(d: nat, p: nat): nat
    requires p > 0
  {
    d / p
  }

  /** The number without its sign, cut to a whole one. */
  function WholePart(f: NumberForm): nat
    requires FormFits(f)
  {
    Shifted(DigitsValue(AllDigitsOf(f)), PointShift(f))
  }

  /** The nearest int. */
  function Nearest(n: int): (r: int)
    ensures INT_MIN <= r <= INT_MAX
    ensures INT_MIN <= n <= INT_MAX ==> r == n
  {
    if n < INT_MIN then INT_MIN else if n > INT_MAX then INT_MAX else n
  }

  function Signed(minus: bool, n: nat): int {
    if minus then -(n as int) else n
  }

  function IntOf(f: NumberForm): int
    requires FormFits(f)
  {
    Nearest(Signed(f.minus, WholePart(f)))
  }

  // What strtod reads

  /** Dividing by ten k times is dividing by its power. */
  lemma {:induction false} ScaleIsPower(m: nat, e: int)
    ensures e >= 0 ==> Scale(m, e) == m * Pow10(e)
    ensures e < 0 ==> Scale(m, e) == m / Pow10(-e)
    decreases if e < 0 then -e else e
  {
    if e > 0 {
      ScaleIsPower(10 * m, e - 1);
      MovesFactor(m, Pow10(e - 1));
    } else if e < 0 {
      ScaleIsPower(m / 10, e + 1);
      DividesTwice(m, Pow10(-e - 1));
    }
  }

  lemma {:induction false} MovesFactor(m: nat, p: nat)
    ensures (10 * m) * p == m * (10 * p)
  {
  }

  lemma {:induction false} DividesTwice(m: nat, p: nat)
    requires p > 0
    ensures m / 10 / p == m / (10 * p)
  {
    var q := m / 10 / p;
    var r, d := m / 10 % p, m % 10;
    assert m / 10 == p * q + r;
    assert m == (10 * p) * q + (10 * r + d);
    QuotientIs(m, 10 * p, q, 10 * r + d);
  }

  lemma {:induction false} ProductGrows(p: nat, a: nat, b: nat)
    requires a < b
    ensures p * a + p <= p * b
    decreases b
  {
    if a + 1 < b { ProductGrows(p, a, b - 1); }
    assert p * b == p * (b - 1) + p;
  }

  lemma {:induction false} QuotientIs(m: nat, p: nat, q: nat, r: nat)
    requires p > 0 && m == p * q + r && r < p
    ensures m / p == q
  {
    var k, x := m / p, m % p;
    assert m == p * k + x;
    if k < q { ProductGrows(p, k, q); }
    if k > q { ProductGrows(p, q, k); }
  }

  lemma {:induction false} SaturateIsNearest(negative: bool, magnitude: nat)
    ensures Saturate(negative, magnitude) == Nearest(if negative then -(magnitude as int) else magnitude)
  {
  }

  lemma {:induction false} DigitsEndAt(s: string, a: nat, b: nat)
    requires a <= b <= |s| && (forall i :: a <= i < b ==> IsDigit(s[i])) && (b < |s| ==> !IsDigit(s[b]))
    ensures DigitsEnd(s, a) == b
    decreases b - a
  {
    if a < b { DigitsEndAt(s, a + 1, b); }
  }

  /** A text of digits stands between a and b. */
  predicate DigitsStand(s: string, a: nat, b: nat, digits: string) {
    a <= b <= |s| && s[a..b] == digits && AllDigits(digits)
  }

  lemma {:induction false} DigitsAreRead(s: string, a: nat, b: nat, digits: string)
    requires DigitsStand(s, a, b, digits) && (b < |s| ==> !IsDigit(s[b]))
    ensures DigitsEnd(s, a) == b && Digits(s, a, b) == digits
  {
    forall i | a <= i < b ensures IsDigit(s[i]) { assert s[i] == digits[i - a]; }
    DigitsEndAt(s, a, b);
  }

  /** Where the parts of a number stand. */
  ghost predicate PartsStand(f: NumberForm, s: string, start: nat, w: nat, q: nat) {
    && FormFits(f) && start == (if f.minus then 1 else 0) && start <= w <= q <= |s|
    && (f.minus ==> s[0] == '-')
    && DigitsStand(s, start, w, f.whole)
    && s[w..q] == FractionText(f.fraction)
    && s[q..] == ExponentText(f.exponent)
  }

  lemma {:induction false} FormIsSplit(f: NumberForm) returns (start: nat, w: nat, q: nat)
    requires FormFits(f)
    ensures PartsStand(f, FormText(f), start, w, q)
  {
    var a, b, d, e := MinusText(f.minus), f.whole, FractionText(f.fraction), ExponentText(f.exponent);
    start := |a|;
    w := start + |b|;
    q := w + |d|;
    var s := FormText(f);
    assert s == a + b + d + e;
    assert s[start..w] == b && s[w..q] == d && s[q..] == e;
  }

  lemma {:induction false} FractionIsRead(f: NumberForm, s: string, start: nat, w: nat, q: nat)
    requires PartsStand(f, s, start, w, q)
    ensures DigitsEnd(s, start) == w
    ensures (if At(s, w) == '.' && w < |s| then DigitsEnd(s, w + 1) else w) == q
    ensures Mantissa(s, start, w, q) == AllDigitsOf(f)
    ensures (if w < q then q - w - 1 else 0) == |FractionDigits(f)|
  {
    WholeEnds(f, s, start, w, q);
    DigitsAreRead(s, start, w, f.whole);
    if f.fraction.Some? {
      var ds := f.fraction.value;
      assert s[w] == s[w..q][0] == '.';
      assert s[w + 1..q] == s[w..q][1..] == ds;
      FractionEnds(f, s, start, w, q);
      DigitsAreRead(s, w + 1, q, ds);
    } else {
      assert w == q;
      assert f.whole + [] == f.whole;
    }
  }

  lemma {:induction false} WholeEnds(f: NumberForm, s: string, start: nat, w: nat, q: nat)
    requires PartsStand(f, s, start, w, q)
    ensures w < |s| ==> !IsDigit(s[w])
    ensures f.fraction.None? && w < |s| ==> s[w] != '.'
  {
    if f.fraction.Some? {
      assert s[w] == s[w..q][0];
    } else {
      FractionEnds(f, s, start, w, q);
    }
  }

  lemma {:induction false} FractionEnds(f: NumberForm, s: string, start: nat, w: nat, q: nat)
    requires PartsStand(f, s, start, w, q)
    ensures q < |s| ==> s[q] == 'e' || s[q] == 'E'
  {
    if q < |s| { assert s[q] == s[q..][0]; }
  }

  lemma {:induction false} ExponentFrom(s: string, q: nat, from: nat, e: ExponentForm)
    requires ExponentFits(e) && q + 1 < |s| && s[q] == e.letter && from == q + 1 + |e.sign|
    requires DigitsStand(s, from, |s|, e.digits)
    requires if e.sign == [] then IsDigit(s[q + 1]) else s[q + 1] == e.sign[0]
    ensures Exponent(s, q)
         == (|s|, var n: int := DigitsValue(e.digits); if e.sign == "-" then -n else n)
  {
    DigitsAreRead(s, from, |s|, e.digits);
  }

  lemma {:induction false} ExponentStands(s: string, q: nat, e: ExponentForm)
    requires ExponentFits(e) && q <= |s| && s[q..] == [e.letter] + e.sign + e.digits
    ensures var from := q + 1 + |e.sign|;
      && q + 1 < |s| && s[q] == e.letter && DigitsStand(s, from, |s|, e.digits)
      && if e.sign == [] then IsDigit(s[q + 1]) else s[q + 1] == e.sign[0]
  {
    var t, from := s[q..], q + 1 + |e.sign|;
    assert s[q] == t[0] && s[q + 1] == t[1];
    assert s[from..|s|] == t[1 + |e.sign|..] == e.digits;
  }

  lemma {:induction false} ExponentIsRead(f: NumberForm, s: string, start: nat, w: nat, q: nat)
    requires PartsStand(f, s, start, w, q)
    ensures Exponent(s, q) == (|s|, ExponentOf(f))
  {
    if f.exponent.Some? {
      var e := f.exponent.value;
      ExponentStands(s, q, e);
      ExponentFrom(s, q, q + 1 + |e.sign|, e);
    } else {
      assert q == |s|;
    }
  }

  lemma {:induction false} StrtodFinds(s: string, start: nat, w: nat, q: nat)
    requires s != [] && start == if s[0] == '-' || s[0] == '+' then 1 else 0
    requires start <= w <= q <= |s| && DigitsEnd(s, start) == w
    requires (if At(s, w) == '.' && w < |s| then DigitsEnd(s, w + 1) else w) == q
    ensures Strtod(s) == StrtodParts(s, start, w, q)
  {
  }

  lemma {:induction false} StrtodFrom(
      s: string, start: nat, w: nat, q: nat, digits: string, end: nat, exponent: int, shift: nat)
    requires s != [] && start <= w <= q <= |s| && forall i :: start <= i < w ==> IsDigit(s[i])
    requires forall i :: w < i < q ==> IsDigit(s[i])
    requires Mantissa(s, start, w, q) == digits && digits != [] && AllDigits(digits)
    requires Exponent(s, q) == (end, exponent) && shift == if w < q then q - w - 1 else 0
    ensures StrtodParts(s, start, w, q) == (end, Saturate(s[0] == '-', Scale(DigitsValue(digits), exponent - shift)))
  {
  }

  lemma {:induction false} PartsAreFound(f: NumberForm, s: string, start: nat, w: nat, q: nat)
    requires PartsStand(f, s, start, w, q)
    ensures (forall i :: start <= i < w ==> IsDigit(s[i])) && (forall i :: w < i < q ==> IsDigit(s[i]))
    ensures Strtod(s) == StrtodParts(s, start, w, q)
  {
    FirstIsSign(f, s, start, w, q);
    FractionIsRead(f, s, start, w, q);
    StrtodFinds(s, start, w, q);
  }

  lemma {:induction false} PartsAreRead(f: NumberForm, s: string, start: nat, w: nat, q: nat)
    requires PartsStand(f, s, start, w, q)
    ensures Strtod(s) == (|s|, Saturate(f.minus, Scale(DigitsValue(AllDigitsOf(f)), PointShift(f))))
  {
    FirstIsSign(f, s, start, w, q);
    FractionIsRead(f, s, start, w, q);
    ExponentIsRead(f, s, start, w, q);
    PartsAreFound(f, s, start, w, q);
    StrtodFrom(s, start, w, q, AllDigitsOf(f), |s|, ExponentOf(f), |FractionDigits(f)|);
  }

  /** Every number is read whole, as the int that is nearest to it without its fraction. */
  lemma {:induction false} NumberIsRead(f: NumberForm)
    requires FormFits(f)
    ensures Strtod(FormText(f)) == (|FormText(f)|, IntOf(f))
  {
    var start, w, q := FormIsSplit(f);
    PartsAreRead(f, FormText(f), start, w, q);
    ValueIsRead(f);
  }

  lemma {:induction false} ValueIsRead(f: NumberForm)
    requires FormFits(f)
    ensures Saturate(f.minus, Scale(DigitsValue(AllDigitsOf(f)), PointShift(f))) == IntOf(f)
  {
    ScaleIsPower(DigitsValue(AllDigitsOf(f)), PointShift(f));
    SaturateIsNearest(f.minus, WholePart(f));
  }

  lemma {:induction false} FirstIsSign(f: NumberForm, s: string, start: nat, w: nat, q: nat)
    requires PartsStand(f, s, start, w, q)
    ensures s != [] && s[0] != '+' && (s[0] == '-' <==> f.minus) && (f.minus || IsDigit(s[0]))
  {
    if !f.minus { assert s[0] == s[start..w][0]; }
  }

  // What is read is a number

  /** The exponent that is read, if one is. */
  lemma {:induction false} ExponentIsForm(s: string, q: nat) returns (e: Option<ExponentForm>)
    requires q <= |s|
    ensures e.Some? ==> ExponentFits(e.value)
    ensures var (end, n) := Exponent(s, q);
      s[q..end] == ExponentText(e) && n == ExponentValue(e)
  {
    var end := Exponent(s, q).0;
    e := None;
    if end > q {
      var signed := At(s, q + 1) == '-' || At(s, q + 1) == '+';
      var from := if signed then q + 2 else q + 1;
      var digits := Digits(s, from, end);
      e := Some(ExponentForm(s[q], if signed then [s[q + 1]] else [], digits));
      assert s[q..end] == [s[q]] + e.value.sign + digits;
    }
  }

  /** Where the parts of a number are found in a text that starts as one. */
  ghost predicate PartsFound(f: NumberForm, s: string, start: nat, w: nat, q: nat) {
    && s != [] && start == (if s[0] == '-' then 1 else 0) && (s[0] == '-' || IsDigit(s[0]))
    && start <= w <= q <= |s| && DigitsEnd(s, start) == w
    && q == (if At(s, w) == '.' && w < |s| then DigitsEnd(s, w + 1) else w)
    && Mantissa(s, start, w, q) != []
    && f.minus == (s[0] == '-') && f.whole == s[start..w]
    && f.fraction == (if w < q then Some(s[w + 1..q]) else None)
    && (f.exponent.Some? ==> ExponentFits(f.exponent.value))
    && s[q..Exponent(s, q).0] == ExponentText(f.exponent)
    && Exponent(s, q).1 == ExponentValue(f.exponent)
  }

  lemma {:induction false} FoundDigits(f: NumberForm, s: string, start: nat, w: nat, q: nat)
    requires PartsFound(f, s, start, w, q)
    ensures AllDigits(f.whole) && AllDigits(FractionDigits(f)) && (f.whole == [] ==> f.minus)
    ensures f.whole + FractionDigits(f) == Mantissa(s, start, w, q)
    ensures (if w < q then q - w - 1 else 0) == |FractionDigits(f)|
  {
    assert f.whole == Digits(s, start, w);
    if w < q {
      assert f.fraction.value == Digits(s, w + 1, q);
    } else {
      assert f.whole + [] == f.whole;
    }
  }

  lemma {:induction false} FoundText(f: NumberForm, s: string, start: nat, w: nat, q: nat)
    requires PartsFound(f, s, start, w, q)
    ensures FormText(f) == s[..Exponent(s, q).0]
  {
    assert s[..start] == MinusText(f.minus);
    assert s[w..q] == FractionText(f.fraction) by {
      if w < q { assert s[w..q] == "." + s[w + 1..q]; }
    }
    FourSlices(s, start, w, q, Exponent(s, q).0);
  }

  lemma {:induction false} FourSlices(s: string, a: nat, b: nat, d: nat, e: nat)
    requires a <= b <= d <= e <= |s|
    ensures s[..e] == s[..a] + s[a..b] + s[b..d] + s[d..e]
  {
  }

  lemma {:induction false} FoundValue(f: NumberForm, s: string, start: nat, w: nat, q: nat)
    requires PartsFound(f, s, start, w, q) && FormFits(f)
    requires AllDigitsOf(f) == Mantissa(s, start, w, q)
    requires (if w < q then q - w - 1 else 0) == |FractionDigits(f)|
    ensures var m := Scale(DigitsValue(AllDigitsOf(f)), PointShift(f));
      Strtod(s) == (Exponent(s, q).0, Saturate(f.minus, m))
  {
    StrtodFinds(s, start, w, q);
    StrtodFrom(s, start, w, q, AllDigitsOf(f), Exponent(s, q).0, ExponentOf(f), |FractionDigits(f)|);
  }

  /** Whatever strtod reads of a text that starts as a number does is a number, and the value that of the number. */
  lemma {:induction false} StrtodIsForm(s: string) returns (f: NumberForm)
    requires s != [] && (s[0] == '-' || IsDigit(s[0])) && Strtod(s).0 > 0
    ensures FormFits(f) && FormText(f) == s[..Strtod(s).0] && IntOf(f) == Strtod(s).1
  {
    var start := if s[0] == '-' then 1 else 0;
    var w := DigitsEnd(s, start);
    var q := if At(s, w) == '.' && w < |s| then DigitsEnd(s, w + 1) else w;
    var e := ExponentIsForm(s, q);
    StrtodFinds(s, start, w, q);
    f := NumberForm(s[0] == '-', s[start..w], if w < q then Some(s[w + 1..q]) else None, e);
    assert PartsFound(f, s, start, w, q);
    FoundDigits(f, s, start, w, q);
    FoundText(f, s, start, w, q);
    FoundValue(f, s, start, w, q);
    ValueIsRead(f);
  }

  // In a text

  lemma {:induction false} JoinNumberChars(a: string, b: string)
    requires (forall i :: 0 <= i < |a| ==> NumberChar(a[i])) && (forall i :: 0 <= i < |b| ==> NumberChar(b[i]))
    ensures forall i :: 0 <= i < |a + b| ==> NumberChar((a + b)[i])
  {
  }

  lemma {:induction false} FormIsNumberChars(f: NumberForm)
    requires FormFits(f)
    ensures forall i :: 0 <= i < |FormText(f)| ==> NumberChar(FormText(f)[i])
    ensures FormText(f) != [] && (FormText(f)[0] == '-' || IsDigit(FormText(f)[0]))
  {
    var a, b, d, e := MinusText(f.minus), f.whole, FractionText(f.fraction), ExponentText(f.exponent);
    forall i | 0 <= i < |d| ensures NumberChar(d[i]) {
      if i > 0 { assert d[i] == f.fraction.value[i - 1]; }
    }
    ExponentIsNumberChars(f.exponent);
    JoinNumberChars(a, b);
    JoinNumberChars(a + b, d);
    JoinNumberChars(a + b + d, e);
    assert FormText(f)[0] == if f.minus then '-' else b[0];
  }

  lemma {:induction false} ExponentIsNumberChars(exponent: Option<ExponentForm>)
    requires exponent.Some? ==> ExponentFits(exponent.value)
    ensures forall i :: 0 <= i < |ExponentText(exponent)| ==> NumberChar(ExponentText(exponent)[i])
  {
    if exponent.Some? {
      var e := exponent.value;
      JoinNumberChars([e.letter], e.sign);
      JoinNumberChars([e.letter] + e.sign, e.digits);
    }
  }

  /** The longest number that the buffer of 64 characters holds. */
  const LONGEST_NUMBER: nat := 63

  lemma {:induction false} NumberTextIsShort(c: string, length: nat, p: nat, room: nat)
    requires p <= length <= |c|
    ensures |NumberText(c, length, p, room)| <= room
    decreases length - p
  {
    if room != 0 && p != length && NumberChar(c[p]) { NumberTextIsShort(c, length, p + 1, room - 1); }
  }

  /** In front of a character that belongs to no number, a number is parsed whole exactly when it has at most 63
      characters; a longer one is cut. */
  lemma {:induction false} NumberParsesExactly(c: string, length: nat, p: nat, f: NumberForm)
    requires FormFits(f) && TextAt(c, p, FormText(f)) && p + |FormText(f)| < length <= |c|
    requires !NumberChar(c[p + |FormText(f)|])
    ensures var end := p + |FormText(f)|;
      ParseNumber(c, length, p) == Parsed(Number(IntOf(f)), end) <==> |FormText(f)| <= LONGEST_NUMBER
  {
    FormIsNumberChars(f);
    NumberTextIsShort(c, length, p, LONGEST_NUMBER);
    if |FormText(f)| <= LONGEST_NUMBER {
      NumberTextIs(c, length, p, FormText(f), LONGEST_NUMBER);
      NumberIsRead(f);
    }
  }
}
