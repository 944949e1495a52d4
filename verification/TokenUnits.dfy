/** What decoding the last token of a pointer in place leaves in the buffer, for every token. */
module TokenUnits {
  import opened CText
  import opened Patch

  /** What a token is read by: a character, or an escape of two characters. */
  datatype Unit = Letter(c: char) | Tilde | Slash

  predicate Readable(us: seq<Unit>) {
    forall i :: 0 <= i < |us| && us[i].Letter? ==> us[i].c != '~'
  }

  function UnitText(u: Unit): string {
    match u
    case Letter(c) => [c]
    case Tilde => "~0"
    case Slash => "~1"
  }

  function UnitsText(us: seq<Unit>): string {
    if us == [] then [] else UnitText(us[0]) + UnitsText(us[1..])
  }

  /** Where reading stops: at the end, or at a tilde with neither '0' nor '1' behind it. */
  predicate Stops(rest: string) {
    rest == [] || (rest[0] == '~' && !(|rest| > 1 && (rest[1] == '0' || rest[1] == '1')))
  }

  /** Every token is read as some units, up to a place where reading stops. */
  lemma {:induction false} TokenIsUnits(s: string) returns (us: seq<Unit>, rest: string)
    ensures Readable(us) && Stops(rest) && s == UnitsText(us) + rest
  {
    if Stops(s) {
      us, rest := [], s;
    } else {
      var u := if s[0] != '~' then Letter(s[0]) else if s[1] == '0' then Tilde else Slash;
      var others;
      others, rest := TokenIsUnits(s[|UnitText(u)|..]);
      us := [u] + others;
      assert us[1..] == others;
      assert s == UnitText(u) + s[|UnitText(u)|..];
    }
  }

  /** Place k behind d holds a tilde for a tilde, a slash one place behind its escape, and else what it held. */
  function Shown(buffer: string, d: nat, us: seq<Unit>, k: nat): char
    requires d + k < |buffer|
  {
    if k < |us| && us[k].Tilde? then '~'
    else if 0 < k <= |us| && us[k - 1].Slash? then '/'
    else buffer[d + k]
  }

  /** The text r is what the buffer shows from d on. */
  ghost predicate Shows(buffer: string, r: string, d: nat, us: seq<Unit>, rest: string) {
    && d <= |r| <= |buffer| && r[..d] == buffer[..d]
    && |r| == (if rest == [] then d + |us| else |buffer|)
    && forall k: nat {:trigger Shown(buffer, d, us, k)} :: d + k < |r| ==> r[d + k] == Shown(buffer, d, us, k)
  }

  /** One unit is read, and its place written. */
  function AfterUnit(buffer: string, d: nat, u: Unit): string
    requires d + |UnitText(u)| <= |buffer|
  {
    match u
    case Letter(_) => buffer
    case Tilde => buffer[d := '~']
    case Slash => buffer[d + 1 := '/']
  }

  lemma {:induction false} FirstShown(
      buffer: string, other: string, r: string, d: nat, next: nat, us: seq<Unit>, rest: string)
    requires us != [] && d + |UnitText(us[0])| <= |buffer| && other == AfterUnit(buffer, d, us[0])
    requires next == d + 1 && Shows(other, r, next, us[1..], rest)
    ensures Shows(buffer, r, d, us, rest)
  {
    assert r[..d] == r[..next][..d] == other[..next][..d] == buffer[..d];
    assert r[d] == r[..next][d] == other[d];
    forall k: nat | d + k < |r| ensures r[d + k] == Shown(buffer, d, us, k) {
      if k > 0 { assert r[next + (k - 1)] == Shown(other, next, us[1..], k - 1); }
    }
  }

  lemma {:induction false} UnitHead(buffer: string, i: nat, us: seq<Unit>, rest: string)
    requires us != [] && i <= |buffer| && buffer[i..] == UnitsText(us) + rest
    ensures var u := UnitText(us[0]);
      i + |u| <= |buffer| && buffer[i] == u[0] && (|u| == 2 ==> buffer[i + 1] == u[1])
      && buffer[i + |u|..] == UnitsText(us[1..]) + rest
  {
    var u, s := UnitText(us[0]), buffer[i..];
    assert s == u + (UnitsText(us[1..]) + rest);
    assert s[0] == u[0] && (|u| == 2 ==> s[1] == u[1]);
    assert buffer[i + |u|..] == s[|u|..];
  }

  lemma {:induction false} UnitIsDecoded(buffer: string, d: nat, i: nat, next: nat, u: Unit)
    requires d <= i && next == i + |UnitText(u)| <= |buffer| && (u.Letter? ==> u.c != '~')
    requires buffer[i] == UnitText(u)[0] && (!u.Letter? ==> buffer[i + 1] == UnitText(u)[1])
    ensures DecodeFrom(buffer, d, i) == DecodeFrom(AfterUnit(buffer, d, u), d + 1, next)
  {
    match u
    case Letter(_) =>
    case Tilde => assert At(buffer, i + 1) == '0';
    case Slash => assert At(buffer, i + 1) == '1';
  }

  lemma {:induction false} UnitIsRead(buffer: string, d: nat, i: nat, next: nat, us: seq<Unit>, rest: string)
    requires d <= i <= |buffer| && us != [] && Readable(us) && buffer[i..] == UnitsText(us) + rest
    requires next == i + |UnitText(us[0])|
    ensures d < next <= |buffer|
    ensures var other := AfterUnit(buffer, d, us[0]);
      && |other| == |buffer| && DecodeFrom(buffer, d, i) == DecodeFrom(other, d + 1, next)
      && other[next..] == UnitsText(us[1..]) + rest
  {
    UnitHead(buffer, i, us, rest);
    UnitIsDecoded(buffer, d, i, next, us[0]);
    assert AfterUnit(buffer, d, us[0])[next..] == buffer[next..];
  }

  lemma {:induction false} ReadingStops(buffer: string, d: nat, i: nat, rest: string)
    requires d <= i <= |buffer| && buffer[i..] == rest && Stops(rest)
    ensures Shows(buffer, DecodeFrom(buffer, d, i), d, [], rest)
  {
    if rest != [] { assert buffer[i] == rest[0] && (|rest| > 1 ==> buffer[i + 1] == rest[1]); }
  }

  lemma {:induction false} UnitsAreShown(buffer: string, d: nat, i: nat, us: seq<Unit>, rest: string)
    requires d <= i <= |buffer| && buffer[i..] == UnitsText(us) + rest && Readable(us) && Stops(rest)
    ensures Shows(buffer, DecodeFrom(buffer, d, i), d, us, rest)
    decreases |us|
  {
    if us == [] {
      ReadingStops(buffer, d, i, rest);
    } else {
      var next := i + |UnitText(us[0])|;
      UnitIsRead(buffer, d, i, next, us, rest);
      var other := AfterUnit(buffer, d, us[0]);
      UnitsAreShown(other, d + 1, next, us[1..], rest);
      FirstShown(buffer, other, DecodeFrom(other, d + 1, next), d, d + 1, us, rest);
    }
  }

  /** What is left of any token. When reading comes to the end the text is as long as there were units; at a bad
      escape it keeps its length. A tilde stands in the place of its unit, a slash one place behind, and no
      other character has been moved. */
  lemma {:induction false} DecodedInPlace(us: seq<Unit>, rest: string)
    requires Readable(us) && Stops(rest)
    ensures var s := UnitsText(us) + rest;
      var r := DecodeInPlace(s);
      && |r| == (if rest == [] then |us| else |s|) <= |s|
      && forall k: nat {:trigger Shown(s, 0, us, k)} :: k < |r| ==> r[k] == Shown(s, 0, us, k)
  {
    var s := UnitsText(us) + rest;
    assert s[0..] == s;
    UnitsAreShown(s, 0, 0, us, rest);
    forall k: nat | k < |DecodeInPlace(s)| ensures DecodeInPlace(s)[k] == Shown(s, 0, us, k) {
      assert DecodeInPlace(s)[0 + k] == Shown(s, 0, us, k);
    }
  }
}
