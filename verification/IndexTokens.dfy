/** Which tokens are taken for array indices, and for which. */
module IndexTokens {
  import opened CText
  import opened Options
  import opened Pointer

  /** What stands in front of the next slash. */
  function TokenOf(p: string): (token: string)
    ensures |token| <= |p| && p == token + SkipToken(p)
    ensures forall i :: 0 <= i < |token| ==> token[i] != '/'
  {
    if p == [] || p[0] == '/' then []
    else
      assert p == [p[0]] + p[1..];
      [p[0]] + TokenOf(p[1..])
  }

  /** No character below '0'. */
  predicate NoneBelowZero(s: string) {
    forall i :: 0 <= i < |s| ==> s[i] >= '0'
  }

  /** The loop looks at the first character of the token where the current one was meant, so that only the
      first one must be at most '9'. The empty token is taken, too. */
  predicate Accepted(token: string) {
    NoneBelowZero(token) && (token != [] ==> token[0] <= '9') && (|token| > 1 ==> token[0] != '0')
  }

  /** Horner's rule, whatever the characters. */
  function Weight(s: string): nat
    requires NoneBelowZero(s)
  {
    if s == [] then 0 else 10 * Weight(s[..|s| - 1]) + (s[|s| - 1] as int - '0' as int)
  }

  lemma NextWeight(s: string, c: char)
    requires NoneBelowZero(s) && c >= '0'
    ensures Weight(s + [c]) == 10 * Weight(s) + (c as int - '0' as int)
  {
    var t := s + [c];
    assert t[..|t| - 1] == s && t[|t| - 1] == c;
  }

  /** Reducing early or late makes no difference. */
  lemma WrapOnce(w: nat, d: nat)
    ensures (10 * (w % SIZE_LIMIT) + d) % SIZE_LIMIT == (10 * w + d) % SIZE_LIMIT
  {
    var q := w / SIZE_LIMIT;
    assert 10 * w + d == (10 * (w % SIZE_LIMIT) + d) + SIZE_LIMIT * (10 * q);
  }

  lemma {:induction false} DigitsAreWeighed(p: string, position: nat, token: string)
    requires token != [] && token <= p && token[0] <= '9' && NoneBelowZero(token)
    requires |p| > |token| ==> p[|token|] < '0'
    requires position <= |token|
    ensures DecodeDigits(p, position, Weight(token[..position]) % SIZE_LIMIT) == (|token|, Weight(token) % SIZE_LIMIT)
    decreases |token| - position
  {
    var s := token[..position];
    if position == |token| {
      assert s == token;
    } else {
      assert p[position] == token[position] && p[0] == token[0];
      assert token[..position + 1] == s + [token[position]];
      NextWeight(s, token[position]);
      WrapOnce(Weight(s), token[position] as int - '0' as int);
      DigitsAreWeighed(p, position + 1, token);
    }
  }

  /** The part of the token that the loop reads when it stops inside. */
  lemma StopsInside(token: string) returns (k: nat)
    requires !NoneBelowZero(token)
    ensures k < |token| && token[k] < '0' && NoneBelowZero(token[..k])
  {
    k := 0;
    while token[k] >= '0'
      invariant k < |token| && NoneBelowZero(token[..k]) && !NoneBelowZero(token[k..])
      decreases |token| - k
    {
      assert token[..k + 1] == token[..k] + [token[k]];
      assert token[k..][1..] == token[k + 1..];
      k := k + 1;
    }
  }

  /** A token is accepted exactly when no character is below '0', the first one is a digit, and a leading zero
      stands alone; its value is its weight in size_t. */
  lemma DecodesAccepted(p: string)
    requires NulFree(p)
    ensures DecodeIndex(p).Some? <==> Accepted(TokenOf(p))
    ensures DecodeIndex(p).Some? ==> DecodeIndex(p).value == Weight(TokenOf(p)) % SIZE_LIMIT
  {
    var token := TokenOf(p);
    if token == [] {
      EmptyIsZero(p);
    } else {
      FirstCharacters(p);
      if token[0] > '9' || token[0] < '0' {
        assert DecodeDigits(p, 0, 0) == (0, 0);
      } else if NoneBelowZero(token) {
        assert token[..0] == [];
        DigitsAreWeighed(p, 0, token);
      } else {
        StopIsRefused(p);
      }
    }
  }

  lemma FirstCharacters(p: string)
    requires TokenOf(p) != [] && NulFree(p)
    ensures p != [] && At(p, 0) == p[0] == TokenOf(p)[0] && p[0] != '/' && TokenOf(p) <= p
    ensures At(p, 1) != NUL && At(p, 1) != '/' <==> |TokenOf(p)| > 1
    ensures |p| > |TokenOf(p)| ==> p[|TokenOf(p)|] == '/'
  {
    var token, rest := TokenOf(p), SkipToken(p);
    assert |token| > 1 ==> p[1] == token[1];
    assert rest != [] ==> p[|token|] == '/';
  }

  /** A character below '0' that does not end the token. */
  lemma StopIsRefused(p: string)
    requires !NoneBelowZero(TokenOf(p)) && '0' <= TokenOf(p)[0] <= '9'
    ensures DecodeIndex(p) == None
  {
    var token := TokenOf(p);
    var k := StopsInside(token);
    var read := token[..k];
    assert read <= p && p[k] == token[k] && read[0] == token[0] && read[..0] == [];
    DigitsAreWeighed(p, 0, read);
  }

  lemma EmptyIsZero(p: string)
    requires TokenOf(p) == []
    ensures DecodeIndex(p) == Some(0)
  {
    assert p == [] + SkipToken(p);
    if p != [] { assert DecodeDigits(p, 0, 0) == (0, 0); }
  }

  predicate AllDigits(s: string) {
    forall i :: 0 <= i < |s| ==> '0' <= s[i] <= '9'
  }

  /** An accepted text of digits is the text of its weight. */
  lemma {:induction false} WeightIsPrinted(s: string)
    requires s != [] && AllDigits(s) && Accepted(s)
    ensures IndexText(Weight(s)) == s
    ensures s[0] != '0' ==> Weight(s) > 0
  {
    var init := s[..|s| - 1];
    if init == [] {
      assert Weight(init) == 0;
    } else {
      WeightIsPrinted(init);
      assert s == init + [s[|s| - 1]];
      assert Weight(s) / 10 == Weight(init);
    }
  }

  /** The value that is read is the number that the token stands for exactly when all characters are digits;
      the other accepted tokens stand for no number at all. */
  lemma AcceptedIsDecimal(p: string)
    requires NulFree(p) && Accepted(TokenOf(p))
    ensures var token := TokenOf(p);
      (exists n: nat {:trigger IndexText(n)} :: IndexText(n) == token && DecodeIndex(p) == Some(n % SIZE_LIMIT))
      <==> token != [] && AllDigits(token)
  {
    var token := TokenOf(p);
    DecodesAccepted(p);
    if token != [] && AllDigits(token) {
      WeightIsPrinted(token);
    } else if n: nat :| IndexText(n) == token {
      IndexTextIsDigits(n);
      assert false;
    }
  }

  /** "1a" is taken for 59. */
  lemma LetterIsRead()
    ensures DecodeIndex("1a") == Some(59)
  {
    assert DecodeDigits("1a", 2, 59) == (2, 59);
    assert DecodeDigits("1a", 1, 1) == (2, 59);
    assert DecodeDigits("1a", 0, 0) == (2, 59);
  }
}
