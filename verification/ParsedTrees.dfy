/** What the parser hands out. */
module ParsedTrees {
  // Trees nested at most 1000 deep that print and parse back to themselves.

  import opened CText
  import opened Json
  import opened Equality
  import opened Rendering
  import opened Unescaping
  import opened Scanning
  import opened Parsing
  import opened ParsePrinted

  /** The lexical layer only hands out C strings, and no nesting. */
  ghost predicate CleanLayer(b: Input) {
    && Sound(b)
    && (forall p: nat :: b.scalar(p).Parsed? ==> Clean(b.scalar(p).value) && Height(b.scalar(p).value) == 0)
    && (forall p: nat :: b.quoted(p).Parsed? ==> NulFree(b.quoted(p).value))
  }

  lemma {:induction false} UntilNulIsNulFree(s: string)
    ensures NulFree(UntilNul(s))
  {
    if s != [] && s[0] != NUL { UntilNulIsNulFree(s[1..]); }
  }

  lemma StringIsNulFree(c: string, length: nat, p: nat)
    requires p < |c| && p <= length <= |c| && ParseString(c, length, p).Parsed?
    ensures NulFree(ParseString(c, length, p).value)
  {
    var end := StringEnd(c, length, p + 1).value;
    UntilNulIsNulFree(Decode(c, p + 1, end).value);
  }

  lemma ScalarIsClean(c: string, length: nat, p: nat)
    requires Readable(c, length) && p <= length && ParseScalar(c, length, p).Parsed?
    ensures Clean(ParseScalar(c, length, p).value) && Height(ParseScalar(c, length, p).value) == 0
  {
    if p < length && c[p] == '\"' && ParseString(c, length, p).Parsed? { StringIsNulFree(c, length, p); }
  }

  lemma InputIsClean(c: string, length: nat)
    requires Readable(c, length)
    ensures CleanLayer(InputOf(c, length))
  {
    var b := InputOf(c, length);
    forall p: nat | b.scalar(p).Parsed? ensures Clean(b.scalar(p).value) && Height(b.scalar(p).value) == 0 {
      ScalarIsClean(c, length, p);
    }
    forall p: nat | b.quoted(p).Parsed? ensures NulFree(b.quoted(p).value) {
      StringIsNulFree(c, length, p);
    }
  }

  /** Whatever is read is nested no deeper than the limit leaves room for. */
  lemma {:induction false} ValueIsClean(b: Input, p: nat, depth: nat)
    requires CleanLayer(b) && p <= b.length && depth <= NESTING_LIMIT && ParseValue(b, p, depth).Parsed?
    ensures Clean(ParseValue(b, p, depth).value)
    ensures depth + Height(ParseValue(b, p, depth).value) <= NESTING_LIMIT
    decreases b.length - p, 0
  {
    if p < b.length && b.c[p] == '[' {
      ArrayIsClean(b, p, depth);
    } else if p < b.length && b.c[p] == '{' {
      ObjectIsClean(b, p, depth);
    }
  }

  lemma {:induction false} ArrayIsClean(b: Input, p: nat, depth: nat)
    requires CleanLayer(b) && p < b.length && depth <= NESTING_LIMIT && ParseArray(b, p, depth).Parsed?
    ensures Clean(ParseArray(b, p, depth).value)
    ensures depth + Height(ParseArray(b, p, depth).value) <= NESTING_LIMIT
    decreases b.length - p - 1, 3
  {
    var q := Skip(b, p + 1);
    if b.c[q] != ']' { ElementsAreClean(b, q, depth + 1); }
  }

  lemma {:induction false} ElementsAreClean(b: Input, p: nat, depth: nat)
    requires CleanLayer(b) && p <= b.length && depth <= NESTING_LIMIT && ParseElements(b, p, depth).Parsed?
    ensures CleanItems(ParseElements(b, p, depth).value)
    ensures depth + ItemsHeight(ParseElements(b, p, depth).value) <= NESTING_LIMIT
    decreases b.length - p, 1
  {
    ValueIsClean(b, Skip(b, p), depth);
    var v := ParseValue(b, Skip(b, p), depth);
    var q := Skip(b, v.offset);
    if b.c[q] == ',' {
      ElementsAreClean(b, q + 1, depth);
      ElementInFront(v.value, ParseElements(b, q + 1, depth).value);
    } else {
      ElementInFront(v.value, []);
      assert [v.value] + [] == [v.value];
    }
  }

  lemma ElementInFront(v: Value, rest: seq<Value>)
    requires Clean(v) && CleanItems(rest)
    ensures CleanItems([v] + rest)
    ensures ItemsHeight([v] + rest) == if Height(v) > ItemsHeight(rest) then Height(v) else ItemsHeight(rest)
  {
    assert ([v] + rest)[1..] == rest;
  }

  lemma {:induction false} ObjectIsClean(b: Input, p: nat, depth: nat)
    requires CleanLayer(b) && p < b.length && depth <= NESTING_LIMIT && ParseObject(b, p, depth).Parsed?
    ensures Clean(ParseObject(b, p, depth).value)
    ensures depth + Height(ParseObject(b, p, depth).value) <= NESTING_LIMIT
    decreases b.length - p - 1, 3
  {
    var q := Skip(b, p + 1);
    if b.c[q] == '}' {
      assert ParseObject(b, p, depth).value == Object([]);
    } else {
      MembersAreRead(b, q, depth + 1);
      assert ParseObject(b, p, depth).value == Object(ParseMembers(b, q, depth + 1).value);
    }
  }

  lemma {:induction false} MembersAreRead(b: Input, p: nat, depth: nat)
    requires CleanLayer(b) && p <= b.length && depth <= NESTING_LIMIT && ParseMembers(b, p, depth).Parsed?
    ensures CleanMembers(ParseMembers(b, p, depth).value)
    ensures depth + MembersHeight(ParseMembers(b, p, depth).value) <= NESTING_LIMIT
    decreases b.length - p, 2
  {
    MemberIsClean(b, p, depth);
    var e := ParseMember(b, p, depth);
    var q := Skip(b, e.offset);
    if b.c[q] == ',' {
      MembersAreRead(b, q + 1, depth);
      MemberInFront(e.value, ParseMembers(b, q + 1, depth).value);
    } else {
      MemberInFront(e.value, []);
      assert [e.value] + [] == [e.value];
    }
  }

  lemma {:induction false} MemberIsClean(b: Input, p: nat, depth: nat)
    requires CleanLayer(b) && p <= b.length && depth <= NESTING_LIMIT && ParseMember(b, p, depth).Parsed?
    ensures var e := ParseMember(b, p, depth).value;
      NulFree(e.key) && Clean(e.value) && depth + Height(e.value) <= NESTING_LIMIT
    decreases b.length - p, 1
  {
    var key := b.quoted(Skip(b, p));
    var q := Skip(b, key.offset);
    ValueIsClean(b, Skip(b, q + 1), depth);
  }

  lemma MemberInFront(e: Entry<Value>, rest: seq<Entry<Value>>)
    requires NulFree(e.key) && Clean(e.value) && CleanMembers(rest)
    ensures CleanMembers([e] + rest)
    ensures MembersHeight([e] + rest)
         == if Height(e.value) > MembersHeight(rest) then Height(e.value) else MembersHeight(rest)
  {
    assert ([e] + rest)[1..] == rest;
  }

  /** Whatever text was parsed, also one full of blanks, escapes or bad hex digits: printing the tree,
      formatted or not, and parsing that text gives the same tree. */
  lemma ParsedTreesPrintAndParse(c: string, length: nat, terminated: bool, format: bool, again: bool)
    requires Readable(c, length) && ParseText(c, length, terminated).Parsed?
    ensures var v := ParseText(c, length, terminated).value;
      var r := Render(v, format, 0);
      && Height(v) <= NESTING_LIMIT
      && ParseText(r + [NUL], |r| + 1, again) == Parsed(v, |r|)
  {
    ParsedIsClean(c, length, terminated);
    ParseUndoesCleanPrint(ParseText(c, length, terminated).value, format, again);
  }

  lemma ParsedIsClean(c: string, length: nat, terminated: bool)
    requires Readable(c, length) && ParseText(c, length, terminated).Parsed?
    ensures var v := ParseText(c, length, terminated).value;
      Clean(v) && Height(v) <= NESTING_LIMIT
  {
    var b := InputOf(c, length);
    InputIsClean(c, length);
    ValueIsClean(b, Skip(b, SkipBom(c, length)), 0);
  }
}
