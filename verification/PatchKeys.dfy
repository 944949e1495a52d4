/** Which keys a JSON Patch can name as the last token of a path. */
module PatchKeys {
  import opened CText
  import opened Json
  import opened Options
  import opened MergeSort
  import opened Equality
  import opened Pointer
  import opened Patch
  import opened PatchRoundTrip
  import opened KeySets
  import opened Sequences

  // Decoding in place

  /** What is in front of the write position stays. */
  lemma {:induction false} DecodeKeepsFront(buffer: string, d: nat, i: nat)
    requires d <= i <= |buffer|
    ensures d <= |DecodeFrom(buffer, d, i)| <= |buffer|
    ensures DecodeFrom(buffer, d, i)[..d] == buffer[..d]
    decreases |buffer| - i
  {
    if i < |buffer| {
      if buffer[i] != '~' {
        DecodeKeepsFront(buffer, d + 1, i + 1);
        Shorter(DecodeFrom(buffer, d + 1, i + 1), buffer, d);
      } else if At(buffer, i + 1) == '0' && i + 1 < |buffer| {
        DecodeKeepsFront(buffer[d := '~'], d + 1, i + 2);
        Shorter(DecodeFrom(buffer[d := '~'], d + 1, i + 2), buffer[d := '~'], d);
        assert buffer[d := '~'][..d] == buffer[..d];
      } else if At(buffer, i + 1) == '1' && i + 1 < |buffer| {
        DecodeKeepsFront(buffer[d + 1 := '/'], d + 1, i + 2);
        Shorter(DecodeFrom(buffer[d + 1 := '/'], d + 1, i + 2), buffer[d + 1 := '/'], d);
        assert buffer[d + 1 := '/'][..d] == buffer[..d];
      }
    }
  }

  lemma Shorter(r: string, s: string, d: nat)
    requires d + 1 <= |r| && d + 1 <= |s| && r[..d + 1] == s[..d + 1]
    ensures r[..d] == s[..d] && r[d] == s[d]
  {
    assert r[..d] == r[..d + 1][..d] && s[..d] == s[..d + 1][..d];
    assert r[d] == r[..d + 1][d] && s[d] == s[..d + 1][d];
  }

  /** The encoding of the first character at the read position. */
  lemma TokenHead(buffer: string, i: nat, s: string)
    requires i <= |buffer| && buffer[i..] == EncodeToken(s) && s != []
    ensures var e := EscapeOf(s[0]);
      && i + |e| <= |buffer| && buffer[i] == e[0] && (|e| == 2 ==> buffer[i + 1] == e[1])
      && buffer[i + |e|..] == EncodeToken(s[1..])
  {
    var e, rest := EscapeOf(s[0]), buffer[i..];
    assert rest == e + EncodeToken(s[1..]);
    assert buffer[i] == rest[0] && (|e| == 2 ==> buffer[i + 1] == rest[1]);
    assert buffer[i + |e|..] == rest[|e|..];
  }

  /** Character k of s in its place behind d: a tilde, or what the buffer holds there. */
  predicate PlacedAt(buffer: string, r: string, d: nat, s: string, k: nat)
    requires k < |s| && d + |s| <= |r| && d + |s| <= |buffer|
  {
    r[d + k] == if s[k] == '~' then '~' else buffer[d + k]
  }

  ghost predicate Placed(buffer: string, r: string, d: nat, s: string) {
    && |r| == d + |s| <= |buffer| && r[..d] == buffer[..d]
    && forall k: nat {:trigger PlacedAt(buffer, r, d, s, k)} :: k < |s| ==> PlacedAt(buffer, r, d, s, k)
  }

  lemma PlacedBefore(buffer: string, b: string, r: string, d: nat, s: string)
    requires s != [] && Placed(b, r, d + 1, s[1..]) && d < |buffer|
    requires b == if s[0] == '~' then buffer[d := '~'] else buffer
    ensures Placed(buffer, r, d, s)
  {
    Shorter(r, b, d);
    assert b[..d] == buffer[..d];
    forall k: nat | k < |s| ensures PlacedAt(buffer, r, d, s, k) {
      if k > 0 { assert PlacedAt(b, r, d + 1, s[1..], k - 1); }
    }
  }

  /** Without a slash, every '~' is put in its place and nothing else is moved. */
  lemma {:induction false} DecodesTildes(buffer: string, d: nat, i: nat, s: string)
    requires d <= i <= |buffer| && buffer[i..] == EncodeToken(s) && '/' !in s
    ensures Placed(buffer, DecodeFrom(buffer, d, i), d, s)
    decreases |s|
  {
    if s != [] {
      TokenHead(buffer, i, s);
      if s[0] == '~' {
        var b := buffer[d := '~'];
        assert b[i + 2..] == buffer[i + 2..];
        DecodesTildes(b, d + 1, i + 2, s[1..]);
        PlacedBefore(buffer, b, DecodeFrom(b, d + 1, i + 2), d, s);
      } else {
        DecodesTildes(buffer, d + 1, i + 1, s[1..]);
        PlacedBefore(buffer, buffer, DecodeFrom(buffer, d + 1, i + 1), d, s);
      }
    }
  }

  predicate SlashFree(buffer: string, d: nat) {
    forall k :: d <= k < |buffer| ==> buffer[k] != '/'
  }

  /** It is written one place too far. */
  lemma {:induction false} MissesSlash(buffer: string, d: nat, i: nat, s: string)
    requires d <= i <= |buffer| && buffer[i..] == EncodeToken(s) && s != [] && s[0] == '/' && SlashFree(buffer, d)
    ensures DecodeFrom(buffer, d, i) != buffer[..d] + s
  {
    TokenHead(buffer, i, s);
    var b := buffer[d + 1 := '/'];
    DecodeKeepsFront(b, d + 1, i + 2);
    Shorter(DecodeFrom(b, d + 1, i + 2), b, d);
    assert (buffer[..d] + s)[d] == '/';
  }

  /** A slash is never put in its place. */
  lemma {:induction false} LosesSlash(buffer: string, d: nat, i: nat, s: string)
    requires d <= i <= |buffer| && buffer[i..] == EncodeToken(s) && '/' in s && SlashFree(buffer, d)
    ensures DecodeFrom(buffer, d, i) != buffer[..d] + s
    decreases |s|
  {
    TokenHead(buffer, i, s);
    if s[0] == '/' {
      MissesSlash(buffer, d, i, s);
    } else if s[0] == '~' {
      var b := buffer[d := '~'];
      assert b[i + 2..] == buffer[i + 2..];
      LosesSlash(b, d + 1, i + 2, s[1..]);
      assert b[..d + 1] + s[1..] == buffer[..d] + s;
    } else {
      LosesSlash(buffer, d + 1, i + 1, s[1..]);
      DecodeKeepsFront(buffer, d + 1, i + 1);
      LosesSlashLater(buffer, DecodeFrom(buffer, d + 1, i + 1), d, s);
    }
  }

  lemma LosesSlashLater(buffer: string, r: string, d: nat, s: string)
    requires s != [] && d < |buffer| && d < |r| && r[..d + 1] == buffer[..d + 1]
    requires r != buffer[..d + 1] + s[1..]
    ensures r != buffer[..d] + s
  {
    Shorter(r, buffer, d);
    assert (buffer[..d] + s)[d] == s[0];
    if buffer[d] == s[0] { assert buffer[..d + 1] + s[1..] == buffer[..d] + s; }
  }

  /** The key is its own encoding, but for tildes. */
  predicate UnmovedByEncoding(key: string) {
    forall k :: 0 <= k < |key| ==> key[k] == '~' || At(EncodeToken(key), k) == key[k]
  }

  /** A key comes out of the last token of a path exactly when it has no slash and no character of it
      stands behind a tilde at another place than in its encoding. */
  lemma SurvivesExactly(key: string)
    ensures Survives(key) <==> '/' !in key && UnmovedByEncoding(key)
  {
    var e := EncodeToken(key);
    assert e[0..] == e;
    if '/' in key {
      EncodedHasNoSlash(key);
      LosesSlash(e, 0, 0, key);
      assert e[..0] + key == key;
    } else {
      DecodesTildes(e, 0, 0, key);
      var r := DecodeInPlace(e);
      forall k: nat | k < |key| ensures r[k] == if key[k] == '~' then '~' else e[k] {
        assert PlacedAt(e, r, 0, key, k);
      }
      if UnmovedByEncoding(key) {
        assert r == key;
      } else {
        var k: nat :| k < |key| && key[k] != '~' && At(e, k) != key[k];
      }
    }
  }

  // One member added

  lemma PatchForOneMember(key: string, v: Value, cs: bool)
    ensures GeneratePatches(Object([]), Object([Entry(key, v)]), cs) == [ComposePatch("add", [], Some(key), Some(v))]
  {
    var none: seq<Entry<Value>>, one := [], [Entry(key, v)];
    assert Sort(none, cs) == none && Sort(one, cs) == one && one[1..] == none;
    assert PatchMembers([], none, one[1..], cs) == [];
  }

  lemma AddToRoot(key: string, v: Value, cs: bool)
    ensures AddAt(Object([]), "/" + EncodeToken(key), v, cs)
         == Outcome(0, Object([Entry(DecodeInPlace(EncodeToken(key)), v)]))
  {
    var from, child := Object([]), DecodeInPlace(EncodeToken(key));
    EncodedHasNoSlash(key);
    assert PathText([]) == "" && "" + "/" == "/";
    AddBelow(from, [], [], EncodeToken(key), v, cs);
    assert AddChild(from, child, v, cs) == Outcome(0, Object([Entry(child, v)])) by {
      assert DeleteKey([], child, cs) + [Entry(child, v)] == [Entry(child, v)];
    }
  }

  /** The patch for one new member adds it under the decoded key, so replaying it gives the target exactly
      when the key survives. */
  lemma AddedMemberLands(key: string, v: Value, cs: bool)
    ensures var from, to := Object([]), Object([Entry(key, v)]);
      var r := ApplyPatches(from, GeneratePatches(from, to, cs), cs);
      && r == Outcome(0, Object([Entry(DecodeInPlace(EncodeToken(key)), v)]))
      && (r.doc == to <==> Survives(key))
  {
    var patch := ComposePatch("add", [], Some(key), Some(v));
    PatchForOneMember(key, v, cs);
    AddPatchIs(Object([]), [], key, v, cs);
    AddToRoot(key, v, cs);
    assert "" + "/" + EncodeToken(key) == "/" + EncodeToken(key);
    assert [patch][1..] == [];
    assert [Entry(DecodeInPlace(EncodeToken(key)), v)][0].key == DecodeInPlace(EncodeToken(key));
  }

  /** The shortest key that is lost: the patch for {"/": null} adds the member "~". */
  lemma SlashKeyIsLost(cs: bool)
    ensures var from, to := Object([]), Object([Entry("/", Null)]);
      ApplyPatches(from, GeneratePatches(from, to, cs), cs) == Outcome(0, Object([Entry("~", Null)]))
  {
    AddedMemberLands("/", Null, cs);
    assert EncodeToken("/") == "~1" + EncodeToken("") == "~1";
    assert "~1"[1 := '/'] == "~/" && "~/"[..1] == "~";
    assert DecodeFrom("~/", 1, 2) == "~";
    assert DecodeInPlace("~1") == "~";
  }

  // One member removed

  /** No earlier key is the same without regard to case. */
  predicate FirstOfItsName(ms: seq<Entry<Value>>, i: nat)
    requires i < |ms|
  {
    forall j :: 0 <= j < i ==> Fold(ms[j].key, false) != Fold(ms[i].key, false)
  }

  /** Taking a member out by its key takes the first one that matches without regard to case: the named one
      exactly when no earlier key differs from it in case only. */
  lemma DetachesNamedMember(ms: seq<Entry<Value>>, i: nat)
    requires i < |ms| && DistinctKeys(ms, true)
    ensures DetachChild(Object(ms), ms[i].key) == Some(Detached(Object(RemoveAt(ms, i)), ms[i].value))
        <==> FirstOfItsName(ms, i)
  {
    FoundIsFirst(ms, i);
    DetachesFound(ms, i, FindMember(ms, ms[i].key, false));
  }

  lemma FoundIsFirst(ms: seq<Entry<Value>>, i: nat)
    requires i < |ms|
    ensures FindMember(ms, ms[i].key, false) <= i
    ensures FindMember(ms, ms[i].key, false) == i <==> FirstOfItsName(ms, i)
  {
    FindsSomething(ms, i, false);
    FindsFirst(ms, ms[i].key, false);
  }

  lemma DetachesFound(ms: seq<Entry<Value>>, i: nat, j: nat)
    requires j <= i < |ms| && DistinctKeys(ms, true) && j == FindMember(ms, ms[i].key, false)
    ensures DetachChild(Object(ms), ms[i].key) == Some(Detached(Object(RemoveAt(ms, j)), ms[j].value))
    ensures RemoveAt(ms, j) == RemoveAt(ms, i) <==> i == j
  {
    if j < i { DifferentLeft(ms, j, i); }
  }

  lemma DifferentLeft(ms: seq<Entry<Value>>, j: nat, i: nat)
    requires j < i < |ms| && DistinctKeys(ms, true)
    ensures RemoveAt(ms, j) != RemoveAt(ms, i)
  {
    assert RemoveAt(ms, j)[j] == ms[j + 1] && RemoveAt(ms, i)[j] == ms[j];
    DistinctAt(ms, j, j + 1, true);
  }

  lemma {:induction false} FindsFirst(ms: seq<Entry<Value>>, key: string, cs: bool)
    ensures var i := FindMember(ms, key, cs);
      && (i < |ms| ==> Fold(ms[i].key, cs) == Fold(key, cs))
      && forall j :: 0 <= j < i && j < |ms| ==> Fold(ms[j].key, cs) != Fold(key, cs)
  {
    if ms != [] && Fold(ms[0].key, cs) != Fold(key, cs) {
      FindsFirst(ms[1..], key, cs);
      forall j | 0 <= j < FindMember(ms, key, cs) && j < |ms| ensures Fold(ms[j].key, cs) != Fold(key, cs) {
        if j > 0 { assert ms[j] == ms[1..][j - 1]; }
      }
    }
  }

  lemma {:induction false} FindsSomething(ms: seq<Entry<Value>>, i: nat, cs: bool)
    requires i < |ms|
    ensures FindMember(ms, ms[i].key, cs) <= i
  {
    if i > 0 && Fold(ms[0].key, cs) != Fold(ms[i].key, cs) {
      assert ms[1..][i - 1] == ms[i];
      FindsSomething(ms[1..], i - 1, cs);
    }
  }

  /** Case-sensitive patches lose the wrong member when keys differ in case only: dropping "a" from
      {"A": null, "a": true} leaves "a". */
  lemma WrongCaseIsRemoved()
    ensures var ms := [Entry("A", Null), Entry("a", True)];
      ApplyPatch(Object(ms), ComposePatch("remove", [], Some("a"), None), true)
      == Outcome(0, Object([Entry("a", True)]))
  {
    var ms := [Entry("A", Null), Entry("a", True)];
    PlainSurvives("a");
    PlainEncoding("a");
    assert Fold("A", false) == Fold("a", false) == "a";
    assert FindMember(ms, "a", false) == 0;
    assert RemoveAt(ms, 0) == [Entry("a", True)];
    assert PathText([]) == "" && "" + "/" + "a" == "/a";
    DetachBelow(Object(ms), [], [], "a", true);
    RemovePatchIs(Object(ms), [], "a", true);
  }

  // Keys that no case confuses with their decoded form

  /** What an escape leaves behind the write position. */
  predicate Leftover(buffer: string, d: nat, i: nat)
    requires d <= i <= |buffer|
  {
    forall k :: d <= k < i ==> buffer[k] == '0' || buffer[k] == '~'
  }

  lemma AlikeAt(s: string, t: string, k: nat, cs: bool)
    requires Fold(s, cs) == Fold(t, cs) && k < |s|
    ensures k < |t| && FoldChar(s[k], cs) == FoldChar(t[k], cs)
  {
    assert |Fold(s, cs)| == |Fold(t, cs)|;
    FoldAt(s, k, cs);
    FoldAt(t, k, cs);
  }

  /** The character at the write position is final. */
  lemma DecodedStartsAlike(b: string, r: string, d: nat, s: string, cs: bool)
    requires d < |b| && d + 1 <= |r| && r[..d + 1] == b[..d + 1] && s != []
    requires Fold(r, cs) == Fold(b[..d] + s, cs)
    ensures FoldChar(b[d], cs) == FoldChar(s[0], cs)
  {
    assert r[d] == r[..d + 1][d] && b[d] == b[..d + 1][d];
    assert (b[..d] + s)[d] == s[0];
    AlikeAt(r, b[..d] + s, d, cs);
  }

  lemma SlashNeverAlike(buffer: string, d: nat, i: nat, s: string, cs: bool)
    requires d <= i <= |buffer| && buffer[i..] == EncodeToken(s) && Leftover(buffer, d, i)
    requires s != [] && s[0] == '/'
    ensures Fold(DecodeFrom(buffer, d, i), cs) != Fold(buffer[..d] + s, cs)
  {
    TokenHead(buffer, i, s);
    var b, r := buffer[d + 1 := '/'], DecodeFrom(buffer, d, i);
    DecodeKeepsFront(b, d + 1, i + 2);
    assert b[..d] == buffer[..d];
    if Fold(r, cs) == Fold(buffer[..d] + s, cs) { DecodedStartsAlike(b, r, d, s, cs); }
  }

  lemma PlainCharAlike(buffer: string, d: nat, i: nat, s: string, cs: bool)
    requires d <= i < |buffer| && s != [] && buffer[i] == s[0] && s[0] != '~' && Leftover(buffer, d, i)
    requires FoldChar(buffer[d], cs) == FoldChar(s[0], cs)
    ensures buffer[..d + 1] + s[1..] == buffer[..d] + s && Leftover(buffer, d + 1, i + 1)
  {
    assert s[0] == buffer[d];
    assert s == [s[0]] + s[1..] && buffer[..d + 1] == buffer[..d] + [buffer[d]];
  }

  /** A decoded key that only case tells from the original is the original. */
  lemma {:induction false} TildeAlike(buffer: string, d: nat, i: nat, s: string) returns (b: string)
    requires d <= i && i + 2 <= |buffer| && d < |buffer| && s != [] && s[0] == '~'
    ensures b == buffer[d := '~'] && b[i + 2..] == buffer[i + 2..] && b[..d + 1] + s[1..] == buffer[..d] + s
  {
    b := buffer[d := '~'];
  }

  lemma {:induction false} DecodedAlike(buffer: string, d: nat, i: nat, s: string, cs: bool)
    requires d <= i <= |buffer| && buffer[i..] == EncodeToken(s) && Leftover(buffer, d, i)
    requires Fold(DecodeFrom(buffer, d, i), cs) == Fold(buffer[..d] + s, cs)
    ensures DecodeFrom(buffer, d, i) == buffer[..d] + s
    decreases |s|
  {
    if s == [] {
      assert buffer[..d] + s == buffer[..d];
    } else if s[0] == '/' {
      SlashNeverAlike(buffer, d, i, s, cs);
    } else if s[0] == '~' {
      TokenHead(buffer, i, s);
      var b := TildeAlike(buffer, d, i, s);
      DecodedAlike(b, d + 1, i + 2, s[1..], cs);
    } else {
      TokenHead(buffer, i, s);
      DecodeKeepsFront(buffer, d + 1, i + 1);
      DecodedStartsAlike(buffer, DecodeFrom(buffer, d, i), d, s, cs);
      PlainCharAlike(buffer, d, i, s, cs);
      DecodedAlike(buffer, d + 1, i + 1, s[1..], cs);
    }
  }

  lemma LostKeyDiffers(key: string, cs: bool)
    requires !Survives(key)
    ensures Fold(DecodeInPlace(EncodeToken(key)), cs) != Fold(key, cs)
  {
    var e := EncodeToken(key);
    assert e[0..] == e && e[..0] + key == key;
    if Fold(DecodeInPlace(e), cs) == Fold(key, cs) { DecodedAlike(e, 0, 0, key, cs); }
  }

  // Key sets

  /** No two of the keys differ in case only. */
  ghost predicate CaseApart(keys: iset<string>) {
    forall k, l :: k in keys && l in keys && Fold(k, false) == Fold(l, false) ==> k == l
  }

  /** What patches ask of keys: the last token of a path gives each back, and case-sensitive ones are not
      confused. */
  ghost predicate KeysFit(keys: iset<string>, cs: bool) {
    (forall k :: k in keys ==> Survives(k)) && (cs ==> CaseApart(keys))
  }

  /** Array indices fit into size_t. */
  predicate Indexable(v: Value)
    decreases v
  {
    match v
    case Array(items) => |items| <= SIZE_LIMIT && forall i :: 0 <= i < |items| ==> Indexable(items[i])
    case Object(ms) => forall i :: 0 <= i < |ms| ==> Indexable(ms[i].value)
    case _ => true
  }

  predicate AllIndexable(ms: seq<Entry<Value>>) {
    forall i :: 0 <= i < |ms| ==> Indexable(ms[i].value)
  }

  /** Trees over such keys are replayable, whatever they are. */
  lemma {:induction false} FitKeysReplay(from: Value, to: Value, keys: iset<string>, cs: bool)
    requires KeysFit(keys, cs) && KeysIn(from, keys) && KeysIn(to, keys) && Indexable(from) && Indexable(to)
    ensures Replayable(from, to, cs)
    decreases Height(from), 0
  {
    match (from, to)
    case (Array(items), Array(others)) => FitItemsReplay(items, others, keys, cs);
    case (Object(ms), Object(ns)) =>
      SortKeepsHeight(ms, cs);
      SortKeepsKeys(ms, keys, cs);
      SortKeepsKeys(ns, keys, cs);
      FitMembersReplay({}, Sort(ms, cs), Sort(ns, cs), keys, cs);
    case _ =>
  }

  lemma SortKeepsKeys(ms: seq<Entry<Value>>, keys: iset<string>, cs: bool)
    requires MembersIn(ms, keys) && AllIndexable(ms)
    ensures MembersIn(Sort(ms, cs), keys) && AllIndexable(Sort(ms, cs))
  {
    var s := Sort(ms, cs);
    forall i | 0 <= i < |s| ensures s[i].key in keys && KeysIn(s[i].value, keys) && Indexable(s[i].value) {
      var j := SortedFrom(ms, i, cs);
    }
  }

  lemma {:induction false} FitItemsReplay(from: seq<Value>, to: seq<Value>, keys: iset<string>, cs: bool)
    requires KeysFit(keys, cs) && ItemsIn(from, keys) && ItemsIn(to, keys)
    requires (forall i :: 0 <= i < |from| ==> Indexable(from[i])) && (forall i :: 0 <= i < |to| ==> Indexable(to[i]))
    ensures ItemsReplayable(from, to, cs)
    decreases ItemsHeight(from), |from|
  {
    if from != [] && to != [] {
      FitKeysReplay(from[0], to[0], keys, cs);
      FitItemsReplay(from[1..], to[1..], keys, cs);
    }
  }

  ghost predicate Raw(settled: set<string>, keys: iset<string>, cs: bool) {
    cs ==> forall k :: k in settled ==> k in keys
  }

  lemma {:induction false} FitMembersReplay(
      settled: set<string>, from: seq<Entry<Value>>, to: seq<Entry<Value>>, keys: iset<string>, cs: bool)
    requires KeysFit(keys, cs) && MembersIn(from, keys) && MembersIn(to, keys)
    requires AllIndexable(from) && AllIndexable(to) && Raw(settled, keys, cs)
    ensures MembersReplayable(settled, from, to, cs)
    decreases MembersHeight(from), |from| + |to|
  {
    if from != [] { FitKeyDetaches(settled, from, keys, cs); }
    if from != [] || to != [] {
      var diff := if from == [] then 1 else if to == [] then -1 else Compare(from[0].key, to[0].key, cs);
      if diff == 0 {
        FitKeysReplay(from[0].value, to[0].value, keys, cs);
        FitMembersReplay(settled + {Fold(from[0].key, cs)}, from[1..], to[1..], keys, cs);
      } else if diff < 0 {
        FitMembersReplay(settled, from[1..], to, keys, cs);
      } else {
        FitMembersReplay(settled + {Fold(to[0].key, cs)}, from, to[1..], keys, cs);
      }
    }
  }

  lemma FitKeyDetaches(settled: set<string>, from: seq<Entry<Value>>, keys: iset<string>, cs: bool)
    requires KeysFit(keys, cs) && MembersIn(from, keys) && Raw(settled, keys, cs) && from != []
    ensures Detachable(from[0].key, settled + KeySet(from, cs), cs)
  {
    var key, all := from[0].key, settled + KeySet(from, cs);
    if cs {
      forall l | l in all && Fold(l, false) == Fold(key, false) ensures l == key {
        if l !in settled { var i := KeyWitness(from, l, true); }
      }
    }
  }

  // The condition is exact

  /** Replaying the patches on this copy of the first tree gives the second. */
  predicate Replays(doc: Value, from: Value, to: Value, cs: bool) {
    var r := ApplyPatches(doc, GeneratePatches(from, to, cs), cs);
    r.status == 0 && Canonical(r.doc, cs) == Canonical(to, cs)
  }

  /** Two trees with distinct keys out of the set, and a copy of the first. */
  ghost predicate Posed(doc: Value, from: Value, to: Value, keys: iset<string>, cs: bool) {
    && Distinct(from, cs) && Distinct(to, cs) && Distinct(doc, cs) && Canonical(doc, cs) == Canonical(from, cs)
    && KeysIn(from, keys) && KeysIn(to, keys) && Indexable(from) && Indexable(to)
  }

  ghost predicate AllReplay(keys: iset<string>, cs: bool) {
    forall doc, from, to {:trigger Replays(doc, from, to, cs)} ::
      Posed(doc, from, to, keys, cs) ==> Replays(doc, from, to, cs)
  }

  /** All trees with keys out of a set survive the round trip exactly when each of the keys survives and, for
      case-sensitive patches, no two of them differ in case only. */
  lemma KeySetReplaysExactly(keys: iset<string>, cs: bool)
    ensures AllReplay(keys, cs) <==> KeysFit(keys, cs)
  {
    if KeysFit(keys, cs) {
      FitKeysAllReplay(keys, cs);
    } else {
      UnfitKeysFail(keys, cs);
    }
  }

  lemma FitKeysAllReplay(keys: iset<string>, cs: bool)
    requires KeysFit(keys, cs)
    ensures AllReplay(keys, cs)
  {
    forall doc, from, to | Posed(doc, from, to, keys, cs) ensures Replays(doc, from, to, cs) {
      FitKeysReplay(from, to, keys, cs);
      PatchRoundTrip.PatchRoundTrip(doc, from, to, cs);
    }
  }

  lemma UnfitKeysFail(keys: iset<string>, cs: bool)
    requires !KeysFit(keys, cs)
    ensures !AllReplay(keys, cs)
  {
    if k :| k in keys && !Survives(k) {
      LostKeyFails(k, cs);
      PosedByMembers([], [Entry(k, Null)], keys, cs);
      Refuted(Object([]), Object([Entry(k, Null)]), keys, cs);
    } else {
      var k, l :| k in keys && l in keys && Fold(k, false) == Fold(l, false) && k != l;
      TwinFails(k, l);
      PosedByMembers([Entry(l, Null), Entry(k, True)], [Entry(l, Null)], keys, true);
      Refuted(Object([Entry(l, Null), Entry(k, True)]), Object([Entry(l, Null)]), keys, true);
    }
  }

  lemma Refuted(from: Value, to: Value, keys: iset<string>, cs: bool)
    requires Posed(from, from, to, keys, cs) && !Replays(from, from, to, cs)
    ensures !AllReplay(keys, cs)
  {
  }

  lemma PosedByMembers(from: seq<Entry<Value>>, to: seq<Entry<Value>>, keys: iset<string>, cs: bool)
    requires DistinctKeys(from, cs) && DistinctKeys(to, cs)
    requires forall i :: 0 <= i < |from| ==> from[i].key in keys && (from[i].value.Null? || from[i].value.True?)
    requires forall i :: 0 <= i < |to| ==> to[i].key in keys && to[i].value.Null?
    ensures Posed(Object(from), Object(from), Object(to), keys, cs)
  {
  }

  lemma LostKeyFails(key: string, cs: bool)
    requires !Survives(key)
    ensures !Replays(Object([]), Object([]), Object([Entry(key, Null)]), cs)
  {
    var lost := DecodeInPlace(EncodeToken(key));
    AddedMemberLands(key, Null, cs);
    LostKeyDiffers(key, cs);
    OneMember(key, Null, cs);
    OneMember(lost, Null, cs);
    assert Fold(key, cs) in CanonMembers([Entry(key, Null)], cs);
    assert Fold(key, cs) !in CanonMembers([Entry(lost, Null)], cs);
  }

  lemma OneMember(key: string, v: Value, cs: bool)
    ensures CanonMembers([Entry(key, v)], cs) == map[Fold(key, cs) := Canonical(v, cs)]
  {
    assert [Entry(key, v)][1..] == [];
  }

  /** The member that should stay is taken out instead of its twin. */
  lemma TwinFails(k: string, l: string)
    requires Fold(k, false) == Fold(l, false) && k != l && Survives(k)
    ensures var from := Object([Entry(l, Null), Entry(k, True)]);
      Distinct(from, true) && !Replays(from, from, Object([Entry(l, Null)]), true)
  {
    var from, to := Object([Entry(l, Null), Entry(k, True)]), Object([Entry(l, Null)]);
    var patch := ComposePatch("remove", [], Some(k), None);
    TwinPatches(k, l);
    TwinDetached(k, l);
    RemovePatchIs(from, [], k, true);
    OnePatch(from, patch, true);
    OneMember(k, True, true);
    OneMember(l, Null, true);
    assert k in CanonMembers([Entry(k, True)], true) && k !in CanonMembers([Entry(l, Null)], true);
  }

  lemma OnePatch(doc: Value, patch: Value, cs: bool)
    requires ApplyPatch(doc, patch, cs).status == 0
    ensures ApplyPatches(doc, [patch], cs) == ApplyPatch(doc, patch, cs)
  {
    assert [patch][1..] == [];
    assert ApplyPatches(ApplyPatch(doc, patch, cs).doc, [], cs) == ApplyPatch(doc, patch, cs);
  }

  lemma TwinDetached(k: string, l: string)
    requires Fold(k, false) == Fold(l, false) && k != l && Survives(k)
    ensures var from := Object([Entry(l, Null), Entry(k, True)]);
      && Distinct(from, true)
      && DetachPath(from, [] + "/" + EncodeToken(k), true) == Some(Detached(Object([Entry(k, True)]), Null))
  {
    var ms := [Entry(l, Null), Entry(k, True)];
    assert ms[1..] == [Entry(k, True)] && KeySet(ms[1..], true) == {k};
    assert FindMember(ms, k, false) == 0;
    assert RemoveAt(ms, 0) == [Entry(k, True)];
    EncodedHasNoSlash(k);
    DetachBelow(Object(ms), [], [], EncodeToken(k), true);
  }

  lemma TwinPatches(k: string, l: string)
    requires k != l
    ensures GeneratePatches(Object([Entry(l, Null), Entry(k, True)]), Object([Entry(l, Null)]), true)
         == [ComposePatch("remove", [], Some(k), None)]
  {
    var e, f: Entry<Value> := Entry(l, Null), Entry(k, True);
    var none: seq<Entry<Value>>, one, other := [], [e], [f];
    var remove := ComposePatch("remove", [], Some(k), None);
    CompareIsTotalOrder(l, k, l, true);
    CompareIsTotalOrder(l, l, l, true);
    SortTwo(e, f, true);
    assert Sort(one, true) == one && one[1..] == none && other[1..] == none;
    var s := Sort([e, f], true);
    assert PatchMembers([], none, none, true) == [];
    if Compare(l, k, true) < 0 {
      assert s == [e, f] && s[1..] == other;
      assert PatchMembers([], other, none, true) == [remove] + [];
      assert CreatePatches([] + "/" + EncodeToken(l), Null, Null, true) == [];
      assert PatchMembers([], s, one, true) == [] + PatchMembers([], other, none, true);
    } else {
      assert s == [f, e] && s[1..] == one;
      assert CreatePatches([] + "/" + EncodeToken(l), Null, Null, true) == [];
      assert PatchMembers([], one, one, true) == [] + PatchMembers([], none, none, true);
      assert PatchMembers([], s, one, true) == [remove] + PatchMembers([], one, one, true);
    }
  }
}
