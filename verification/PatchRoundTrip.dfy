/** A generated patch, replayed step by step on any copy of the first tree, turns it into the second one up
    to the order of members. */
module PatchRoundTrip {
  import opened CText
  import opened Json
  import opened Options
  import opened MergeSort
  import opened Equality
  import opened Pointer
  import opened Patch
  import opened Sequences

  // Domains

  /** The last token of a patch path comes back unharmed from decode_pointer_inplace. */
  predicate Survives(key: string) {
    DecodeInPlace(EncodeToken(key)) == key
  }

  /** No other of these keys differs from it in case only. Only case-sensitive patches need it: detach_path
      always looks the last token up without regard to case. */
  predicate StandsAlone(key: string, keys: set<string>, cs: bool) {
    cs ==> forall l :: l in keys && Fold(l, false) == Fold(key, false) ==> l == key
  }

  /** The two items differ in themselves, so that one is replaced by the other. */
  predicate Replaced(from: Value, to: Value) {
    !SameType(from, to) || (from.Number? && from.n != to.n) || (from.String? && from.s != to.s)
  }

  /** Every patch that is emitted for the two trees names a member that is found again: the key survives,
      and where a member is taken out, no other member of the object has this key in other case. Keys that
      no patch ends in are free. */
  ghost predicate Replayable(from: Value, to: Value, cs: bool)
    decreases Height(from), 0
  {
    match (from, to)
    case (Array(items), Array(others)) =>
      |items| <= SIZE_LIMIT && |others| <= SIZE_LIMIT && ItemsReplayable(items, others, cs)
    case (Object(ms), Object(ns)) =>
      SortKeepsHeight(ms, cs);
      MembersReplayable({}, Sort(ms, cs), Sort(ns, cs), cs)
    case _ => true
  }

  ghost predicate ItemsReplayable(from: seq<Value>, to: seq<Value>, cs: bool)
    decreases ItemsHeight(from), |from|
  {
    from == [] || to == [] || (Replayable(from[0], to[0], cs) && ItemsReplayable(from[1..], to[1..], cs))
  }

  /** The walk over sorted members. The object then holds the settled keys and those still to come. */
  ghost predicate MembersReplayable(
      settled: set<string>, from: seq<Entry<Value>>, to: seq<Entry<Value>>, cs: bool)
    decreases MembersHeight(from), |from| + |to|
  {
    if from == [] && to == [] then true
    else
      var diff := if from == [] then 1 else if to == [] then -1 else Compare(from[0].key, to[0].key, cs);
      if diff == 0 then
        && Replayable(from[0].value, to[0].value, cs)
        && (Replaced(from[0].value, to[0].value) ==> Detachable(from[0].key, settled + KeySet(from, cs), cs))
        && MembersReplayable(settled + {Fold(from[0].key, cs)}, from[1..], to[1..], cs)
      else if diff < 0 then
        && Detachable(from[0].key, settled + KeySet(from, cs), cs)
        && MembersReplayable(settled, from[1..], to, cs)
      else
        && Survives(to[0].key)
        && MembersReplayable(settled + {Fold(to[0].key, cs)}, from, to[1..], cs)
  }

  predicate Detachable(key: string, keys: set<string>, cs: bool) {
    Survives(key) && StandsAlone(key, keys, cs)
  }

  // Keys that survive

  predicate PlainKey(key: string) {
    '~' !in key && '/' !in key
  }

  lemma {:induction false} PlainEncoding(key: string)
    requires PlainKey(key)
    ensures EncodeToken(key) == key
  {
    if key != [] {
      PlainEncoding(key[1..]);
      assert key == [key[0]] + key[1..];
    }
  }

  lemma {:induction false} PlainDecoding(buffer: string, i: nat)
    requires '~' !in buffer && i <= |buffer|
    ensures DecodeFrom(buffer, i, i) == buffer
    decreases |buffer| - i
  {
    if i < |buffer| { PlainDecoding(buffer, i + 1); }
  }

  /** Keys without '~' and '/' survive. */
  lemma PlainSurvives(key: string)
    requires PlainKey(key)
    ensures Survives(key)
  {
    PlainEncoding(key);
    PlainDecoding(key, 0);
  }

  // Paths in the map of maps

  function CGet(c: Canon, steps: seq<Step>, cs: bool): Option<Canon>
    decreases |steps|
  {
    if steps == [] then Some(c)
    else
      match (c, steps[0])
      case (CArray(items), Index(i)) => if i < |items| then CGet(items[i], steps[1..], cs) else None
      case (CObject(m), Key(name)) =>
        if Fold(name, cs) in m then CGet(m[Fold(name, cs)], steps[1..], cs) else None
      case _ => None
  }

  function CPut(c: Canon, steps: seq<Step>, x: Canon, cs: bool): Canon
    requires CGet(c, steps, cs).Some?
    decreases |steps|
  {
    if steps == [] then x
    else
      match (c, steps[0])
      case (CArray(items), Index(i)) => CArray(items[i := CPut(items[i], steps[1..], x, cs)])
      case (CObject(m), Key(name)) =>
        CObject(m[Fold(name, cs) := CPut(m[Fold(name, cs)], steps[1..], x, cs)])
  }

  lemma {:induction false} CPutIsRead(c: Canon, steps: seq<Step>, x: Canon, cs: bool)
    requires CGet(c, steps, cs).Some?
    ensures CGet(CPut(c, steps, x, cs), steps, cs) == Some(x)
    decreases |steps|
  {
    if steps != [] {
      match (c, steps[0])
      case (CArray(items), Index(i)) => CPutIsRead(items[i], steps[1..], x, cs);
      case (CObject(m), Key(name)) => CPutIsRead(m[Fold(name, cs)], steps[1..], x, cs);
    }
  }

  lemma {:induction false} CPutAgain(c: Canon, steps: seq<Step>, x: Canon, y: Canon, cs: bool)
    requires CGet(c, steps, cs).Some?
    ensures CGet(CPut(c, steps, x, cs), steps, cs).Some?
    ensures CPut(CPut(c, steps, x, cs), steps, y, cs) == CPut(c, steps, y, cs)
    decreases |steps|
  {
    if steps != [] {
      match (c, steps[0])
      case (CArray(items), Index(i)) => CPutAgain(items[i], steps[1..], x, y, cs);
      case (CObject(m), Key(name)) => CPutAgain(m[Fold(name, cs)], steps[1..], x, y, cs);
    }
  }

  lemma {:induction false} CPutSame(c: Canon, steps: seq<Step>, cs: bool)
    requires CGet(c, steps, cs).Some?
    ensures CPut(c, steps, CGet(c, steps, cs).value, cs) == c
    decreases |steps|
  {
    if steps != [] {
      match (c, steps[0])
      case (CArray(items), Index(i)) => CPutSame(items[i], steps[1..], cs);
      case (CObject(m), Key(name)) => CPutSame(m[Fold(name, cs)], steps[1..], cs);
    }
  }

  lemma CPutLaws(c: Canon, steps: seq<Step>, x: Canon, y: Canon, cs: bool)
    requires CGet(c, steps, cs).Some?
    ensures CGet(CPut(c, steps, x, cs), steps, cs) == Some(x)
    ensures CPut(CPut(c, steps, x, cs), steps, y, cs) == CPut(c, steps, y, cs)
    ensures CPut(c, steps, CGet(c, steps, cs).value, cs) == c
  {
    CPutIsRead(c, steps, x, cs);
    CPutAgain(c, steps, x, y, cs);
    CPutSame(c, steps, cs);
  }

  lemma {:induction false} CPutDeeper(c: Canon, steps: seq<Step>, s: Step, x: Canon, cs: bool)
    requires CGet(c, steps, cs).Some?
    requires CGet(CGet(c, steps, cs).value, [s], cs).Some?
    ensures CGet(c, steps + [s], cs) == CGet(CGet(c, steps, cs).value, [s], cs)
    ensures CPut(c, steps + [s], x, cs) == CPut(c, steps, CPut(CGet(c, steps, cs).value, [s], x, cs), cs)
    decreases |steps|
  {
    if steps == [] {
      assert steps + [s] == [s];
    } else {
      assert (steps + [s])[1..] == steps[1..] + [s];
      match (c, steps[0])
      case (CArray(items), Index(i)) => CPutDeeper(items[i], steps[1..], s, x, cs);
      case (CObject(m), Key(name)) => CPutDeeper(m[Fold(name, cs)], steps[1..], s, x, cs);
    }
  }

  // Following a path in a tree is following it in its map

  lemma NodeBelow(v: Value, i: nat, at: seq<nat>)
    requires i < |Children(v)| && HasNode(Children(v)[i], at)
    ensures HasNode(v, [i] + at) && NodeAt(v, [i] + at) == NodeAt(Children(v)[i], at)
  {
    assert ([i] + at)[1..] == at;
  }

  /** The path leads to an item exactly when it leads to a place of the map, and then to the same. */
  ghost predicate ReadsMap(v: Value, steps: seq<Step>, cs: bool) {
    && (Resolve(v, steps, cs).Some? <==> CGet(Canonical(v, cs), steps, cs).Some?)
    && (Resolve(v, steps, cs).Some? ==>
          var at := Resolve(v, steps, cs).value;
          HasNode(v, at) && CGet(Canonical(v, cs), steps, cs) == Some(Canonical(NodeAt(v, at), cs)))
  }

  lemma ReadsInArray(items: seq<Value>, i: nat, steps: seq<Step>, cs: bool)
    requires steps != [] && steps[0] == Index(i) && (i < |items| ==> ReadsMap(items[i], steps[1..], cs))
    ensures ReadsMap(Array(items), steps, cs)
  {
    if i < |items| && Resolve(items[i], steps[1..], cs).Some? {
      NodeBelow(Array(items), i, Resolve(items[i], steps[1..], cs).value);
    }
  }

  /** Following a name one level down, in the tree and in the map. */
  lemma ReadInMember(ms: seq<Entry<Value>>, name: string, i: nat, steps: seq<Step>, cs: bool)
    requires i < |ms| && i == FindMember(ms, name, cs)
    ensures Resolve(Object(ms), [Key(name)] + steps, cs) == Below(i, Resolve(ms[i].value, steps, cs))
    ensures CGet(Canonical(Object(ms), cs), [Key(name)] + steps, cs) == CGet(Canonical(ms[i].value, cs), steps, cs)
  {
    assert ([Key(name)] + steps)[1..] == steps;
    LookupReadsMap(ms, name, cs);
  }

  lemma ReadsInObject(ms: seq<Entry<Value>>, name: string, steps: seq<Step>, cs: bool)
    requires steps != [] && steps[0] == Key(name)
    requires var i := FindMember(ms, name, cs); i < |ms| ==> ReadsMap(ms[i].value, steps[1..], cs)
    ensures ReadsMap(Object(ms), steps, cs)
  {
    var i, rest := FindMember(ms, name, cs), steps[1..];
    if i < |ms| {
      assert steps == [Key(name)] + rest;
      ReadInMember(ms, name, i, rest, cs);
      if Resolve(ms[i].value, rest, cs).Some? { NodeBelow(Object(ms), i, Resolve(ms[i].value, rest, cs).value); }
    } else {
      LookupReadsMap(ms, name, cs);
    }
  }

  lemma {:induction false} ResolveReadsMap(v: Value, steps: seq<Step>, cs: bool)
    ensures ReadsMap(v, steps, cs)
    decreases |steps|
  {
    if steps != [] {
      match (v, steps[0])
      case (Array(items), Index(i)) =>
        if i < |items| { ResolveReadsMap(items[i], steps[1..], cs); }
        ReadsInArray(items, i, steps, cs);
      case (Object(ms), Key(name)) =>
        var i := FindMember(ms, name, cs);
        if i < |ms| { ResolveReadsMap(ms[i].value, steps[1..], cs); }
        ReadsInObject(ms, name, steps, cs);
      case _ =>
    }
  }

  /** The item at a position is replaced: the map changes at the path to it and nowhere else, and keys stay
      distinct. */
  ghost predicate Wrote(v: Value, steps: seq<Step>, at: seq<nat>, w: Value, cs: bool) {
    && HasNode(v, at)
    && Distinct(NodeAt(v, at), cs)
    && CGet(Canonical(v, cs), steps, cs).Some?
    && Distinct(PutAt(v, at, w), cs)
    && Resolve(PutAt(v, at, w), steps, cs) == Some(at)
    && HasNode(PutAt(v, at, w), at)
    && NodeAt(PutAt(v, at, w), at) == w
    && Canonical(PutAt(v, at, w), cs) == CPut(Canonical(v, cs), steps, Canonical(w, cs), cs)
  }

  lemma WroteInArray(items: seq<Value>, i: nat, steps: seq<Step>, at: seq<nat>, w: Value, cs: bool)
    requires Distinct(Array(items), cs) && i < |items| && Wrote(items[i], steps, at, w, cs)
    ensures Wrote(Array(items), [Index(i)] + steps, [i] + at, w, cs)
  {
    var s, n := [Index(i)] + steps, [i] + at;
    assert s[1..] == steps && n[1..] == at;
    PutInArray(items, i, PutAt(items[i], at, w), cs);
  }

  /** The tree side of it, one level up. */
  lemma PutInMember(ms: seq<Entry<Value>>, i: nat, at: seq<nat>, w: Value)
    requires i < |ms| && HasNode(ms[i].value, at)
    requires HasNode(PutAt(ms[i].value, at, w), at) && NodeAt(PutAt(ms[i].value, at, w), at) == w
    ensures var v, n := Object(ms), [i] + at;
      && HasNode(v, n) && NodeAt(v, n) == NodeAt(ms[i].value, at)
      && PutAt(v, n, w) == Object(WithValue(ms, i, PutAt(ms[i].value, at, w)))
      && HasNode(PutAt(v, n, w), n) && NodeAt(PutAt(v, n, w), n) == w
  {
    var n := [i] + at;
    assert n[0] == i && n[1..] == at;
    assert Children(Object(ms))[i] == ms[i].value;
    ChildTwice(Object(ms), i, PutAt(ms[i].value, at, w), w);
  }

  lemma WroteInObject(ms: seq<Entry<Value>>, name: string, steps: seq<Step>, at: seq<nat>, w: Value, cs: bool)
    requires Distinct(Object(ms), cs) && FindMember(ms, name, cs) < |ms|
    requires Wrote(ms[FindMember(ms, name, cs)].value, steps, at, w, cs)
    ensures Wrote(Object(ms), [Key(name)] + steps, [FindMember(ms, name, cs)] + at, w, cs)
  {
    var i := FindMember(ms, name, cs);
    var x := PutAt(ms[i].value, at, w);
    var s, ns := [Key(name)] + steps, WithValue(ms, i, x);
    PutInMember(ms, i, at, w);
    PutInObject(ms, name, x, cs);
    ReadInMember(ms, name, i, steps, cs);
    ReadInMember(ns, name, i, steps, cs);
    assert CPut(Canonical(Object(ms), cs), s, Canonical(w, cs), cs) == Canonical(Object(ns), cs) by {
      assert s[1..] == steps;
      LookupReadsMap(ms, name, cs);
    }
  }

  /** Replacing the item that a path leads to. */
  lemma {:induction false} PutWritesMap(v: Value, steps: seq<Step>, w: Value, cs: bool)
    requires Distinct(v, cs) && Distinct(w, cs) && Resolve(v, steps, cs).Some?
    ensures Wrote(v, steps, Resolve(v, steps, cs).value, w, cs)
    decreases |steps|
  {
    if steps != [] {
      assert steps == [steps[0]] + steps[1..];
      match (v, steps[0])
      case (Array(items), Index(i)) =>
        PutWritesMap(items[i], steps[1..], w, cs);
        WroteInArray(items, i, steps[1..], Resolve(items[i], steps[1..], cs).value, w, cs);
      case (Object(ms), Key(name)) =>
        var i := FindMember(ms, name, cs);
        PutWritesMap(ms[i].value, steps[1..], w, cs);
        WroteInObject(ms, name, steps[1..], Resolve(ms[i].value, steps[1..], cs).value, w, cs);
    }
  }

  lemma PutInArray(items: seq<Value>, i: nat, w: Value, cs: bool)
    requires Distinct(Array(items), cs) && Distinct(w, cs) && i < |items|
    ensures Distinct(Array(items[i := w]), cs)
    ensures CanonItems(items[i := w], cs) == CanonItems(items, cs)[i := Canonical(w, cs)]
  {
  }

  lemma PutInObject(ms: seq<Entry<Value>>, name: string, w: Value, cs: bool)
    requires Distinct(Object(ms), cs) && Distinct(w, cs) && FindMember(ms, name, cs) < |ms|
    ensures var i := FindMember(ms, name, cs);
      && Distinct(Object(WithValue(ms, i, w)), cs)
      && FindMember(WithValue(ms, i, w), name, cs) == i
      && CanonMembers(WithValue(ms, i, w), cs) == CanonMembers(ms, cs)[Fold(name, cs) := Canonical(w, cs)]
  {
    var i := FindMember(ms, name, cs);
    CanonUpdate(ms, i, w, cs);
    var ns := WithValue(ms, i, w);
    CanonAt(ns, i, cs);
    FindSameKey(ns, name, ns[i].key, cs);
  }

  lemma {:induction false} FindSameKey<T>(ms: seq<Entry<T>>, k: string, l: string, cs: bool)
    requires Fold(k, cs) == Fold(l, cs)
    ensures FindMember(ms, k, cs) == FindMember(ms, l, cs)
  {
    if ms != [] { FindSameKey(ms[1..], k, l, cs); }
  }

  // Reading a composed patch

  lemma FoldedNames(cs: bool)
    ensures Fold("op", cs) == "op" && Fold("path", cs) == "path" && Fold("value", cs) == "value"
  {
    assert Fold("p", cs) == "p" && Fold("h", cs) == "h" && Fold("e", cs) == "e";
    assert "op"[1..] == "p" && "path"[1..] == "ath" && "ath"[1..] == "th" && "th"[1..] == "h";
    assert "value"[1..] == "alue" && "alue"[1..] == "lue" && "lue"[1..] == "ue" && "ue"[1..] == "e";
    assert Fold("th", cs) == "th" && Fold("ue", cs) == "ue";
    assert Fold("ath", cs) == "ath" && Fold("lue", cs) == "lue";
    assert Fold("alue", cs) == "alue";
  }

  function PatchPath(path: string, suffix: Option<string>): string {
    if suffix.Some? then path + "/" + EncodeToken(suffix.value) else path
  }

  lemma ComposedReads(operation: string, path: string, suffix: Option<string>, value: Option<Value>, cs: bool)
    ensures var p := ComposePatch(operation, path, suffix, value);
      && StringMember(p, "op", cs) == Some(operation)
      && StringMember(p, "path", cs) == Some(PatchPath(path, suffix))
      && Lookup(Members(p), "value", cs) == value
  {
    var ms := Members(ComposePatch(operation, path, suffix, value));
    FoldedNames(cs);
    assert "op"[0] != "path"[0] && "op"[0] != "value"[0] && "path"[0] != "value"[0];
    assert FindMember(ms, "op", cs) == 0;
    assert FindMember(ms[1..], "path", cs) == 0;
    assert FindMember(ms, "path", cs) == 1;
    assert FindMember(ms[2..], "value", cs) == 0;
    assert ms[1..][1..] == ms[2..];
    assert FindMember(ms[1..], "value", cs) == 1;
    assert FindMember(ms, "value", cs) == 2;
  }

  // Detaching and adding at the end of a path

  lemma {:induction false} SplitsAtLastToken(a: string, tok: string)
    requires '/' !in tok
    ensures SplitLast(a + "/" + tok) == Some((a, tok))
  {
    var path := a + "/" + tok;
    if tok == [] {
      assert path[..|path| - 1] == a;
    } else {
      var init := tok[..|tok| - 1];
      assert path[..|path| - 1] == a + "/" + init;
      SplitsAtLastToken(a, init);
      assert init + [tok[|tok| - 1]] == tok;
    }
  }

  lemma IndexTextSurvives(i: nat)
    ensures DecodeInPlace(IndexText(i)) == IndexText(i)
    ensures EncodeToken(IndexText(i)) == IndexText(i)
    ensures '/' !in IndexText(i)
  {
    IndexTextIsDigits(i);
    PlainDecoding(IndexText(i), 0);
    PlainEncoding(IndexText(i));
  }

  lemma DetachBelow(doc: Value, steps: seq<Step>, at: seq<nat>, tok: string, cs: bool)
    requires Addressable(steps) && Resolve(doc, steps, cs) == Some(at) && HasNode(doc, at)
    requires '/' !in tok
    ensures var d := DetachChild(NodeAt(doc, at), DecodeInPlace(tok));
      d.Some? ==> (DetachPath(doc, PathText(steps) + "/" + tok, cs)
                   == Some(Detached(PutAt(doc, at, d.value.rest), d.value.item)))
  {
    SplitsAtLastToken(PathText(steps), tok);
    LocateFollowsPath(doc, steps, cs);
  }

  lemma AddBelow(doc: Value, steps: seq<Step>, at: seq<nat>, tok: string, w: Value, cs: bool)
    requires Addressable(steps) && Resolve(doc, steps, cs) == Some(at) && HasNode(doc, at)
    requires '/' !in tok
    ensures var r := AddChild(NodeAt(doc, at), DecodeInPlace(tok), w, cs);
      r.status == 0 ==> (AddAt(doc, PathText(steps) + "/" + tok, w, cs) == Outcome(0, PutAt(doc, at, r.doc)))
  {
    SplitsAtLastToken(PathText(steps), tok);
    LocateFollowsPath(doc, steps, cs);
  }

  lemma DetachMember(doc: Value, steps: seq<Step>, at: seq<nat>, key: string, cs: bool)
    requires Addressable(steps) && Resolve(doc, steps, cs) == Some(at)
    requires HasNode(doc, at) && NodeAt(doc, at).Object?
    requires Detachable(key, KeySet(NodeAt(doc, at).members, cs), cs)
    ensures var ms := NodeAt(doc, at).members;
      var i := FindMember(ms, key, cs);
      i < |ms| ==> (DetachPath(doc, PathText(steps) + "/" + EncodeToken(key), cs)
                    == Some(Detached(PutAt(doc, at, Object(RemoveAt(ms, i))), ms[i].value)))
  {
    EncodedHasNoSlash(key);
    DetachBelow(doc, steps, at, EncodeToken(key), cs);
    if cs { AloneIsFoundAlike(NodeAt(doc, at).members, key); }
  }

  /** A key that stands alone is found by both lookups. */
  lemma {:induction false} AloneIsFoundAlike(ms: seq<Entry<Value>>, key: string)
    requires StandsAlone(key, KeySet(ms, true), true)
    ensures FindMember(ms, key, false) == FindMember(ms, key, true)
  {
    if ms != [] {
      assert ms[0].key in KeySet(ms, true);
      if Fold(ms[0].key, false) != Fold(key, false) { AloneIsFoundAlike(ms[1..], key); }
    }
  }

  lemma IndexDecodes(i: nat)
    requires i < SIZE_LIMIT
    ensures DecodeIndex(DecodeInPlace(IndexText(i))) == Some(i)
    ensures DecodeInPlace(IndexText(i)) != "-"
    ensures '/' !in IndexText(i)
  {
    IndexTextSurvives(i);
    IndexTextIsDigits(i);
    assert IndexText(i)[0] != "-"[0];
    IndexRoundTrip(i, []);
    assert IndexText(i) + [] == IndexText(i);
  }

  lemma DetachItem(doc: Value, steps: seq<Step>, at: seq<nat>, i: nat, cs: bool)
    requires Addressable(steps) && Resolve(doc, steps, cs) == Some(at)
    requires HasNode(doc, at) && NodeAt(doc, at).Array? && i < |NodeAt(doc, at).items| && i < SIZE_LIMIT
    ensures DetachPath(doc, PathText(steps) + "/" + IndexText(i), cs)
         == Some(Detached(PutAt(doc, at, Array(RemoveAt(NodeAt(doc, at).items, i))), NodeAt(doc, at).items[i]))
  {
    IndexDecodes(i);
    DetachBelow(doc, steps, at, IndexText(i), cs);
  }

  lemma AddMember(doc: Value, steps: seq<Step>, at: seq<nat>, key: string, w: Value, cs: bool)
    requires Addressable(steps) && Resolve(doc, steps, cs) == Some(at)
    requires HasNode(doc, at) && NodeAt(doc, at).Object?
    requires Survives(key)
    ensures AddAt(doc, PathText(steps) + "/" + EncodeToken(key), w, cs)
         == Outcome(0, PutAt(doc, at, Object(DeleteKey(NodeAt(doc, at).members, key, cs) + [Entry(key, w)])))
  {
    EncodedHasNoSlash(key);
    AddBelow(doc, steps, at, EncodeToken(key), w, cs);
  }

  lemma InsertItem(doc: Value, steps: seq<Step>, at: seq<nat>, i: nat, w: Value, cs: bool)
    requires Addressable(steps) && Resolve(doc, steps, cs) == Some(at)
    requires HasNode(doc, at) && NodeAt(doc, at).Array? && i <= |NodeAt(doc, at).items| && i < SIZE_LIMIT
    ensures AddAt(doc, PathText(steps) + "/" + IndexText(i), w, cs)
         == Outcome(0, PutAt(doc, at, Array(NodeAt(doc, at).items[..i] + [w] + NodeAt(doc, at).items[i..])))
  {
    IndexDecodes(i);
    AddBelow(doc, steps, at, IndexText(i), w, cs);
  }

  lemma AppendItem(doc: Value, steps: seq<Step>, at: seq<nat>, w: Value, cs: bool)
    requires Addressable(steps) && Resolve(doc, steps, cs) == Some(at)
    requires HasNode(doc, at) && NodeAt(doc, at).Array?
    ensures AddAt(doc, PathText(steps) + "/" + "-", w, cs)
         == Outcome(0, PutAt(doc, at, Array(NodeAt(doc, at).items + [w])))
  {
    PlainDecoding("-", 0);
    AddBelow(doc, steps, at, "-", w, cs);
  }

  // What one patch does to the map of maps

  /** The item at a path, the facts every step below starts from. */
  lemma ItemAt(doc: Value, steps: seq<Step>, cs: bool) returns (at: seq<nat>)
    requires Distinct(doc, cs) && CGet(Canonical(doc, cs), steps, cs).Some?
    ensures Resolve(doc, steps, cs) == Some(at) && HasNode(doc, at) && Distinct(NodeAt(doc, at), cs)
    ensures CGet(Canonical(doc, cs), steps, cs) == Some(Canonical(NodeAt(doc, at), cs))
  {
    ResolveReadsMap(doc, steps, cs);
    at := Resolve(doc, steps, cs).value;
    PutWritesMap(doc, steps, Null, cs);
  }

  lemma DistinctWithout(ms: seq<Entry<Value>>, i: nat, cs: bool)
    requires Distinct(Object(ms), cs) && i < |ms|
    ensures Distinct(Object(RemoveAt(ms, i)), cs)
  {
    KeySetWithout(ms, i, cs);
  }

  lemma DistinctAppend(ms: seq<Entry<Value>>, key: string, w: Value, cs: bool)
    requires Distinct(Object(ms), cs) && Distinct(w, cs) && Fold(key, cs) !in KeySet(ms, cs)
    ensures Distinct(Object(ms + [Entry(key, w)]), cs)
  {
    KeySetAppend(ms, Entry(key, w), cs);
  }

  /** Deleting a key and appending it again sets it in the map. */
  lemma DeleteThenAppend(ms: seq<Entry<Value>>, key: string, w: Value, cs: bool)
    requires Distinct(Object(ms), cs) && Distinct(w, cs)
    ensures var ns := DeleteKey(ms, key, cs) + [Entry(key, w)];
      && Distinct(Object(ns), cs)
      && CanonMembers(ns, cs) == CanonMembers(ms, cs)[Fold(key, cs) := Canonical(w, cs)]
  {
    var ds := DeleteKey(ms, key, cs);
    DeleteFromMap(ms, key, cs);
    CanonKeys(ds, cs);
    DistinctAppend(ds, key, w, cs);
    CanonAppend(ds, Entry(key, w), cs);
    DropThenPut(CanonMembers(ms, cs), Fold(key, cs), Canonical(w, cs));
  }

  lemma DropThenPut<K, V>(m: map<K, V>, k: K, v: V)
    ensures (m - {k})[k := v] == m[k := v]
  {
  }

  lemma DeleteFromMap(ms: seq<Entry<Value>>, key: string, cs: bool)
    requires Distinct(Object(ms), cs)
    ensures Distinct(Object(DeleteKey(ms, key, cs)), cs)
    ensures CanonMembers(DeleteKey(ms, key, cs), cs) == CanonMembers(ms, cs) - {Fold(key, cs)}
  {
    var i := FindMember(ms, key, cs);
    if i < |ms| {
      DistinctWithout(ms, i, cs);
      CanonWithout(ms, i, cs);
    } else {
      LookupReadsMap(ms, key, cs);
    }
  }

  /** The document after a patch: same map except at the path. */
  predicate PatchedTo(doc: Value, patches: seq<Value>, steps: seq<Step>, x: Canon, cs: bool) {
    && CGet(Canonical(doc, cs), steps, cs).Some?
    && var r := ApplyPatches(doc, patches, cs);
       && r.status == 0
       && Distinct(r.doc, cs)
       && Canonical(r.doc, cs) == CPut(Canonical(doc, cs), steps, x, cs)
  }

  lemma AddPatchIs(doc: Value, path: string, suffix: string, w: Value, cs: bool)
    ensures ApplyPatch(doc, ComposePatch("add", path, Some(suffix), Some(w)), cs)
         == AddAt(doc, path + "/" + EncodeToken(suffix), w, cs)
  {
    ComposedReads("add", path, Some(suffix), Some(w), cs);
  }

  lemma RemovePatchIs(doc: Value, path: string, suffix: string, cs: bool)
    ensures var d := DetachPath(doc, path + "/" + EncodeToken(suffix), cs);
      d.Some? ==> ApplyPatch(doc, ComposePatch("remove", path, Some(suffix), None), cs) == Outcome(0, d.value.rest)
  {
    var patch := ComposePatch("remove", path, Some(suffix), None);
    ComposedReads("remove", path, Some(suffix), None, cs);
    OperationIs(patch, "remove", REMOVE, cs);
    assert |path + "/" + EncodeToken(suffix)| > 0;
  }

  lemma OperationIs(patch: Value, name: string, operation: Operation, cs: bool)
    requires StringMember(patch, "op", cs) == Some(name)
    requires
      || (name == "add" && operation == ADD)
      || (name == "remove" && operation == REMOVE)
      || (name == "replace" && operation == REPLACE)
    ensures DecodeOperation(patch, cs) == operation
  {
    assert "replace"[2] != "remove"[2];
    assert |"add"| == 3 && |"remove"| == 6 && |"replace"| == 7;
  }

  lemma ReplacePatchIs(doc: Value, path: string, w: Value, cs: bool)
    ensures path == [] ==> ApplyPatch(doc, ComposePatch("replace", path, None, Some(w)), cs) == Outcome(0, w)
    ensures var d := DetachPath(doc, path, cs);
      path != [] && d.Some? ==>
      ApplyPatch(doc, ComposePatch("replace", path, None, Some(w)), cs) == AddAt(d.value.rest, path, w, cs)
  {
    ComposedReads("replace", path, None, Some(w), cs);
    OperationIs(ComposePatch("replace", path, None, Some(w)), "replace", REPLACE, cs);
  }

  /** A patch that rewrites the item at a path rewrites the map there. */
  lemma PatchWrites(doc: Value, patch: Value, steps: seq<Step>, at: seq<nat>, w: Value, cs: bool)
    requires Distinct(doc, cs) && Distinct(w, cs) && Resolve(doc, steps, cs) == Some(at) && HasNode(doc, at)
    requires ApplyPatch(doc, patch, cs) == Outcome(0, PutAt(doc, at, w))
    ensures PatchedTo(doc, [patch], steps, Canonical(w, cs), cs)
  {
    PutWritesMap(doc, steps, w, cs);
    assert [patch][1..] == [];
  }

  lemma AddMemberPatch(doc: Value, steps: seq<Step>, key: string, w: Value, cs: bool)
    requires Distinct(doc, cs) && Distinct(w, cs) && Addressable(steps) && Survives(key)
    requires CGet(Canonical(doc, cs), steps, cs).Some? && CGet(Canonical(doc, cs), steps, cs).value.CObject?
    ensures var m := CGet(Canonical(doc, cs), steps, cs).value.members;
      PatchedTo(doc, [ComposePatch("add", PathText(steps), Some(key), Some(w))], steps,
                CObject(m[Fold(key, cs) := Canonical(w, cs)]), cs)
  {
    var at := ItemAt(doc, steps, cs);
    var ms := NodeAt(doc, at).members;
    AddPatchIs(doc, PathText(steps), key, w, cs);
    AddMember(doc, steps, at, key, w, cs);
    DeleteThenAppend(ms, key, w, cs);
    PatchWrites(doc, ComposePatch("add", PathText(steps), Some(key), Some(w)), steps, at,
                Object(DeleteKey(ms, key, cs) + [Entry(key, w)]), cs);
  }

  lemma RemoveMemberPatch(doc: Value, steps: seq<Step>, key: string, cs: bool)
    requires Distinct(doc, cs) && Addressable(steps)
    requires CGet(Canonical(doc, cs), steps, cs).Some? && CGet(Canonical(doc, cs), steps, cs).value.CObject?
    requires Fold(key, cs) in CGet(Canonical(doc, cs), steps, cs).value.members
    requires Detachable(key, CGet(Canonical(doc, cs), steps, cs).value.members.Keys, cs)
    ensures var m := CGet(Canonical(doc, cs), steps, cs).value.members;
      PatchedTo(doc, [ComposePatch("remove", PathText(steps), Some(key), None)], steps,
                CObject(m - {Fold(key, cs)}), cs)
  {
    var at := ItemAt(doc, steps, cs);
    var ms := NodeAt(doc, at).members;
    LookupReadsMap(ms, key, cs);
    CanonKeys(ms, cs);
    var i := FindMember(ms, key, cs);
    DetachMember(doc, steps, at, key, cs);
    RemovePatchIs(doc, PathText(steps), key, cs);
    DistinctWithout(ms, i, cs);
    CanonWithout(ms, i, cs);
    PatchWrites(doc, ComposePatch("remove", PathText(steps), Some(key), None), steps, at, Object(RemoveAt(ms, i)), cs);
  }

  lemma RemoveItemApplies(doc: Value, steps: seq<Step>, at: seq<nat>, i: nat, cs: bool)
    requires Addressable(steps) && i < SIZE_LIMIT
    requires Resolve(doc, steps, cs) == Some(at) && HasNode(doc, at)
    requires NodeAt(doc, at).Array? && i < |NodeAt(doc, at).items|
    ensures ApplyPatch(doc, ComposePatch("remove", PathText(steps), Some(IndexText(i)), None), cs)
         == Outcome(0, PutAt(doc, at, Array(RemoveAt(NodeAt(doc, at).items, i))))
  {
    IndexTextSurvives(i);
    DetachItem(doc, steps, at, i, cs);
    RemovePatchIs(doc, PathText(steps), IndexText(i), cs);
  }

  lemma RemoveItemPatch(doc: Value, steps: seq<Step>, i: nat, cs: bool)
    requires Distinct(doc, cs) && Addressable(steps) && i < SIZE_LIMIT
    requires CGet(Canonical(doc, cs), steps, cs).Some? && CGet(Canonical(doc, cs), steps, cs).value.CArray?
    requires i < |CGet(Canonical(doc, cs), steps, cs).value.items|
    ensures var xs := CGet(Canonical(doc, cs), steps, cs).value.items;
      PatchedTo(doc, [ComposePatch("remove", PathText(steps), Some(IndexText(i)), None)], steps,
                CArray(RemoveAt(xs, i)), cs)
  {
    var at := ItemAt(doc, steps, cs);
    var items := NodeAt(doc, at).items;
    RemoveItemApplies(doc, steps, at, i, cs);
    CanonItemsWithout(items, i, cs);
    DistinctItemsWithout(items, i, cs);
    PatchWrites(doc, ComposePatch("remove", PathText(steps), Some(IndexText(i)), None), steps, at,
                Array(RemoveAt(items, i)), cs);
  }

  lemma DistinctItemsWithout(items: seq<Value>, i: nat, cs: bool)
    requires Distinct(Array(items), cs) && i < |items|
    ensures Distinct(Array(RemoveAt(items, i)), cs)
  {
  }

  lemma CanonItemsWithout(items: seq<Value>, i: nat, cs: bool)
    requires i < |items|
    ensures CanonItems(RemoveAt(items, i), cs) == RemoveAt(CanonItems(items, cs), i)
  {
  }

  lemma CanonItemsAppend(items: seq<Value>, w: Value, cs: bool)
    ensures CanonItems(items + [w], cs) == CanonItems(items, cs) + [Canonical(w, cs)]
  {
  }

  lemma AppendItemApplies(doc: Value, steps: seq<Step>, at: seq<nat>, w: Value, cs: bool)
    requires Addressable(steps) && Resolve(doc, steps, cs) == Some(at) && HasNode(doc, at) && NodeAt(doc, at).Array?
    ensures ApplyPatch(doc, ComposePatch("add", PathText(steps), Some("-"), Some(w)), cs)
         == Outcome(0, PutAt(doc, at, Array(NodeAt(doc, at).items + [w])))
  {
    PlainEncoding("-");
    AddPatchIs(doc, PathText(steps), "-", w, cs);
    AppendItem(doc, steps, at, w, cs);
  }

  lemma AppendItemPatch(doc: Value, steps: seq<Step>, w: Value, cs: bool)
    requires Distinct(doc, cs) && Distinct(w, cs) && Addressable(steps)
    requires CGet(Canonical(doc, cs), steps, cs).Some? && CGet(Canonical(doc, cs), steps, cs).value.CArray?
    ensures var xs := CGet(Canonical(doc, cs), steps, cs).value.items;
      PatchedTo(doc, [ComposePatch("add", PathText(steps), Some("-"), Some(w))], steps,
                CArray(xs + [Canonical(w, cs)]), cs)
  {
    var at := ItemAt(doc, steps, cs);
    var items := NodeAt(doc, at).items;
    AppendItemApplies(doc, steps, at, w, cs);
    CanonItemsAppend(items, w, cs);
    PatchWrites(doc, ComposePatch("add", PathText(steps), Some("-"), Some(w)), steps, at, Array(items + [w]), cs);
  }

  // Composing patches

  lemma {:induction false} ApplyAppend(doc: Value, p: seq<Value>, q: seq<Value>, cs: bool)
    requires ApplyPatches(doc, p, cs).status == 0
    ensures ApplyPatches(doc, p + q, cs) == ApplyPatches(ApplyPatches(doc, p, cs).doc, q, cs)
    decreases |p|
  {
    if p == [] {
      assert p + q == q;
    } else {
      assert (p + q)[1..] == p[1..] + q;
      ApplyAppend(ApplyPatch(doc, p[0], cs).doc, p[1..], q, cs);
    }
  }

  lemma PatchedThen(doc: Value, p: seq<Value>, q: seq<Value>, steps: seq<Step>, x: Canon, y: Canon, cs: bool)
    requires PatchedTo(doc, p, steps, x, cs)
    requires PatchedTo(ApplyPatches(doc, p, cs).doc, q, steps, y, cs)
    ensures PatchedTo(doc, p + q, steps, y, cs)
  {
    ApplyAppend(doc, p, q, cs);
    CPutLaws(Canonical(doc, cs), steps, x, y, cs);
  }

  lemma NothingToPatch(doc: Value, steps: seq<Step>, cs: bool)
    requires Distinct(doc, cs) && CGet(Canonical(doc, cs), steps, cs).Some?
    ensures PatchedTo(doc, [], steps, CGet(Canonical(doc, cs), steps, cs).value, cs)
  {
    CPutLaws(Canonical(doc, cs), steps, CNull, CNull, cs);
  }

  lemma PatchedGet(doc: Value, p: seq<Value>, steps: seq<Step>, x: Canon, cs: bool)
    requires PatchedTo(doc, p, steps, x, cs)
    ensures CGet(Canonical(ApplyPatches(doc, p, cs).doc, cs), steps, cs) == Some(x)
  {
    CPutLaws(Canonical(doc, cs), steps, x, x, cs);
  }

  lemma PatchedBelow(doc: Value, p: seq<Value>, steps: seq<Step>, s: Step, x: Canon, cs: bool)
    requires PatchedTo(doc, p, steps + [s], x, cs)
    requires CGet(Canonical(doc, cs), steps, cs).Some?
    requires CGet(CGet(Canonical(doc, cs), steps, cs).value, [s], cs).Some?
    ensures PatchedTo(doc, p, steps, CPut(CGet(Canonical(doc, cs), steps, cs).value, [s], x, cs), cs)
  {
    CPutDeeper(Canonical(doc, cs), steps, s, x, cs);
  }

  lemma PatchedAbove(doc: Value, p: seq<Value>, steps: seq<Step>, s: Step, x: Canon, cs: bool)
    requires CGet(Canonical(doc, cs), steps, cs).Some?
    requires CGet(CGet(Canonical(doc, cs), steps, cs).value, [s], cs).Some?
    requires PatchedTo(doc, p, steps, CPut(CGet(Canonical(doc, cs), steps, cs).value, [s], x, cs), cs)
    ensures PatchedTo(doc, p, steps + [s], x, cs)
  {
    CPutDeeper(Canonical(doc, cs), steps, s, x, cs);
  }

  lemma {:induction false} CGetPrefix(c: Canon, steps: seq<Step>, s: Step, cs: bool)
    requires CGet(c, steps + [s], cs).Some?
    ensures CGet(c, steps, cs).Some?
    ensures CGet(CGet(c, steps, cs).value, [s], cs).Some?
    decreases |steps|
  {
    if steps == [] {
      assert steps + [s] == [s];
    } else {
      assert (steps + [s])[1..] == steps[1..] + [s];
      match (c, steps[0])
      case (CArray(items), Index(i)) => CGetPrefix(items[i], steps[1..], s, cs);
      case (CObject(m), Key(name)) => CGetPrefix(m[Fold(name, cs)], steps[1..], s, cs);
    }
  }

  // Replacing

  /** What an item must satisfy that is to be replaced: a member is found by its key alone. */
  predicate StepFits(c: Canon, init: seq<Step>, s: Step, cs: bool)
    requires CGet(c, init, cs).Some?
  {
    match (CGet(c, init, cs).value, s)
    case (CObject(m), Key(name)) => Detachable(name, m.Keys, cs)
    case _ => true
  }

  predicate PathFits(c: Canon, steps: seq<Step>, cs: bool) {
    steps != [] && CGet(c, steps[..|steps| - 1], cs).Some? ==>
      StepFits(c, steps[..|steps| - 1], steps[|steps| - 1], cs)
  }

  lemma {:induction false} PutTwiceAt(v: Value, at: seq<nat>, x: Value, y: Value)
    requires HasNode(v, at)
    ensures HasNode(PutAt(v, at, x), at) && PutAt(PutAt(v, at, x), at, y) == PutAt(v, at, y)
    decreases |at|
  {
    if at != [] {
      PutTwiceAt(Children(v)[at[0]], at[1..], x, y);
      ChildTwice(v, at[0], PutAt(Children(v)[at[0]], at[1..], x), PutAt(Children(v)[at[0]], at[1..], y));
    }
  }

  lemma ChildTwice(v: Value, i: nat, x: Value, y: Value)
    requires i < |Children(v)|
    ensures Children(WithChild(v, i, x))[i] == x
    ensures WithChild(WithChild(v, i, x), i, y) == WithChild(v, i, y)
  {
  }

  lemma PathTextSnoc(steps: seq<Step>, s: Step)
    ensures PathText(steps + [s]) == PathText(steps) + "/" + StepText(s)
  {
    PathTextAppend(steps, [s]);
    assert [s][1..] == [];
    assert PathText([s]) == "/" + StepText(s);
  }

  lemma ReplaceMemberPatch(doc: Value, steps: seq<Step>, key: string, w: Value, cs: bool)
    requires Distinct(doc, cs) && Distinct(w, cs) && Addressable(steps)
    requires CGet(Canonical(doc, cs), steps, cs).Some? && CGet(Canonical(doc, cs), steps, cs).value.CObject?
    requires Fold(key, cs) in CGet(Canonical(doc, cs), steps, cs).value.members
    requires Detachable(key, CGet(Canonical(doc, cs), steps, cs).value.members.Keys, cs)
    ensures var m := CGet(Canonical(doc, cs), steps, cs).value.members;
      PatchedTo(doc, [ComposePatch("replace", PathText(steps + [Key(key)]), None, Some(w))], steps,
                CObject(m[Fold(key, cs) := Canonical(w, cs)]), cs)
  {
    var at := ItemAt(doc, steps, cs);
    var ms := NodeAt(doc, at).members;
    LookupReadsMap(ms, key, cs);
    CanonKeys(ms, cs);
    var i := FindMember(ms, key, cs);
    var rest := RemoveAt(ms, i);
    PathTextSnoc(steps, Key(key));
    ReplacePatchIs(doc, PathText(steps + [Key(key)]), w, cs);
    DetachMember(doc, steps, at, key, cs);
    DistinctWithout(ms, i, cs);
    PutWritesMap(doc, steps, Object(rest), cs);
    AddMember(PutAt(doc, at, Object(rest)), steps, at, key, w, cs);
    var ns := DeleteKey(rest, key, cs) + [Entry(key, w)];
    PutTwiceAt(doc, at, Object(rest), Object(ns));
    DeleteThenAppend(rest, key, w, cs);
    CanonWithout(ms, i, cs);
    DropThenPut(CanonMembers(ms, cs), Fold(key, cs), Canonical(w, cs));
    PatchWrites(doc, ComposePatch("replace", PathText(steps + [Key(key)]), None, Some(w)), steps, at, Object(ns), cs);
  }

  /** Detaching an element and inserting at its index is an update. */
  lemma ReplaceItemApplies(doc: Value, steps: seq<Step>, at: seq<nat>, i: nat, w: Value, cs: bool)
    requires Distinct(doc, cs) && Addressable(steps) && i < SIZE_LIMIT
    requires Resolve(doc, steps, cs) == Some(at) && HasNode(doc, at) && Distinct(NodeAt(doc, at), cs)
    requires NodeAt(doc, at).Array? && i < |NodeAt(doc, at).items|
    ensures ApplyPatch(doc, ComposePatch("replace", PathText(steps + [Index(i)]), None, Some(w)), cs)
         == Outcome(0, PutAt(doc, at, Array(NodeAt(doc, at).items[i := w])))
  {
    var items := NodeAt(doc, at).items;
    var rest := RemoveAt(items, i);
    PathTextSnoc(steps, Index(i));
    ReplacePatchIs(doc, PathText(steps + [Index(i)]), w, cs);
    DetachItem(doc, steps, at, i, cs);
    PutWritesMap(doc, steps, Array(rest), cs);
    InsertItem(PutAt(doc, at, Array(rest)), steps, at, i, w, cs);
    InsertBack(items, i, w);
    PutTwiceAt(doc, at, Array(rest), Array(items[i := w]));
  }

  lemma InsertBack<T>(s: seq<T>, i: nat, w: T)
    requires i < |s|
    ensures RemoveAt(s, i)[..i] + [w] + RemoveAt(s, i)[i..] == s[i := w]
  {
  }

  lemma ReplaceItemPatch(doc: Value, steps: seq<Step>, i: nat, w: Value, cs: bool)
    requires Distinct(doc, cs) && Distinct(w, cs) && Addressable(steps) && i < SIZE_LIMIT
    requires CGet(Canonical(doc, cs), steps, cs).Some? && CGet(Canonical(doc, cs), steps, cs).value.CArray?
    requires i < |CGet(Canonical(doc, cs), steps, cs).value.items|
    ensures var xs := CGet(Canonical(doc, cs), steps, cs).value.items;
      PatchedTo(doc, [ComposePatch("replace", PathText(steps + [Index(i)]), None, Some(w))], steps,
                CArray(xs[i := Canonical(w, cs)]), cs)
  {
    var at := ItemAt(doc, steps, cs);
    var items := NodeAt(doc, at).items;
    ReplaceItemApplies(doc, steps, at, i, w, cs);
    PutInArray(items, i, w, cs);
    PatchWrites(doc, ComposePatch("replace", PathText(steps + [Index(i)]), None, Some(w)), steps, at,
                Array(items[i := w]), cs);
  }

  lemma CPutKey(c: Canon, name: string, x: Canon, cs: bool)
    requires CGet(c, [Key(name)], cs).Some?
    ensures c.CObject? && Fold(name, cs) in c.members
    ensures CPut(c, [Key(name)], x, cs) == CObject(c.members[Fold(name, cs) := x])
  {
    assert [Key(name)][1..] == [];
  }

  lemma CPutIndex(c: Canon, i: nat, x: Canon, cs: bool)
    requires CGet(c, [Index(i)], cs).Some?
    ensures c.CArray? && i < |c.items|
    ensures CPut(c, [Index(i)], x, cs) == CArray(c.items[i := x])
  {
    assert [Index(i)][1..] == [];
  }

  lemma ReplaceKeyBelow(doc: Value, init: seq<Step>, name: string, w: Value, cs: bool)
    requires Distinct(doc, cs) && Distinct(w, cs) && Addressable(init)
    requires CGet(Canonical(doc, cs), init + [Key(name)], cs).Some?
    requires CGet(Canonical(doc, cs), init, cs).Some? && StepFits(Canonical(doc, cs), init, Key(name), cs)
    ensures PatchedTo(doc, [ComposePatch("replace", PathText(init + [Key(name)]), None, Some(w))],
                      init + [Key(name)], Canonical(w, cs), cs)
  {
    CGetPrefix(Canonical(doc, cs), init, Key(name), cs);
    CPutKey(CGet(Canonical(doc, cs), init, cs).value, name, Canonical(w, cs), cs);
    ReplaceMemberPatch(doc, init, name, w, cs);
    PatchedAbove(doc, [ComposePatch("replace", PathText(init + [Key(name)]), None, Some(w))], init, Key(name),
                 Canonical(w, cs), cs);
  }

  lemma ReplaceIndexBelow(doc: Value, init: seq<Step>, i: nat, w: Value, cs: bool)
    requires Distinct(doc, cs) && Distinct(w, cs) && Addressable(init) && i < SIZE_LIMIT
    requires CGet(Canonical(doc, cs), init + [Index(i)], cs).Some?
    ensures PatchedTo(doc, [ComposePatch("replace", PathText(init + [Index(i)]), None, Some(w))],
                      init + [Index(i)], Canonical(w, cs), cs)
  {
    CGetPrefix(Canonical(doc, cs), init, Index(i), cs);
    CPutIndex(CGet(Canonical(doc, cs), init, cs).value, i, Canonical(w, cs), cs);
    ReplaceItemPatch(doc, init, i, w, cs);
    PatchedAbove(doc, [ComposePatch("replace", PathText(init + [Index(i)]), None, Some(w))], init, Index(i),
                 Canonical(w, cs), cs);
  }

  lemma ReplacePatch(doc: Value, steps: seq<Step>, w: Value, cs: bool)
    requires Distinct(doc, cs) && Distinct(w, cs) && Addressable(steps)
    requires CGet(Canonical(doc, cs), steps, cs).Some? && PathFits(Canonical(doc, cs), steps, cs)
    ensures PatchedTo(doc, [ComposePatch("replace", PathText(steps), None, Some(w))], steps, Canonical(w, cs), cs)
  {
    if steps == [] {
      ReplacePatchIs(doc, [], w, cs);
      PatchWrites(doc, ComposePatch("replace", [], None, Some(w)), [], [], w, cs);
    } else {
      var init := steps[..|steps| - 1];
      assert steps == init + [steps[|steps| - 1]];
      CGetPrefix(Canonical(doc, cs), init, steps[|steps| - 1], cs);
      match steps[|steps| - 1]
      case Key(name) => ReplaceKeyBelow(doc, init, name, w, cs);
      case Index(i) => ReplaceIndexBelow(doc, init, i, w, cs);
    }
  }

  // The round trip

  /** Every prefix of the tree's patches turns the item at the path step by step into the target. */
  lemma {:induction false} Replay(doc: Value, steps: seq<Step>, from: Value, to: Value, cs: bool)
    requires Distinct(doc, cs) && Distinct(from, cs) && Distinct(to, cs) && Addressable(steps)
    requires Replayable(from, to, cs) && (Replaced(from, to) ==> PathFits(Canonical(doc, cs), steps, cs))
    requires CGet(Canonical(doc, cs), steps, cs) == Some(Canonical(from, cs))
    ensures PatchedTo(doc, CreatePatches(PathText(steps), from, to, cs), steps, Canonical(to, cs), cs)
    decreases Height(from), 0
  {
    if Replaced(from, to) {
      ReplacePatch(doc, steps, to, cs);
    } else if from.Array? {
      assert [] + CanonItems(from.items, cs) == CanonItems(from.items, cs);
      assert [] + CanonItems(to.items, cs) == CanonItems(to.items, cs);
      ReplayItems(doc, steps, [], from.items, to.items, cs);
    } else if from.Object? {
      ReplayObject(doc, steps, from.members, to.members, cs);
    } else {
      NothingToPatch(doc, steps, cs);
    }
  }

  lemma {:induction false} ReplayItems(
      doc: Value, steps: seq<Step>, finished: seq<Canon>, from: seq<Value>, to: seq<Value>, cs: bool)
    requires Distinct(doc, cs) && Addressable(steps)
    requires AllDistinct(from, cs) && AllDistinct(to, cs) && ItemsReplayable(from, to, cs)
    requires |finished| + |from| <= SIZE_LIMIT && |finished| + |to| <= SIZE_LIMIT
    requires CGet(Canonical(doc, cs), steps, cs) == Some(CArray(finished + CanonItems(from, cs)))
    ensures PatchedTo(doc, PatchItems(PathText(steps), from, to, |finished|, cs), steps,
                      CArray(finished + CanonItems(to, cs)), cs)
    decreases ItemsHeight(from), |from| + |to|, 2
  {
    if from != [] && to != [] {
      ReplayCommonItem(doc, steps, finished, from, to, cs);
    } else if from != [] {
      ReplayLeftover(doc, steps, finished, from, cs);
    } else if to != [] {
      assert finished + CanonItems([], cs) == finished;
      ReplayAddition(doc, steps, finished, to, cs);
    } else {
      NothingToPatch(doc, steps, cs);
    }
  }

  lemma {:induction false} ReplayCommonItem(
      doc: Value, steps: seq<Step>, finished: seq<Canon>, from: seq<Value>, to: seq<Value>, cs: bool)
    requires Distinct(doc, cs) && Addressable(steps) && from != [] && to != []
    requires AllDistinct(from, cs) && AllDistinct(to, cs) && ItemsReplayable(from, to, cs)
    requires |finished| + |from| <= SIZE_LIMIT && |finished| + |to| <= SIZE_LIMIT
    requires CGet(Canonical(doc, cs), steps, cs) == Some(CArray(finished + CanonItems(from, cs)))
    ensures PatchedTo(doc, PatchItems(PathText(steps), from, to, |finished|, cs), steps,
                      CArray(finished + CanonItems(to, cs)), cs)
    decreases ItemsHeight(from), |from| + |to|, 1
  {
    var p := CreatePatches(PathText(steps) + "/" + IndexText(|finished|), from[0], to[0], cs);
    var finished' := finished + [Canonical(to[0], cs)];
    var x := CArray(finished' + CanonItems(from[1..], cs));
    ReplayFirstItem(doc, steps, finished, from, to[0], cs);
    PatchedGet(doc, p, steps, x, cs);
    ReplayItems(ApplyPatches(doc, p, cs).doc, steps, finished', from[1..], to[1..], cs);
    CanonItemsFirst(finished, to, cs);
    PatchedThen(doc, p, PatchItems(PathText(steps), from[1..], to[1..], |finished| + 1, cs), steps, x,
                CArray(finished' + CanonItems(to[1..], cs)), cs);
  }

  lemma {:induction false} ReplayLeftover(
      doc: Value, steps: seq<Step>, finished: seq<Canon>, from: seq<Value>, cs: bool)
    requires Distinct(doc, cs) && Addressable(steps) && from != []
    requires AllDistinct(from, cs)
    requires |finished| + |from| <= SIZE_LIMIT
    requires CGet(Canonical(doc, cs), steps, cs) == Some(CArray(finished + CanonItems(from, cs)))
    ensures PatchedTo(doc, PatchItems(PathText(steps), from, [], |finished|, cs), steps,
                      CArray(finished + CanonItems([], cs)), cs)
    decreases ItemsHeight(from), |from|, 0
  {
    var p := [ComposePatch("remove", PathText(steps), Some(IndexText(|finished|)), None)];
    var x := CArray(finished + CanonItems(from[1..], cs));
    RemoveItemPatch(doc, steps, |finished|, cs);
    DropFirst(finished, from, cs);
    PatchedGet(doc, p, steps, x, cs);
    ReplayItems(ApplyPatches(doc, p, cs).doc, steps, finished, from[1..], [], cs);
    PatchedThen(doc, p, PatchItems(PathText(steps), from[1..], [], |finished|, cs), steps, x,
                CArray(finished + CanonItems([], cs)), cs);
  }

  lemma AddToEnd(doc: Value, steps: seq<Step>, finished: seq<Canon>, w: Value, cs: bool)
    requires Distinct(doc, cs) && Addressable(steps) && Distinct(w, cs)
    requires CGet(Canonical(doc, cs), steps, cs) == Some(CArray(finished))
    ensures PatchedTo(doc, [ComposePatch("add", PathText(steps), Some("-"), Some(w))], steps,
                      CArray(finished + [Canonical(w, cs)]), cs)
  {
    AppendItemPatch(doc, steps, w, cs);
  }

  lemma {:induction false} ReplayAddition(
      doc: Value, steps: seq<Step>, finished: seq<Canon>, to: seq<Value>, cs: bool)
    requires Distinct(doc, cs) && Addressable(steps) && to != []
    requires AllDistinct(to, cs)
    requires |finished| + |to| <= SIZE_LIMIT
    requires CGet(Canonical(doc, cs), steps, cs) == Some(CArray(finished))
    ensures PatchedTo(doc, PatchItems(PathText(steps), [], to, |finished|, cs), steps,
                      CArray(finished + CanonItems(to, cs)), cs)
    decreases ItemsHeight([]), |to|, 0
  {
    var p := [ComposePatch("add", PathText(steps), Some("-"), Some(to[0]))];
    var finished' := finished + [Canonical(to[0], cs)];
    AddToEnd(doc, steps, finished, to[0], cs);
    PatchedGet(doc, p, steps, CArray(finished'), cs);
    assert finished' + CanonItems([], cs) == finished';
    var rest := PatchItems(PathText(steps), [], to[1..], |finished'|, cs);
    ReplayItems(ApplyPatches(doc, p, cs).doc, steps, finished', [], to[1..], cs);
    PatchedThen(doc, p, rest, steps, CArray(finished'), CArray(finished' + CanonItems(to[1..], cs)), cs);
    CanonItemsFirst(finished, to, cs);
    AdditionsGoOn(PathText(steps), to, |finished|, |finished'|, cs);
  }

  lemma {:induction false} AdditionsGoOn(path: string, to: seq<Value>, n: nat, next: nat, cs: bool)
    requires to != [] && next == n + 1
    ensures PatchItems(path, [], to, n, cs)
         == [ComposePatch("add", path, Some("-"), Some(to[0]))] + PatchItems(path, [], to[1..], next, cs)
  {
  }

  lemma CanonItemsFirst(finished: seq<Canon>, to: seq<Value>, cs: bool)
    requires to != []
    ensures finished + [Canonical(to[0], cs)] + CanonItems(to[1..], cs) == finished + CanonItems(to, cs)
  {
    CanonItemsCons(to, cs);
  }

  lemma DropFirst(finished: seq<Canon>, from: seq<Value>, cs: bool)
    requires from != []
    ensures RemoveAt(finished + CanonItems(from, cs), |finished|) == finished + CanonItems(from[1..], cs)
  {
    CanonItemsCons(from, cs);
  }

  lemma SetFirst(finished: seq<Canon>, from: seq<Value>, x: Canon, cs: bool)
    requires from != []
    ensures (finished + CanonItems(from, cs))[|finished| := x] == finished + [x] + CanonItems(from[1..], cs)
  {
    CanonItemsCons(from, cs);
  }

  lemma FirstLeft(finished: seq<Canon>, from: seq<Value>, cs: bool)
    requires from != []
    ensures CGet(CArray(finished + CanonItems(from, cs)), [Index(|finished|)], cs) == Some(Canonical(from[0], cs))
  {
    CanonItemsCons(from, cs);
    assert [Index(|finished|)][1..] == [];
  }

  /** The element both arrays have at the current index. */
  lemma {:induction false} ReplayFirstItem(
      doc: Value, steps: seq<Step>, finished: seq<Canon>, from: seq<Value>, to: Value, cs: bool)
    requires Distinct(doc, cs) && Addressable(steps) && from != []
    requires Distinct(from[0], cs) && Distinct(to, cs) && Replayable(from[0], to, cs) && |finished| < SIZE_LIMIT
    requires CGet(Canonical(doc, cs), steps, cs) == Some(CArray(finished + CanonItems(from, cs)))
    ensures PatchedTo(doc, CreatePatches(PathText(steps) + "/" + IndexText(|finished|), from[0], to, cs), steps,
                      CArray(finished + [Canonical(to, cs)] + CanonItems(from[1..], cs)), cs)
    decreases ItemsHeight(from), 1
  {
    var s := Index(|finished|);
    var c := CArray(finished + CanonItems(from, cs));
    FirstLeft(finished, from, cs);
    CPutDeeper(Canonical(doc, cs), steps, s, CNull, cs);
    PathTextSnoc(steps, s);
    Replay(doc, steps + [s], from[0], to, cs);
    var p := CreatePatches(PathText(steps) + "/" + IndexText(|finished|), from[0], to, cs);
    PatchedBelow(doc, p, steps, s, Canonical(to, cs), cs);
    CPutIndex(c, |finished|, Canonical(to, cs), cs);
    SetFirst(finished, from, Canonical(to, cs), cs);
  }

  lemma {:induction false} ReplayObject(
      doc: Value, steps: seq<Step>, from: seq<Entry<Value>>, to: seq<Entry<Value>>, cs: bool)
    requires Distinct(doc, cs) && Addressable(steps)
    requires Distinct(Object(from), cs) && Distinct(Object(to), cs)
    requires MembersReplayable({}, Sort(from, cs), Sort(to, cs), cs)
    requires CGet(Canonical(doc, cs), steps, cs) == Some(CObject(CanonMembers(from, cs)))
    ensures PatchedTo(doc, PatchMembers(PathText(steps), Sort(from, cs), Sort(to, cs), cs), steps,
                      CObject(CanonMembers(to, cs)), cs)
    decreases MembersHeight(from), 4 * (|from| + |to|) + 1
  {
    StartWalk(from, to, cs);
    SortKeepsHeight(from, cs);
    ReplayMembers(doc, steps, map[], Sort(from, cs), Sort(to, cs), cs);
  }

  lemma StartWalk(from: seq<Entry<Value>>, to: seq<Entry<Value>>, cs: bool)
    requires Distinct(Object(from), cs) && Distinct(Object(to), cs)
    requires MembersReplayable({}, Sort(from, cs), Sort(to, cs), cs)
    ensures Walked(map[], Sort(from, cs), Sort(to, cs), cs)
    ensures map[] + CanonMembers(Sort(from, cs), cs) == CanonMembers(from, cs)
    ensures map[] + CanonMembers(Sort(to, cs), cs) == CanonMembers(to, cs)
  {
    SortIsStrict(from, cs);
    SortIsStrict(to, cs);
    SortKeepsCanon(from, cs);
    SortKeepsCanon(to, cs);
    SortKeepsValuesDistinct(from, cs, cs);
    SortKeepsValuesDistinct(to, cs, cs);
    NothingSettled(CanonMembers(from, cs));
    NothingSettled(CanonMembers(to, cs));
    var none: map<string, Canon> := map[];
    assert none.Keys == {};
  }

  lemma NothingSettled(m: map<string, Canon>)
    ensures map[] + m == m
  {
  }

  /** What is left of both member lists while the object is walked. */
  ghost predicate Walked(
      finished: map<string, Canon>, from: seq<Entry<Value>>, to: seq<Entry<Value>>, cs: bool) {
    && StrictlySorted(from, cs) && StrictlySorted(to, cs)
    && AllValuesDistinct(from, cs) && AllValuesDistinct(to, cs)
    && finished.Keys !! KeySet(from, cs) && finished.Keys !! KeySet(to, cs)
    && MembersReplayable(finished.Keys, from, to, cs)
  }

  /** finished is what has been settled; the rest of the object still holds the members of from. */
  lemma {:induction false} ReplayMembers(
      doc: Value, steps: seq<Step>, finished: map<string, Canon>, from: seq<Entry<Value>>, to: seq<Entry<Value>>,
      cs: bool)
    requires Distinct(doc, cs) && Addressable(steps)
    requires Walked(finished, from, to, cs)
    requires CGet(Canonical(doc, cs), steps, cs) == Some(CObject(finished + CanonMembers(from, cs)))
    ensures PatchedTo(doc, PatchMembers(PathText(steps), from, to, cs), steps,
                      CObject(finished + CanonMembers(to, cs)), cs)
    decreases MembersHeight(from), 4 * (|from| + |to|)
  {
    if from == [] && to == [] {
      NothingToPatch(doc, steps, cs);
    } else {
      var diff := if from == [] then 1 else if to == [] then -1 else Compare(from[0].key, to[0].key, cs);
      if diff == 0 {
        ReplayCommon(doc, steps, finished, from, to, cs);
      } else if diff < 0 {
        ReplayRemoved(doc, steps, finished, from, to, cs);
      } else {
        ReplayAdded(doc, steps, finished, from, to, cs);
      }
    }
  }

  /** Moving the head of a sorted list to the settled part. */
  lemma SettleHead(finished: map<string, Canon>, ms: seq<Entry<Value>>, x: Canon, cs: bool)
    requires StrictlySorted(ms, cs) && ms != [] && finished.Keys !! KeySet(ms, cs)
    ensures var k := Fold(ms[0].key, cs);
      && k in finished + CanonMembers(ms, cs)
      && (finished + CanonMembers(ms, cs))[k] == Canonical(ms[0].value, cs)
      && (finished + CanonMembers(ms, cs))[k := x] == finished[k := x] + CanonMembers(ms[1..], cs)
      && (finished + CanonMembers(ms, cs)) - {k} == finished + CanonMembers(ms[1..], cs)
      && finished[k := Canonical(ms[0].value, cs)] + CanonMembers(ms[1..], cs) == finished + CanonMembers(ms, cs)
      && finished[k := x].Keys !! KeySet(ms[1..], cs)
      && finished.Keys !! KeySet(ms[1..], cs)
      && StrictlySorted(ms[1..], cs)
  {
    StrictIsDistinct(ms, cs);
    StrictTail(ms, cs);
    CanonKeys(ms[1..], cs);
    CanonKeys(ms, cs);
    SettleInMap(finished, CanonMembers(ms[1..], cs), Fold(ms[0].key, cs), Canonical(ms[0].value, cs), x);
  }

  lemma SettleInMap(finished: map<string, Canon>, rest: map<string, Canon>, k: string, v: Canon, x: Canon)
    requires k !in finished && k !in rest
    ensures var m := finished + rest[k := v];
      && k in m && m[k] == v
      && m[k := x] == finished[k := x] + rest
      && m - {k} == finished + rest
      && finished[k := v] + rest == m
  {
  }

  /** The object holds the settled keys and those still to come. */
  lemma KeysOfBoth(finished: map<string, Canon>, from: seq<Entry<Value>>, cs: bool)
    ensures (finished + CanonMembers(from, cs)).Keys == finished.Keys + KeySet(from, cs)
  {
    CanonKeys(from, cs);
  }

  lemma WalkCommon(finished: map<string, Canon>, from: seq<Entry<Value>>, to: seq<Entry<Value>>, x: Canon, cs: bool)
    requires Walked(finished, from, to, cs) && from != [] && to != []
    requires Compare(from[0].key, to[0].key, cs) == 0 && x == Canonical(to[0].value, cs)
    ensures var k, c := Fold(from[0].key, cs), finished + CanonMembers(from, cs);
      && k in c && c[k] == Canonical(from[0].value, cs)
      && c[k := x] == finished[k := x] + CanonMembers(from[1..], cs)
      && finished[k := x] + CanonMembers(to[1..], cs) == finished + CanonMembers(to, cs)
      && Walked(finished[k := x], from[1..], to[1..], cs)
      && Replayable(from[0].value, to[0].value, cs)
      && (Replaced(from[0].value, to[0].value) ==> Detachable(from[0].key, c.Keys, cs))
  {
    CompareIsTotalOrder(from[0].key, to[0].key, from[0].key, cs);
    SettleHead(finished, from, x, cs);
    SettleHead(finished, to, x, cs);
    KeysOfBoth(finished, from, cs);
    assert finished[Fold(from[0].key, cs) := x].Keys == finished.Keys + {Fold(from[0].key, cs)};
  }

  lemma WalkRemoved(finished: map<string, Canon>, from: seq<Entry<Value>>, to: seq<Entry<Value>>, cs: bool)
    requires Walked(finished, from, to, cs) && from != []
    requires to != [] ==> Compare(from[0].key, to[0].key, cs) < 0
    ensures Walked(finished, from[1..], to, cs)
    ensures Detachable(from[0].key, (finished + CanonMembers(from, cs)).Keys, cs)
  {
    SettleHead(finished, from, CNull, cs);
    KeysOfBoth(finished, from, cs);
  }

  lemma WalkAdded(finished: map<string, Canon>, from: seq<Entry<Value>>, to: seq<Entry<Value>>, x: Canon, cs: bool)
    requires Walked(finished, from, to, cs) && to != [] && x == Canonical(to[0].value, cs)
    requires from != [] ==> Compare(from[0].key, to[0].key, cs) > 0
    ensures var k := Fold(to[0].key, cs);
      && k !in KeySet(from, cs) && Survives(to[0].key) && Distinct(to[0].value, cs)
      && finished[k := x] + CanonMembers(to[1..], cs) == finished + CanonMembers(to, cs)
      && Walked(finished[k := x], from, to[1..], cs)
  {
    if from != [] { CompareIsTotalOrder(from[0].key, to[0].key, to[0].key, cs); }
    BelowHeadIsAbsent(to[0].key, from, cs);
    SettleHead(finished, to, x, cs);
    assert finished[Fold(to[0].key, cs) := x].Keys == finished.Keys + {Fold(to[0].key, cs)};
  }

  /** The walk goes on behind the patches for the first members. */
  lemma {:induction false} ReplayRest(
      doc: Value, steps: seq<Step>, p: seq<Value>, finished: map<string, Canon>, from: seq<Entry<Value>>,
      to: seq<Entry<Value>>, cs: bool)
    requires Addressable(steps) && Walked(finished, from, to, cs)
    requires PatchedTo(doc, p, steps, CObject(finished + CanonMembers(from, cs)), cs)
    ensures PatchedTo(doc, p + PatchMembers(PathText(steps), from, to, cs), steps,
                      CObject(finished + CanonMembers(to, cs)), cs)
    decreases MembersHeight(from), 4 * (|from| + |to|) + 1
  {
    var c := CObject(finished + CanonMembers(from, cs));
    PatchedGet(doc, p, steps, c, cs);
    ReplayMembers(ApplyPatches(doc, p, cs).doc, steps, finished, from, to, cs);
    PatchedThen(doc, p, PatchMembers(PathText(steps), from, to, cs), steps, c,
                CObject(finished + CanonMembers(to, cs)), cs);
  }

  lemma {:induction false} ReplayCommon(
      doc: Value, steps: seq<Step>, finished: map<string, Canon>, from: seq<Entry<Value>>, to: seq<Entry<Value>>,
      cs: bool)
    requires Distinct(doc, cs) && Addressable(steps)
    requires Walked(finished, from, to, cs)
    requires CGet(Canonical(doc, cs), steps, cs) == Some(CObject(finished + CanonMembers(from, cs)))
    requires from != [] && to != [] && Compare(from[0].key, to[0].key, cs) == 0
    ensures PatchedTo(doc, PatchMembers(PathText(steps), from, to, cs), steps,
                      CObject(finished + CanonMembers(to, cs)), cs)
    decreases MembersHeight(from), 4 * (|from| + |to|) - 1
  {
    var key, x := from[0].key, Canonical(to[0].value, cs);
    var p := CreatePatches(PathText(steps) + "/" + EncodeToken(key), from[0].value, to[0].value, cs);
    WalkCommon(finished, from, to, x, cs);
    ReplayFirstMember(doc, steps, finished + CanonMembers(from, cs), from, to[0].value, cs);
    ReplayRest(doc, steps, p, finished[Fold(key, cs) := x], from[1..], to[1..], cs);
  }

  lemma {:induction false} ReplayFirstMember(
      doc: Value, steps: seq<Step>, m: map<string, Canon>, from: seq<Entry<Value>>, to: Value, cs: bool)
    requires Distinct(doc, cs) && Addressable(steps) && from != [] && Distinct(from[0].value, cs) && Distinct(to, cs)
    requires Replayable(from[0].value, to, cs)
    requires Replaced(from[0].value, to) ==> Detachable(from[0].key, m.Keys, cs)
    requires CGet(Canonical(doc, cs), steps, cs) == Some(CObject(m))
    requires Fold(from[0].key, cs) in m && m[Fold(from[0].key, cs)] == Canonical(from[0].value, cs)
    ensures PatchedTo(doc, CreatePatches(PathText(steps) + "/" + EncodeToken(from[0].key), from[0].value, to, cs),
                      steps, CObject(m[Fold(from[0].key, cs) := Canonical(to, cs)]), cs)
    decreases MembersHeight(from), 1
  {
    var s := Key(from[0].key);
    assert [s][1..] == [];
    CPutDeeper(Canonical(doc, cs), steps, s, CNull, cs);
    PathTextSnoc(steps, s);
    Replay(doc, steps + [s], from[0].value, to, cs);
    var p := CreatePatches(PathText(steps) + "/" + EncodeToken(from[0].key), from[0].value, to, cs);
    PatchedBelow(doc, p, steps, s, Canonical(to, cs), cs);
    CPutKey(CObject(m), from[0].key, Canonical(to, cs), cs);
  }

  lemma RemoveFirst(
      doc: Value, steps: seq<Step>, finished: map<string, Canon>, from: seq<Entry<Value>>, cs: bool)
    requires Distinct(doc, cs) && Addressable(steps) && from != []
    requires StrictlySorted(from, cs) && finished.Keys !! KeySet(from, cs)
    requires Detachable(from[0].key, (finished + CanonMembers(from, cs)).Keys, cs)
    requires CGet(Canonical(doc, cs), steps, cs) == Some(CObject(finished + CanonMembers(from, cs)))
    ensures PatchedTo(doc, [ComposePatch("remove", PathText(steps), Some(from[0].key), None)], steps,
                      CObject(finished + CanonMembers(from[1..], cs)), cs)
  {
    SettleHead(finished, from, CNull, cs);
    RemoveMemberPatch(doc, steps, from[0].key, cs);
  }

  lemma {:induction false} ReplayRemoved(
      doc: Value, steps: seq<Step>, finished: map<string, Canon>, from: seq<Entry<Value>>, to: seq<Entry<Value>>,
      cs: bool)
    requires Distinct(doc, cs) && Addressable(steps)
    requires Walked(finished, from, to, cs)
    requires CGet(Canonical(doc, cs), steps, cs) == Some(CObject(finished + CanonMembers(from, cs)))
    requires from != [] && (to != [] ==> Compare(from[0].key, to[0].key, cs) < 0)
    ensures PatchedTo(doc, PatchMembers(PathText(steps), from, to, cs), steps,
                      CObject(finished + CanonMembers(to, cs)), cs)
    decreases MembersHeight(from), 4 * (|from| + |to|) - 1
  {
    WalkRemoved(finished, from, to, cs);
    RemoveFirst(doc, steps, finished, from, cs);
    ReplayRest(doc, steps, [ComposePatch("remove", PathText(steps), Some(from[0].key), None)], finished, from[1..], to,
               cs);
  }

  lemma AddFirst(
      doc: Value, steps: seq<Step>, finished: map<string, Canon>, from: seq<Entry<Value>>, e: Entry<Value>, cs: bool)
    requires Distinct(doc, cs) && Addressable(steps)
    requires Survives(e.key) && Distinct(e.value, cs) && Fold(e.key, cs) !in KeySet(from, cs)
    requires CGet(Canonical(doc, cs), steps, cs) == Some(CObject(finished + CanonMembers(from, cs)))
    ensures PatchedTo(doc, [ComposePatch("add", PathText(steps), Some(e.key), Some(e.value))], steps,
                      CObject(finished[Fold(e.key, cs) := Canonical(e.value, cs)] + CanonMembers(from, cs)), cs)
  {
    CanonKeys(from, cs);
    AddMemberPatch(doc, steps, e.key, e.value, cs);
    AddToSettled(finished, CanonMembers(from, cs), Fold(e.key, cs), Canonical(e.value, cs));
  }

  lemma {:induction false} ReplayAdded(
      doc: Value, steps: seq<Step>, finished: map<string, Canon>, from: seq<Entry<Value>>, to: seq<Entry<Value>>,
      cs: bool)
    requires Distinct(doc, cs) && Addressable(steps)
    requires Walked(finished, from, to, cs)
    requires CGet(Canonical(doc, cs), steps, cs) == Some(CObject(finished + CanonMembers(from, cs)))
    requires to != [] && (from != [] ==> Compare(from[0].key, to[0].key, cs) > 0)
    ensures PatchedTo(doc, PatchMembers(PathText(steps), from, to, cs), steps,
                      CObject(finished + CanonMembers(to, cs)), cs)
    decreases MembersHeight(from), 4 * (|from| + |to|) - 1
  {
    var key, x := to[0].key, Canonical(to[0].value, cs);
    WalkAdded(finished, from, to, x, cs);
    AddFirst(doc, steps, finished, from, to[0], cs);
    ReplayRest(doc, steps, [ComposePatch("add", PathText(steps), Some(key), Some(to[0].value))],
               finished[Fold(key, cs) := x], from, to[1..], cs);
  }

  lemma AddToSettled(finished: map<string, Canon>, rest: map<string, Canon>, k: string, x: Canon)
    requires k !in rest
    ensures (finished + rest)[k := x] == finished[k := x] + rest
  {
  }

  /** JSON Patch round trip (section 4 of RFC 6902): replaying the generated patches on any copy of the
      first tree, whatever the order of its members, succeeds at every step and ends equal to the
      second tree up to member order. */
  lemma PatchRoundTrip(doc: Value, from: Value, to: Value, cs: bool)
    requires Distinct(from, cs) && Distinct(to, cs) && Replayable(from, to, cs)
    requires Distinct(doc, cs) && Canonical(doc, cs) == Canonical(from, cs)
    ensures var r := ApplyPatches(doc, GeneratePatches(from, to, cs), cs);
      r.status == 0 && Distinct(r.doc, cs) && Canonical(r.doc, cs) == Canonical(to, cs)
  {
    Replay(doc, [], from, to, cs);
  }
}
