/** Whole patch lists on a document whose objects remember what their first member says about the last one. */
module TreeRuns {
  import opened CText
  import opened Json
  import opened Options
  import opened MergeSort
  import opened Equality
  import opened Pointer
  import opened Patch
  import opened PatchRoundTrip
  import opened PatchOperations
  import opened Tails
  import opened Comparison
  import opened Trees
  import opened TreePatch

  // Exactly the runs that do what is specified

  /** No patch that is reached strays. */
  predicate Settled(doc: Tree, patches: seq<Value>, cs: bool)
    decreases |patches|
  {
    patches == [] ||
    (&& !Strays(doc, patches[0], cs)
     && var r := ApplyTree(doc, patches[0], cs);
        r.Run? && r.status == 0 ==> Settled(r.doc, patches[1..], cs))
  }

  predicate AgreesUpTo(doc: Tree, patches: seq<Value>, n: nat, cs: bool)
    requires n <= |patches|
  {
    Agrees(ApplyTrees(doc, patches[..n], cs), ApplyPatches(Plain(doc), patches[..n], cs))
  }

  lemma PrefixUnfolds(patches: seq<Value>, n: nat)
    requires 0 < n <= |patches|
    ensures patches[..n] != [] && patches[..n][0] == patches[0] && patches[..n][1..] == patches[1..][..n - 1]
  {
  }

  lemma {:induction false} SettledAgrees(doc: Tree, patches: seq<Value>, n: nat, cs: bool)
    requires Settled(doc, patches, cs) && n <= |patches|
    ensures AgreesUpTo(doc, patches, n, cs)
    decreases |patches|
  {
    if n == 0 {
      assert patches[..0] == [];
    } else {
      FirstOfSettled(doc, patches, cs);
      var r := ApplyTree(doc, patches[0], cs);
      if r.status == 0 {
        SettledAgrees(r.doc, patches[1..], n - 1, cs);
        LaterAgrees(doc, patches, n, cs);
      } else {
        StoppedAgrees(doc, patches, n, cs);
      }
    }
  }

  lemma {:induction false} FirstOfSettled(doc: Tree, patches: seq<Value>, cs: bool)
    requires Settled(doc, patches, cs) && patches != []
    ensures var r := ApplyTree(doc, patches[0], cs);
      && Agrees(r, ApplyPatch(Plain(doc), patches[0], cs))
      && (r.status == 0 ==> Settled(r.doc, patches[1..], cs))
  {
    ApplyExactly(doc, patches[0], cs);
  }

  lemma StoppedAgrees(doc: Tree, patches: seq<Value>, n: nat, cs: bool)
    requires 0 < n <= |patches|
    requires var r := ApplyTree(doc, patches[0], cs);
      Agrees(r, ApplyPatch(Plain(doc), patches[0], cs)) && r.status != 0
    ensures AgreesUpTo(doc, patches, n, cs)
  {
    PrefixUnfolds(patches, n);
  }

  lemma {:induction false} UnsettledDiffers(doc: Tree, patches: seq<Value>, cs: bool) returns (n: nat)
    requires !Settled(doc, patches, cs)
    ensures n <= |patches| && !AgreesUpTo(doc, patches, n, cs)
    decreases |patches|
  {
    ApplyExactly(doc, patches[0], cs);
    if Strays(doc, patches[0], cs) {
      n := 1;
      if AgreesUpTo(doc, patches, 1, cs) { FirstAgrees(doc, patches, cs); }
    } else {
      var r := ApplyTree(doc, patches[0], cs);
      n := UnsettledDiffers(r.doc, patches[1..], cs);
      n := n + 1;
      LaterAgrees(doc, patches, n, cs);
    }
  }

  lemma FirstAgrees(doc: Tree, patches: seq<Value>, cs: bool)
    requires patches != [] && AgreesUpTo(doc, patches, 1, cs)
    ensures Agrees(ApplyTree(doc, patches[0], cs), ApplyPatch(Plain(doc), patches[0], cs))
  {
    assert patches[..1] == [patches[0]];
    OneTreePatch(doc, patches[0], cs);
    OnePatch(Plain(doc), patches[0], cs);
  }

  lemma OneTreePatch(doc: Tree, patch: Value, cs: bool)
    ensures ApplyTrees(doc, [patch], cs) == ApplyTree(doc, patch, cs)
  {
    assert [patch][1..] == [];
  }

  lemma OnePatch(doc: Value, patch: Value, cs: bool)
    ensures ApplyPatches(doc, [patch], cs) == ApplyPatch(doc, patch, cs)
  {
    assert [patch][1..] == [];
  }

  lemma LaterAgrees(doc: Tree, patches: seq<Value>, n: nat, cs: bool)
    requires 0 < n <= |patches|
    requires var r := ApplyTree(doc, patches[0], cs);
      Agrees(r, ApplyPatch(Plain(doc), patches[0], cs)) && r.status == 0
    ensures AgreesUpTo(doc, patches, n, cs)
       <==> AgreesUpTo(ApplyTree(doc, patches[0], cs).doc, patches[1..], n - 1, cs)
  {
    PrefixUnfolds(patches, n);
  }

  /** The document is what is specified after every patch if and only if no patch appends to an object that does
      not know its last member. */
  lemma RunExactly(doc: Tree, patches: seq<Value>, cs: bool)
    ensures (forall n: nat :: n <= |patches| ==> AgreesUpTo(doc, patches, n, cs)) <==> Settled(doc, patches, cs)
  {
    if Settled(doc, patches, cs) {
      forall n: nat | n <= |patches| ensures AgreesUpTo(doc, patches, n, cs) { SettledAgrees(doc, patches, n, cs); }
    } else {
      var n := UnsettledDiffers(doc, patches, cs);
    }
  }

  // Tests that sort nothing out of its place

  /** If the patch is a test, the objects that it compares have their first and last members in place. */
  predicate TestKeepsEnds(doc: Value, patch: Value, cs: bool) {
    var path, value := StringMember(patch, "path", cs), Lookup(Members(patch), "value", cs);
    path.Some? && value.Some? && DecodeOperation(patch, cs) == TEST ==>
      var at := Locate(doc, path.value, cs);
      LocateHasNode(doc, path.value, cs);
      at.Some? ==> EndsKept(NodeAt(doc, at.value), value.value, cs)
  }

  /** A patch that keeps the document sound: no test that sorts a first or last member out of its place, and no
      move from what is no string. */
  predicate KeepsQuiet(doc: Value, patch: Value, cs: bool) {
    TestKeepsEnds(doc, patch, cs) && (DecodeOperation(patch, cs) == MOVE ==> FromFits(patch, cs))
  }

  /** The same for every patch that is reached. */
  predicate Quiet(doc: Value, patches: seq<Value>, cs: bool)
    decreases |patches|
  {
    patches == [] ||
    (&& KeepsQuiet(doc, patches[0], cs)
     && var r := ApplyPatch(doc, patches[0], cs);
        r.status == 0 ==> Quiet(r.doc, patches[1..], cs))
  }

  lemma {:induction false} GraftedIsSound(t: Tree, at: seq<nat>, u: Tree)
    requires HasNode(Plain(t), at) && Sound(t)
    ensures Sound(Graft(t, at, u)) <==> Sound(u)
    decreases |at|
  {
    if at != [] {
      var kid := Graft(Kids(t)[at[0]], at[1..], u);
      GraftedIsSound(Kids(t)[at[0]], at[1..], u);
      KidIsSound(WithKid(t, at[0], kid), at[0]);
      assert Kids(WithKid(t, at[0], kid))[at[0]] == kid;
    }
  }

  lemma KidIsSound(t: Tree, i: nat)
    requires i < |Kids(t)|
    ensures Sound(t) ==> Sound(Kids(t)[i])
  {
  }

  lemma TestSound(doc: Tree, path: string, value: Option<Value>, cs: bool)
    requires Sound(doc)
    ensures var at := Locate(Plain(doc), path, cs);
      && (at.Some? ==> HasNode(Plain(doc), at.value))
      && (Sound(TestTree(doc, path, value, cs))
          <==> (at.Some? && value.Some? ==> EndsKept(NodeAt(Plain(doc), at.value), value.value, cs)))
  {
    var at := Locate(Plain(doc), path, cs);
    LocateHasNode(Plain(doc), path, cs);
    if at.Some? && value.Some? {
      ComparedSound(SubTree(doc, at.value), value.value, cs);
      GraftedIsSound(doc, at.value, ComparedTree(SubTree(doc, at.value), value.value, cs));
    }
  }

  /** What is taken out and put back leaves a sound document sound. */
  lemma MovedIsSound(doc: Tree, from: string, path: string, cs: bool)
    requires Sound(doc) && DetachTree(doc, from, cs).Some?
    ensures var d := DetachTree(doc, from, cs).value;
      && Sound(d.rest) && !Misses(d.rest, path, cs)
      && forall u :: u == d.item || Sound(u) ==> var r := AddTree(d.rest, path, u, cs); r.Run? && Sound(r.doc)
  {
    DetachTreeIsSound(doc, from, cs);
    var d := DetachTree(doc, from, cs).value;
    AddTreeIsSound(d.rest, path, d.item, cs);
    forall u | Sound(u) ensures var r := AddTree(d.rest, path, u, cs); r.Run? && Sound(r.doc) {
      AddTreeIsSound(d.rest, path, u, cs);
    }
  }

  ghost predicate SoundAfter(doc: Tree, patch: Value, cs: bool) {
    var r := ApplyTree(doc, patch, cs);
    !Strays(doc, patch, cs) && r.Run? && (Sound(r.doc) <==> TestKeepsEnds(Plain(doc), patch, cs))
  }

  lemma {:induction false} SoundReplace(doc: Tree, patch: Value, path: string, value: Option<Value>, cs: bool)
    requires StringMember(patch, "path", cs) == Some(path) && value == Lookup(Members(patch), "value", cs)
    requires DecodeOperation(patch, cs) == REPLACE && Sound(doc)
    ensures SoundAfter(doc, patch, cs)
  {
    if value.Some? { FreshIsSound(value.value); }
    if DetachTree(doc, path, cs).Some? { MovedIsSound(doc, path, path, cs); }
  }

  lemma {:induction false} SoundAdd(doc: Tree, patch: Value, path: string, value: Option<Value>, cs: bool)
    requires StringMember(patch, "path", cs) == Some(path) && value == Lookup(Members(patch), "value", cs)
    requires DecodeOperation(patch, cs) == ADD && Sound(doc)
    ensures SoundAfter(doc, patch, cs)
  {
    if value.Some? {
      FreshIsSound(value.value);
      AddTreeIsSound(doc, path, Fresh(value.value), cs);
    }
  }

  lemma {:induction false} SoundMove(doc: Tree, patch: Value, path: string, cs: bool)
    requires StringMember(patch, "path", cs) == Some(path)
    requires DecodeOperation(patch, cs) == MOVE && Sound(doc) && FromFits(patch, cs)
    ensures SoundAfter(doc, patch, cs)
  {
    var from := StringMember(patch, "from", cs);
    if from.Some? && DetachTree(doc, from.value, cs).Some? { MovedIsSound(doc, from.value, path, cs); }
  }

  lemma {:induction false} SoundCopy(doc: Tree, patch: Value, path: string, cs: bool)
    requires StringMember(patch, "path", cs) == Some(path)
    requires DecodeOperation(patch, cs) == COPY && Sound(doc)
    ensures SoundAfter(doc, patch, cs)
  {
    CopiedIsSound(doc, patch, path, cs);
    assert DecodeOperation(patch, cs) != TEST;
    CopyIsTransfer(doc, patch, path, Lookup(Members(patch), "value", cs), cs);
  }

  lemma {:induction false} CopyIsTransfer(doc: Tree, patch: Value, path: string, value: Option<Value>, cs: bool)
    ensures Operate(doc, COPY, path, value, patch, cs) == TransferTree(doc, patch, path, false, cs)
  {
  }

  lemma {:induction false} CopiedIsSound(doc: Tree, patch: Value, path: string, cs: bool)
    requires Sound(doc)
    ensures !Misses(doc, path, cs)
    ensures var r := TransferTree(doc, patch, path, false, cs); r.Run? && Sound(r.doc)
  {
    AddTreeIsSound(doc, path, TLeaf(Null), cs);
    var from := StringMember(patch, "from", cs);
    if from.Some? {
      var at := Locate(Plain(doc), from.value, cs);
      LocateHasNode(Plain(doc), from.value, cs);
      if at.Some? {
        FreshIsSound(NodeAt(Plain(doc), at.value));
        AddTreeIsSound(doc, path, Fresh(NodeAt(Plain(doc), at.value)), cs);
      }
    }
  }

  lemma {:induction false} SoundOther(doc: Tree, patch: Value, path: string, cs: bool)
    requires StringMember(patch, "path", cs) == Some(path)
    requires (DecodeOperation(patch, cs) == INVALID || DecodeOperation(patch, cs) == REMOVE) && Sound(doc)
    ensures SoundAfter(doc, patch, cs)
  {
    if DetachTree(doc, path, cs).Some? { DetachTreeIsSound(doc, path, cs); }
  }

  lemma {:induction false} SoundTest(doc: Tree, patch: Value, path: string, value: Option<Value>, cs: bool)
    requires StringMember(patch, "path", cs) == Some(path) && value == Lookup(Members(patch), "value", cs)
    requires DecodeOperation(patch, cs) == TEST && Sound(doc)
    ensures SoundAfter(doc, patch, cs)
  {
    TestSound(doc, path, value, cs);
  }

  /** On a sound document a patch does what is specified, and the document stays sound exactly when the patch is
      no test that sorts a first or last member out of its place. */
  lemma SoundStep(doc: Tree, patch: Value, cs: bool)
    requires Sound(doc) && (DecodeOperation(patch, cs) == MOVE ==> FromFits(patch, cs))
    ensures var r := ApplyTree(doc, patch, cs);
      && Agrees(r, ApplyPatch(Plain(doc), patch, cs))
      && (Sound(r.doc) <==> TestKeepsEnds(Plain(doc), patch, cs))
  {
    ApplyExactly(doc, patch, cs);
    var path, value := StringMember(patch, "path", cs), Lookup(Members(patch), "value", cs);
    if path.Some? {
      match DecodeOperation(patch, cs)
      case ADD => SoundAdd(doc, patch, path.value, value, cs);
      case REPLACE => SoundReplace(doc, patch, path.value, value, cs);
      case MOVE => SoundMove(doc, patch, path.value, cs);
      case COPY => SoundCopy(doc, patch, path.value, cs);
      case TEST => SoundTest(doc, patch, path.value, value, cs);
      case _ => SoundOther(doc, patch, path.value, cs);
    }
  }

  /** On a sound document a quiet run does what is specified and leaves the document sound. */
  lemma {:induction false} QuietRun(doc: Tree, patches: seq<Value>, cs: bool)
    requires Sound(doc) && Quiet(Plain(doc), patches, cs)
    ensures var r := ApplyTrees(doc, patches, cs);
      Agrees(r, ApplyPatches(Plain(doc), patches, cs)) && Sound(r.doc)
    decreases |patches|
  {
    if patches != [] {
      SoundStep(doc, patches[0], cs);
      var r := ApplyTree(doc, patches[0], cs);
      if r.status == 0 { QuietRun(r.doc, patches[1..], cs); }
    }
  }

  // Generated patches

  /** Patches that the generator writes. */
  predicate OnlyEdits(patches: seq<Value>, cs: bool) {
    forall i :: 0 <= i < |patches| ==>
      var operation := DecodeOperation(patches[i], cs);
      operation == ADD || operation == REMOVE || operation == REPLACE
  }

  lemma {:induction false} EditsAreQuiet(doc: Value, patches: seq<Value>, cs: bool)
    requires OnlyEdits(patches, cs)
    ensures Quiet(doc, patches, cs)
    decreases |patches|
  {
    if patches != [] { EditsAreQuiet(ApplyPatch(doc, patches[0], cs).doc, patches[1..], cs); }
  }

  lemma ComposedIsEdit(operation: string, path: string, suffix: Option<string>, value: Option<Value>, cs: bool)
    requires operation == "add" || operation == "remove" || operation == "replace"
    ensures OnlyEdits([ComposePatch(operation, path, suffix, value)], cs)
  {
    ComposedReads(operation, path, suffix, value, cs);
    OperationIs(ComposePatch(operation, path, suffix, value), operation,
                if operation == "add" then ADD else if operation == "remove" then REMOVE else REPLACE, cs);
  }

  lemma EditsJoin(a: seq<Value>, b: seq<Value>, cs: bool)
    requires OnlyEdits(a, cs) && OnlyEdits(b, cs)
    ensures OnlyEdits(a + b, cs)
  {
  }

  lemma {:induction false} CreatedAreEdits(path: string, from: Value, to: Value, cs: bool)
    ensures OnlyEdits(CreatePatches(path, from, to, cs), cs)
    decreases Height(from), 0
  {
    ComposedIsEdit("replace", path, None, Some(to), cs);
    if SameType(from, to) {
      match from
      case Array(items) => ItemPatchesAreEdits(path, items, to.items, 0, cs);
      case Object(ms) =>
        SortKeepsHeight(ms, cs);
        MemberPatchesAreEdits(path, Sort(ms, cs), Sort(to.members, cs), cs);
      case _ =>
    }
  }

  lemma {:induction false} ItemPatchesAreEdits(path: string, from: seq<Value>, to: seq<Value>, index: nat, cs: bool)
    ensures OnlyEdits(PatchItems(path, from, to, index, cs), cs)
    decreases ItemsHeight(from), |from| + |to|
  {
    if from != [] && to != [] {
      CreatedAreEdits(path + "/" + IndexText(index), from[0], to[0], cs);
      ItemPatchesAreEdits(path, from[1..], to[1..], index + 1, cs);
      EditsJoin(CreatePatches(path + "/" + IndexText(index), from[0], to[0], cs),
                  PatchItems(path, from[1..], to[1..], index + 1, cs), cs);
    } else if from != [] {
      ComposedIsEdit("remove", path, Some(IndexText(index)), None, cs);
      ItemPatchesAreEdits(path, from[1..], [], index, cs);
    } else if to != [] {
      ComposedIsEdit("add", path, Some("-"), Some(to[0]), cs);
      ItemPatchesAreEdits(path, [], to[1..], index + 1, cs);
    }
  }

  lemma {:induction false} MemberPatchesAreEdits(
      path: string, from: seq<Entry<Value>>, to: seq<Entry<Value>>, cs: bool)
    ensures OnlyEdits(PatchMembers(path, from, to, cs), cs)
    decreases MembersHeight(from), |from| + |to|
  {
    if from != [] || to != [] {
      var diff := if from == [] then 1 else if to == [] then -1 else Compare(from[0].key, to[0].key, cs);
      if diff == 0 {
        CreatedAreEdits(path + "/" + EncodeToken(from[0].key), from[0].value, to[0].value, cs);
        MemberPatchesAreEdits(path, from[1..], to[1..], cs);
        EditsJoin(CreatePatches(path + "/" + EncodeToken(from[0].key), from[0].value, to[0].value, cs),
                    PatchMembers(path, from[1..], to[1..], cs), cs);
      } else if diff < 0 {
        ComposedIsEdit("remove", path, Some(from[0].key), None, cs);
        MemberPatchesAreEdits(path, from[1..], to, cs);
      } else {
        ComposedIsEdit("add", path, Some(to[0].key), Some(to[0].value), cs);
        MemberPatchesAreEdits(path, from, to[1..], cs);
      }
    }
  }

  /** The round trip on the linked document: any sound copy of the first tree becomes the second, and is sound. */
  lemma SoundRoundTrip(doc: Tree, from: Value, to: Value, cs: bool)
    requires Distinct(from, cs) && Distinct(to, cs) && Replayable(from, to, cs)
    requires Sound(doc) && Distinct(Plain(doc), cs) && Canonical(Plain(doc), cs) == Canonical(from, cs)
    ensures var r := ApplyTrees(doc, GeneratePatches(from, to, cs), cs);
      r.Run? && r.status == 0 && Sound(r.doc) && Canonical(Plain(r.doc), cs) == Canonical(to, cs)
  {
    var patches := GeneratePatches(from, to, cs);
    CreatedAreEdits([], from, to, cs);
    EditsAreQuiet(Plain(doc), patches, cs);
    QuietRun(doc, patches, cs);
    PatchRoundTrip.PatchRoundTrip(Plain(doc), from, to, cs);
  }

  // Members that are lost

  predicate AllLeaves(ms: seq<Entry<Tree>>) {
    forall i :: 0 <= i < |ms| ==> ms[i].value.TLeaf?
  }

  lemma {:induction false} LeavesStay(s: seq<Entry<Tree>>, u: seq<Entry<Value>>, cs: bool)
    requires AllLeaves(s)
    ensures ComparedEntries(s, u, cs) == s
    decreases |s|
  {
    if s != [] && u != [] && Compare(s[0].key, u[0].key, cs) == 0 { LeavesStay(s[1..], u[1..], cs); }
  }

  /** The root is compared with a value of the same maps. */
  lemma {:induction false} RootTest(ms: seq<Entry<Tree>>, tail: Tail, cs: bool)
    requires AllLeaves(ms) && Distinct(Plain(TObject(ms, tail)), cs)
    ensures ApplyTree(TObject(ms, tail), ValuePatch("test", [], Plain(TObject(ms, tail))), cs)
         == Run(0, TObject(Sort(ms, cs), AfterSort(ms, tail, cs)))
  {
    var doc := TObject(ms, tail);
    var v := Plain(doc);
    TestTreeIs(doc, v, cs);
    CompareJsonIsCanonEquality(v, v, cs);
    forall i | 0 <= i < |ms| ensures Sort(ms, cs)[i].value.TLeaf? { var j := SortedFrom(ms, i, cs); }
    LeavesStay(Sort(ms, cs), Sort(v.members, cs), cs);
  }

  lemma {:induction false} TestTreeIs(doc: Tree, v: Value, cs: bool)
    ensures ApplyTree(doc, ValuePatch("test", [], v), cs)
         == Run(if CompareJson(Plain(doc), v, cs) then 0 else 1, ComparedTree(doc, v, cs))
  {
    var patch := ValuePatch("test", [], v);
    ComposedReads("test", [], None, Some(v), cs);
    OtherOperationIs(patch, "test", TEST, cs);
    OperateAtRoot(doc, v, patch, cs);
    assert ApplyTree(doc, patch, cs) == Operate(doc, TEST, [], Some(v), patch, cs);
  }

  lemma {:induction false} OperateAtRoot(doc: Tree, v: Value, patch: Value, cs: bool)
    ensures Operate(doc, TEST, [], Some(v), patch, cs)
         == Run(if CompareJson(Plain(doc), v, cs) then 0 else 1, ComparedTree(doc, v, cs))
  {
    assert TestTree(doc, [], Some(v), cs) == ComparedTree(doc, v, cs);
  }

  /** A member of a new name is added to the root. */
  lemma {:induction false} RootAdd(ms: seq<Entry<Tree>>, tail: Tail, key: string, v: Value, cs: bool)
    requires PlainKey(key) && '/' !in key && Fold(key, cs) !in KeySet(ms, cs)
    ensures var r := Appended(ms, tail, Entry(key, Fresh(v)));
      ApplyTree(TObject(ms, tail), ValuePatch("add", "/" + key, v), cs)
      == if r.Some? then Run(0, TObject(r.value.items, r.value.tail)) else Astray
  {
    AddTreeIs(TObject(ms, tail), "/" + key, v, cs);
    RootKid(TObject(ms, tail), key, Fresh(v), cs);
  }

  lemma AddTreeIs(doc: Tree, path: string, v: Value, cs: bool)
    requires path != []
    ensures ApplyTree(doc, ValuePatch("add", path, v), cs) == AddTree(doc, path, Fresh(v), cs)
  {
    ComposedReads("add", path, None, Some(v), cs);
    OperationIs(ValuePatch("add", path, v), "add", ADD, cs);
  }

  lemma {:induction false} RootKid(doc: Tree, key: string, u: Tree, cs: bool)
    requires PlainKey(key) && '/' !in key && doc.TObject?
    ensures AddTree(doc, "/" + key, u, cs) == AddKid(doc, key, u, cs)
  {
    assert DecodeInPlace(key) == key by {
      PlainSurvives(key);
      PlainEncoding(key);
    }
    assert SplitLast("/" + key) == Some(("", key)) by {
      SplitsAtLastToken("", key);
      assert "" + "/" + key == "/" + key;
    }
    assert Locate(Plain(doc), "", cs) == Some([]);
  }

  lemma {:induction false} TwoInTurn(doc: Tree, one: Value, other: Value, middle: Tree, r: Run, cs: bool)
    requires ApplyTree(doc, one, cs) == Run(0, middle) && ApplyTree(middle, other, cs) == r
    ensures ApplyTrees(doc, [one, other], cs) == r
  {
    assert [one, other][1..] == [other];
    OneTreePatch(middle, other, cs);
  }

  /** The patches that test the root and then add a member. */
  function TestThenAdd(ms: seq<Entry<Value>>, key: string): seq<Value> {
    [ValuePatch("test", [], Object(ms)), ValuePatch("add", "/" + key, True)]
  }

  lemma {:induction false} TestedRoot(
      ms: seq<Entry<Value>>, es: seq<Entry<Tree>>, sorted: seq<Entry<Tree>>, said: Tail, cs: bool)
    requires es == FreshMembers(ms) && AllLeaves(es) && Distinct(Object(ms), cs) && ms != []
    requires sorted == Sort(es, cs) && said == AfterSort(es, At(|ms| - 1), cs)
    ensures ApplyTree(Fresh(Object(ms)), ValuePatch("test", [], Object(ms)), cs) == Run(0, TObject(sorted, said))
  {
    FreshObject(ms, es);
    RootTest(es, At(|ms| - 1), cs);
  }

  lemma {:induction false} FreshObject(ms: seq<Entry<Value>>, es: seq<Entry<Tree>>)
    requires es == FreshMembers(ms) && ms != []
    ensures Fresh(Object(ms)) == TObject(es, At(|ms| - 1)) && Plain(TObject(es, At(|ms| - 1))) == Object(ms)
  {
    FreshIsSound(Object(ms));
  }

  /** A root of leaves is tested, successfully, and then a member is added: what the first member says after the
      sort decides. */
  lemma {:induction false} RootTestThenAdd(ms: seq<Entry<Value>>, es: seq<Entry<Tree>>, sorted: seq<Entry<Tree>>,
                                           said: Tail, key: string, all: Chain<Entry<Tree>>, cs: bool)
    requires es == FreshMembers(ms) && AllLeaves(es) && Distinct(Object(ms), cs) && ms != []
    requires sorted == Sort(es, cs) && said == AfterSort(es, At(|ms| - 1), cs)
    requires PlainKey(key) && '/' !in key && Fold(key, cs) !in KeySet(sorted, cs)
    requires Appended(sorted, said, Entry(key, TLeaf(True))) == Some(all)
    ensures ApplyTrees(Fresh(Object(ms)), TestThenAdd(ms, key), cs) == Run(0, TObject(all.items, all.tail))
  {
    TestedRoot(ms, es, sorted, said, cs);
    RootAdd(sorted, said, key, True, cs);
    TwoInTurn(Fresh(Object(ms)), ValuePatch("test", [], Object(ms)), ValuePatch("add", "/" + key, True),
              TObject(sorted, said), Run(0, TObject(all.items, all.tail)), cs);
  }

  /** {"b": null, "a": null} is found equal to itself and then gets "c": it does not. */
  lemma {:induction false} MemberIsDropped(cs: bool)
    ensures var ms := [Entry("b", Null), Entry("a", Null)];
      var r := ApplyTrees(Fresh(Object(ms)), TestThenAdd(ms, "c"), cs);
      r.Run? && r.status == 0 && Plain(r.doc) == Object([Entry("a", Null), Entry("b", Null)])
  {
    FoldedLetters(cs);
    SwappedIsDropped("b", "a", "c", cs);
  }

  /** The same with any names. */
  lemma {:induction false} SwappedIsDropped(k: string, l: string, key: string, cs: bool)
    requires Compare(k, l, cs) > 0 && Fold(k, cs) != Fold(l, cs)
    requires PlainKey(key) && '/' !in key && Fold(key, cs) != Fold(k, cs) && Fold(key, cs) != Fold(l, cs)
    ensures var r := ApplyTrees(Fresh(Object([Entry(k, Null), Entry(l, Null)])),
                                TestThenAdd([Entry(k, Null), Entry(l, Null)], key), cs);
      r.Run? && r.status == 0 && Plain(r.doc) == Object([Entry(l, Null), Entry(k, Null)])
  {
    var ms, b, a := [Entry(k, Null), Entry(l, Null)], Entry(k, TLeaf(Null)), Entry(l, TLeaf(Null));
    TwoKeys(ms[0], ms[1], cs);
    NullsAreLeaves(ms, cs);
    assert FreshMembers(ms) == [b, a];
    TwoSwapped(b, a, cs);
    TwoKeys(a, b, cs);
    RootTestThenAdd(ms, [b, a], [a, b], Nowhere, key, Chain([a, b], Nowhere), cs);
    assert PlainMembers([a, b]) == [Entry(l, Null), Entry(k, Null)];
  }

  lemma {:induction false} ThreeNulls(
      ms: seq<Entry<Value>>, x: Entry<Tree>, y: Entry<Tree>, z: Entry<Tree>, cs: bool)
    requires |ms| == 3 && x.value == y.value == z.value == TLeaf(Null)
    requires ms == [Entry(x.key, Null), Entry(y.key, Null), Entry(z.key, Null)] && DistinctKeys([x, y, z], cs)
    ensures FreshMembers(ms) == [x, y, z] && AllLeaves(FreshMembers(ms)) && Distinct(Object(ms), cs)
  {
    ThreeKeys(x, y, z, cs);
    ThreeKeys(ms[0], ms[1], ms[2], cs);
    NullsAreLeaves(ms, cs);
  }

  lemma NullsAreLeaves(ms: seq<Entry<Value>>, cs: bool)
    requires forall i :: 0 <= i < |ms| ==> ms[i].value == Null
    ensures AllLeaves(FreshMembers(ms)) && (Distinct(Object(ms), cs) <==> DistinctKeys(ms, cs))
    ensures forall i :: 0 <= i < |ms| ==> FreshMembers(ms)[i] == Entry(ms[i].key, TLeaf(Null))
  {
  }

  lemma TwoSwapped<T>(b: Entry<T>, a: Entry<T>, cs: bool)
    requires Compare(b.key, a.key, cs) >= 0
    ensures Sort([b, a], cs) == [a, b] && AfterSort([b, a], At(1), cs) == Nowhere
  {
    SortTwo(b, a, cs);
    SortTwo(Entry(b.key, 0 as nat), Entry(a.key, 1 as nat), cs);
    assert Places([b, a]) == [Entry(b.key, 0 as nat), Entry(a.key, 1 as nat)];
    assert SortedPlaces([b, a], cs)[0] == 1;
  }

  lemma TwoKeys<T>(x: Entry<T>, y: Entry<T>, cs: bool)
    ensures KeySet([x, y], cs) == {Fold(x.key, cs), Fold(y.key, cs)}
    ensures DistinctKeys([x, y], cs) <==> Fold(x.key, cs) != Fold(y.key, cs)
  {
    assert [x, y][1..] == [y] && [y][1..] == [];
    assert KeySet([y], cs) == {Fold(y.key, cs)} && DistinctKeys([y], cs);
  }

  lemma FoldedLetters(cs: bool)
    ensures Fold("a", cs) == "a" && Fold("b", cs) == "b" && Fold("c", cs) == "c" && Fold("d", cs) == "d"
    ensures Compare("a", "b", cs) < 0 && Compare("b", "a", cs) > 0
    ensures PlainKey("c") && PlainKey("d") && '/' !in "c" && '/' !in "d"
    ensures Compare("b", "c", cs) < 0 && Compare("a", "c", cs) < 0 && Compare("c", "b", cs) > 0
  {
    assert "a"[0] < "b"[0] < "c"[0];
  }

  lemma SortThree<T>(a: Entry<T>, c: Entry<T>, b: Entry<T>, cs: bool)
    requires Compare(a.key, c.key, cs) < 0 && Compare(a.key, b.key, cs) < 0
    requires Compare(b.key, c.key, cs) < 0 <= Compare(c.key, b.key, cs)
    ensures Sort([a, c, b], cs) == [a, b, c]
  {
    var es := [a, c, b];
    assert es[1] == c && es[2] == b && !StrictlyAscending(es, cs);
    SortUnfolds(es, [a, c], [b], cs);
    SortTwo(a, c, cs);
    assert [a, c][1..] == [c] && [b][1..] == [];
    assert Merge([c], [b], cs) == [b, c];
  }

  lemma LastBeforeMiddle<T>(a: Entry<T>, c: Entry<T>, b: Entry<T>, cs: bool)
    requires Compare(a.key, c.key, cs) < 0 && Compare(a.key, b.key, cs) < 0
    requires Compare(b.key, c.key, cs) < 0 <= Compare(c.key, b.key, cs)
    ensures Sort([a, c, b], cs) == [a, b, c] && AfterSort([a, c, b], At(2), cs) == At(1)
  {
    SortThree(a, c, b, cs);
    SortThree(Entry(a.key, 0 as nat), Entry(c.key, 1 as nat), Entry(b.key, 2 as nat), cs);
    assert Places([a, c, b]) == [Entry(a.key, 0 as nat), Entry(c.key, 1 as nat), Entry(b.key, 2 as nat)];
    assert SortedPlaces([a, c, b], cs) == [0, 2, 1];
    assert [0, 2, 1][1..] == [2, 1];
    assert PlaceOf([2, 1], 2) == 0;
  }

  lemma ThreeKeys<T>(x: Entry<T>, y: Entry<T>, z: Entry<T>, cs: bool)
    ensures KeySet([x, y, z], cs) == {Fold(x.key, cs), Fold(y.key, cs), Fold(z.key, cs)}
    ensures DistinctKeys([x, y, z], cs) <==>
      Fold(x.key, cs) != Fold(y.key, cs) && Fold(x.key, cs) != Fold(z.key, cs) && Fold(y.key, cs) != Fold(z.key, cs)
  {
    assert [x, y, z][1..] == [y, z];
    TwoKeys(y, z, cs);
  }

  /** The members "a", "c", "b" are found equal to themselves and then get "d": "c" is gone. */
  lemma {:induction false} MemberIsCutOff(cs: bool)
    ensures var ms := [Entry("a", Null), Entry("c", Null), Entry("b", Null)];
      var r := ApplyTrees(Fresh(Object(ms)), TestThenAdd(ms, "d"), cs);
      r.Run? && r.status == 0 && Plain(r.doc) == Object([Entry("a", Null), Entry("b", Null), Entry("d", True)])
  {
    FoldedLetters(cs);
    LastNameIsCutOff("a", "c", "b", "d", [Entry("a", Null), Entry("c", Null), Entry("b", Null)], cs);
  }

  lemma {:induction false} LastNameIsCutOff(
      k: string, m: string, l: string, key: string, ms: seq<Entry<Value>>, cs: bool)
    requires |ms| == 3 && ms == [Entry(k, Null), Entry(m, Null), Entry(l, Null)]
    requires Compare(k, m, cs) < 0 && Compare(k, l, cs) < 0 && Compare(l, m, cs) < 0 < Compare(m, l, cs)
    requires Fold(k, cs) != Fold(m, cs) && Fold(k, cs) != Fold(l, cs) && Fold(m, cs) != Fold(l, cs)
    requires PlainKey(key) && '/' !in key
    requires Fold(key, cs) != Fold(k, cs) && Fold(key, cs) != Fold(l, cs) && Fold(key, cs) != Fold(m, cs)
    ensures var r := ApplyTrees(Fresh(Object(ms)), TestThenAdd(ms, key), cs);
      r.Run? && r.status == 0 && Plain(r.doc) == Object([Entry(k, Null), Entry(l, Null), Entry(key, True)])
  {
    var a, b, c, d := Entry(k, TLeaf(Null)), Entry(l, TLeaf(Null)), Entry(m, TLeaf(Null)), Entry(key, TLeaf(True));
    ThreeKeys(a, c, b, cs);
    UnorderedIsCutOff(ms, a, c, b, key, cs);
    assert PlainMembers([a, b, d]) == [Entry(k, Null), Entry(l, Null), Entry(key, True)];
  }

  lemma {:induction false} UnorderedIsCutOff(
      ms: seq<Entry<Value>>, a: Entry<Tree>, c: Entry<Tree>, b: Entry<Tree>, key: string, cs: bool)
    requires |ms| == 3 && ms == [Entry(a.key, Null), Entry(c.key, Null), Entry(b.key, Null)]
    requires a.value == c.value == b.value == TLeaf(Null) && DistinctKeys([a, c, b], cs)
    requires Compare(a.key, c.key, cs) < 0 && Compare(a.key, b.key, cs) < 0
    requires Compare(b.key, c.key, cs) < 0 < Compare(c.key, b.key, cs)
    requires PlainKey(key) && '/' !in key && Fold(key, cs) !in KeySet([a, c, b], cs)
    ensures ApplyTrees(Fresh(Object(ms)), TestThenAdd(ms, key), cs)
         == Run(0, TObject([a, b, Entry(key, TLeaf(True))], At(2)))
  {
    var d := Entry(key, TLeaf(True));
    ThreeNulls(ms, a, c, b, cs);
    LastBeforeMiddle(a, c, b, cs);
    ThreeKeys(a, c, b, cs);
    ThreeKeys(a, b, c, cs);
    assert [a, b, c][..2] + [d] == [a, b, d];
    RootTestThenAdd(ms, [a, c, b], [a, b, c], At(1), key, Chain([a, b, d], At(2)), cs);
  }
}
