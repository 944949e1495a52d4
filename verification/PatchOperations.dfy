/** The patch operations that the generator does not emit: test, move and copy. */
module PatchOperations {
  import opened CText
  import opened Json
  import opened Options
  import opened Equality
  import opened Comparison
  import opened Pointer
  import opened Patch
  import opened PatchRoundTrip

  function FromPatch(operation: string, from: string, path: string): Value {
    Object([Entry("op", String(operation)), Entry("path", String(path)), Entry("from", String(from))])
  }

  function ValuePatch(operation: string, path: string, value: Value): Value {
    ComposePatch(operation, path, None, Some(value))
  }

  lemma FoldedFrom(cs: bool)
    ensures Fold("from", cs) == "from"
  {
    assert "from"[1..] == "rom" && "rom"[1..] == "om" && "om"[1..] == "m";
    assert Fold("m", cs) == "m" && Fold("om", cs) == "om" && Fold("rom", cs) == "rom";
  }

  lemma FromReads(operation: string, from: string, path: string, cs: bool)
    ensures var p := FromPatch(operation, from, path);
      && StringMember(p, "op", cs) == Some(operation) && StringMember(p, "path", cs) == Some(path)
      && StringMember(p, "from", cs) == Some(from) && Lookup(Members(p), "from", cs) == Some(String(from))
  {
    var ms := Members(FromPatch(operation, from, path));
    FoldedNames(cs);
    FoldedFrom(cs);
    assert "op"[0] != "path"[0] && "op"[0] != "from"[0] && "path"[0] != "from"[0];
    assert FindMember(ms, "op", cs) == 0;
    assert FindMember(ms[1..], "path", cs) == 0;
    assert FindMember(ms, "path", cs) == 1;
    assert FindMember(ms[2..], "from", cs) == 0;
    assert ms[1..][1..] == ms[2..];
    assert FindMember(ms[1..], "from", cs) == 1;
    assert FindMember(ms, "from", cs) == 2;
  }

  lemma OtherOperationIs(patch: Value, name: string, operation: Operation, cs: bool)
    requires StringMember(patch, "op", cs) == Some(name)
    requires
      || (name == "test" && operation == TEST)
      || (name == "move" && operation == MOVE)
      || (name == "copy" && operation == COPY)
    ensures DecodeOperation(patch, cs) == operation
  {
    assert |"add"| == 3 && |"remove"| == 6 && |"replace"| == 7 && |"move"| == |"copy"| == |"test"| == 4;
    assert "move"[0] != "copy"[0] && "move"[0] != "test"[0] && "copy"[0] != "test"[0];
  }

  /** A test succeeds exactly when the path leads to an item that equals the value as nested maps. The item is
      sorted as far as the comparison came, all of it after a success; as nested maps the document is the same. */
  lemma TestComparesMaps(doc: Value, path: string, value: Value, cs: bool)
    requires Distinct(doc, cs) && Distinct(value, cs)
    ensures var r := ApplyPatch(doc, ValuePatch("test", path, value), cs);
      var at := Locate(doc, path, cs);
      && (r.status == 0 || r.status == 1)
      && Distinct(r.doc, cs) && Canonical(r.doc, cs) == Canonical(doc, cs)
      && (at.None? ==> r.status == 1 && r.doc == doc)
      && (at.Some? ==>
            && HasNode(doc, at.value)
            && r.doc == PutAt(doc, at.value, Compared(NodeAt(doc, at.value), value, cs))
            && (r.status == 0 <==> Canonical(NodeAt(doc, at.value), cs) == Canonical(value, cs))
            && (r.status == 0 ==> AllSorted(Compared(NodeAt(doc, at.value), value, cs), cs)))
  {
    TestIs(doc, path, value, cs);
    LocateHasNode(doc, path, cs);
    var at := Locate(doc, path, cs);
    if at.Some? {
      var node := NodeAt(doc, at.value);
      NodeIsDistinct(doc, at.value, cs);
      CompareJsonIsCanonEquality(node, value, cs);
      ComparedKeepsCanon(node, value, cs, cs);
      PutAlike(doc, at.value, Compared(node, value, cs), cs);
      if CompareJson(node, value, cs) { EqualComesOutSorted(node, value, cs); }
    }
  }

  lemma TestIs(doc: Value, path: string, value: Value, cs: bool)
    ensures ApplyPatch(doc, ValuePatch("test", path, value), cs)
         == Outcome(if TestAt(doc, path, Some(value), cs) then 0 else 1, TestedAt(doc, path, Some(value), cs))
  {
    ComposedReads("test", path, None, Some(value), cs);
    OtherOperationIs(ValuePatch("test", path, value), "test", TEST, cs);
  }

  /** An item that only changes its member order changes nothing else in the tree. */
  lemma {:induction false} PutAlike(v: Value, at: seq<nat>, w: Value, cs: bool)
    requires Distinct(v, cs) && HasNode(v, at) && Distinct(w, cs)
    requires Canonical(w, cs) == Canonical(NodeAt(v, at), cs)
    ensures Distinct(PutAt(v, at, w), cs) && Canonical(PutAt(v, at, w), cs) == Canonical(v, cs)
    decreases |at|
  {
    if at != [] {
      var kid := Children(v)[at[0]];
      var u := PutAt(kid, at[1..], w);
      match v
      case Array(items) =>
        PutAlike(kid, at[1..], w, cs);
        assert CanonItems(items[at[0] := u], cs) == CanonItems(items, cs);
      case Object(ms) =>
        PutAlike(kid, at[1..], w, cs);
        AlikeIsEqual(WithValue(ms, at[0], u), ms, cs);
    }
  }

  lemma {:induction false} NodeIsDistinct(v: Value, at: seq<nat>, cs: bool)
    requires Distinct(v, cs) && HasNode(v, at)
    ensures Distinct(NodeAt(v, at), cs)
    decreases |at|
  {
    if at != [] {
      match v
      case Array(items) => NodeIsDistinct(items[at[0]], at[1..], cs);
      case Object(ms) => NodeIsDistinct(ms[at[0]].value, at[1..], cs);
    }
  }

  lemma MoveIs(doc: Value, from: string, path: string, cs: bool)
    ensures var d := DetachPath(doc, from, cs);
      ApplyPatch(doc, FromPatch("move", from, path), cs)
      == if d.Some? then AddAt(d.value.rest, path, d.value.item, cs) else Outcome(5, doc)
  {
    FromReads("move", from, path, cs);
    OtherOperationIs(FromPatch("move", from, path), "move", MOVE, cs);
  }

  lemma CopyIs(doc: Value, from: string, path: string, cs: bool)
    ensures var at := Locate(doc, from, cs);
      && (at.Some? ==> HasNode(doc, at.value))
      && ApplyPatch(doc, FromPatch("copy", from, path), cs)
         == if at.Some? then AddAt(doc, path, NodeAt(doc, at.value), cs) else Outcome(5, doc)
  {
    FromReads("copy", from, path, cs);
    OtherOperationIs(FromPatch("copy", from, path), "copy", COPY, cs);
    LocateHasNode(doc, from, cs);
  }

  lemma RemoveIs(doc: Value, from: string, cs: bool)
    requires from != [] && DetachPath(doc, from, cs).Some?
    ensures ApplyPatch(doc, ComposePatch("remove", from, None, None), cs)
         == Outcome(0, DetachPath(doc, from, cs).value.rest)
  {
    ComposedReads("remove", from, None, None, cs);
    OperationIs(ComposePatch("remove", from, None, None), "remove", REMOVE, cs);
  }

  lemma AddIs(doc: Value, path: string, value: Value, cs: bool)
    requires path != []
    ensures ApplyPatch(doc, ValuePatch("add", path, value), cs) == AddAt(doc, path, value, cs)
  {
    ComposedReads("add", path, None, Some(value), cs);
    OperationIs(ValuePatch("add", path, value), "add", ADD, cs);
  }

  lemma NoRootToDetach(doc: Value, cs: bool)
    ensures DetachPath(doc, [], cs).None?
  {
  }

  /** A move is a remove of what stands at `from` and an add of it at the path. Without an item there it fails
      and changes nothing; to the empty path it fails when the item is out already. */
  lemma {:induction false} MoveIsRemoveThenAdd(doc: Value, from: string, path: string, cs: bool)
    ensures var d := DetachPath(doc, from, cs);
      var r := ApplyPatch(doc, FromPatch("move", from, path), cs);
      if d.None? then r == Outcome(5, doc)
      else if path == [] then r == Outcome(9, d.value.rest)
      else
        r == ApplyPatches(doc, [ComposePatch("remove", from, None, None), ValuePatch("add", path, d.value.item)], cs)
  {
    MoveIs(doc, from, path, cs);
    NoRootToDetach(doc, cs);
    var d := DetachPath(doc, from, cs);
    if d.Some? && path != [] {
      RemoveIs(doc, from, cs);
      AddIs(d.value.rest, path, d.value.item, cs);
      OneThenOther(doc, ComposePatch("remove", from, None, None), ValuePatch("add", path, d.value.item), cs);
    }
  }

  lemma OneThenOther(doc: Value, one: Value, other: Value, cs: bool)
    requires ApplyPatch(doc, one, cs).status == 0
    ensures ApplyPatches(doc, [one, other], cs) == ApplyPatch(ApplyPatch(doc, one, cs).doc, other, cs)
  {
    var rest := [other];
    assert [one, other][1..] == rest && rest[1..] == [];
    var r := ApplyPatch(ApplyPatch(doc, one, cs).doc, other, cs);
    assert ApplyPatches(ApplyPatch(doc, one, cs).doc, rest, cs) == r by {
      if r.status == 0 { assert ApplyPatches(r.doc, rest[1..], cs) == r; }
    }
  }

  /** A copy is an add of what stands at `from`; to the empty path it fails. */
  lemma {:induction false} CopyIsAdd(doc: Value, from: string, path: string, cs: bool)
    ensures var at := Locate(doc, from, cs);
      var r := ApplyPatch(doc, FromPatch("copy", from, path), cs);
      && (at.Some? ==> HasNode(doc, at.value))
      && if at.None? then r == Outcome(5, doc)
         else if path == [] then r == Outcome(9, doc)
         else r == ApplyPatch(doc, ValuePatch("add", path, NodeAt(doc, at.value)), cs)
  {
    CopyIs(doc, from, path, cs);
    var at := Locate(doc, from, cs);
    if at.Some? && path != [] {
      AddIs(doc, path, NodeAt(doc, at.value), cs);
    }
  }
}
