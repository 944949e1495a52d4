/** What one patch does at every kind of place, and with which status, read off the path and the item there. */
module PatchStatuses {
  import opened CText
  import opened Json
  import opened Options
  import opened Sequences
  import opened Pointer
  import opened IndexTokens
  import opened Patch
  import opened PatchRoundTrip
  import opened PatchOperations

  /** The index that a token stands for in an array. */
  function IndexRead(name: string): Option<nat> {
    if Accepted(TokenOf(name)) then Some(Weight(TokenOf(name)) % SIZE_LIMIT) else None
  }

  lemma {:induction false} DecodingIsNulFree(buffer: string, d: nat, i: nat)
    requires d <= i <= |buffer| && NulFree(buffer)
    ensures NulFree(DecodeFrom(buffer, d, i))
    decreases |buffer| - i
  {
    if i < |buffer| {
      if buffer[i] != '~' {
        DecodingIsNulFree(buffer, d + 1, i + 1);
      } else if At(buffer, i + 1) == '0' && i + 1 < |buffer| {
        DecodingIsNulFree(buffer[d := '~'], d + 1, i + 2);
      } else if At(buffer, i + 1) == '1' && i + 1 < |buffer| {
        DecodingIsNulFree(buffer[d + 1 := '/'], d + 1, i + 2);
      }
    }
  }

  lemma {:induction false} IndexIsRead(token: string)
    requires NulFree(token)
    ensures DecodeIndex(DecodeInPlace(token)) == IndexRead(DecodeInPlace(token))
  {
    DecodingIsNulFree(token, 0, 0);
    DecodesAccepted(DecodeInPlace(token));
  }

  /** The path is a parent path, a slash and a last token, and the parent path leads to an item. */
  predicate EndsAt(doc: Value, path: string, parent: string, token: string, at: seq<nat>, cs: bool) {
    && path == parent + "/" + token && '/' !in token && NulFree(token)
    && Locate(doc, parent, cs) == Some(at) && HasNode(doc, at)
  }

  lemma {:induction false} EndIsSplit(doc: Value, path: string, parent: string, token: string, at: seq<nat>, cs: bool)
    requires EndsAt(doc, path, parent, token, at, cs)
    ensures path != [] && SplitLast(path) == Some((parent, token))
  {
    SplitsAtLastToken(parent, token);
  }

  // Detaching

  /** What stands at the last token below an item. An object is searched without regard to case. */
  predicate StandsBelow(parent: Value, name: string) {
    match parent
    case Array(items) => IndexRead(name).Some? && IndexRead(name).value < |items|
    case Object(ms) => exists i :: 0 <= i < |ms| && Fold(ms[i].key, false) == Fold(name, false)
    case _ => false
  }

  /** An item stands at the path. */
  ghost predicate Stands(doc: Value, path: string, cs: bool) {
    exists parent: string, token: string, at: seq<nat> {:trigger EndsAt(doc, path, parent, token, at, cs)} ::
      EndsAt(doc, path, parent, token, at, cs) && StandsBelow(NodeAt(doc, at), DecodeInPlace(token))
  }

  lemma {:induction false} StandsIsFound(parent: Value, token: string)
    requires NulFree(token)
    ensures StandsBelow(parent, DecodeInPlace(token)) <==> DetachChild(parent, DecodeInPlace(token)).Some?
  {
    var name := DecodeInPlace(token);
    IndexIsRead(token);
    if parent.Object? {
      var ms := parent.members;
      if i :| 0 <= i < |ms| && Fold(ms[i].key, false) == Fold(name, false) {
        KeyOf(ms, i, false);
      }
      var j := FindMember(ms, name, false);
      assert j < |ms| ==> Fold(ms[j].key, false) == Fold(name, false);
    }
  }

  lemma {:induction false} SplitIsEnd(path: string)
    ensures SplitLast(path).Some? ==>
      var (parent, token) := SplitLast(path).value; path == parent + "/" + token && '/' !in token
    ensures SplitLast(path).None? ==> '/' !in path
  {
    if path != [] {
      var init := path[..|path| - 1];
      assert path == init + [path[|path| - 1]];
      if path[|path| - 1] != '/' { SplitIsEnd(init); }
    }
  }

  lemma {:induction false} DetachAtEnd(doc: Value, path: string, parent: string, token: string, at: seq<nat>, cs: bool)
    requires EndsAt(doc, path, parent, token, at, cs)
    ensures var d := DetachChild(NodeAt(doc, at), DecodeInPlace(token));
      DetachPath(doc, path, cs)
      == if d.Some? then Some(Detached(PutAt(doc, at, d.value.rest), d.value.item)) else None
  {
    EndIsSplit(doc, path, parent, token, at, cs);
  }

  /** Where a path ends that can be detached. */
  lemma {:induction false} EndOf(doc: Value, path: string, cs: bool)
      returns (parent: string, token: string, at: seq<nat>)
    requires NulFree(path) && DetachPath(doc, path, cs).Some?
    ensures EndsAt(doc, path, parent, token, at, cs)
  {
    SplitIsEnd(path);
    parent, token := SplitLast(path).value.0, SplitLast(path).value.1;
    at := Locate(doc, parent, cs).value;
    LocateHasNode(doc, parent, cs);
    assert forall i :: 0 <= i < |token| ==> token[i] == path[|parent| + 1 + i];
  }

  lemma {:induction false} StandsIsDetached(doc: Value, path: string, cs: bool)
    requires NulFree(path)
    ensures Stands(doc, path, cs) <==> DetachPath(doc, path, cs).Some?
  {
    if parent: string, token: string, at: seq<nat> :|
      EndsAt(doc, path, parent, token, at, cs) && StandsBelow(NodeAt(doc, at), DecodeInPlace(token)) {
      DetachAtEnd(doc, path, parent, token, at, cs);
      StandsIsFound(NodeAt(doc, at), token);
    }
    if DetachPath(doc, path, cs).Some? {
      var parent, token, at := EndOf(doc, path, cs);
      DetachAtEnd(doc, path, parent, token, at, cs);
      StandsIsFound(NodeAt(doc, at), token);
    }
  }

  /** The parts of a patch. */
  predicate Asks(patch: Value, operation: string, path: string, cs: bool) {
    StringMember(patch, "op", cs) == Some(operation) && StringMember(patch, "path", cs) == Some(path)
  }

  function Given(patch: Value, cs: bool): Option<Value> {
    Lookup(Members(patch), "value", cs)
  }

  lemma {:induction false} RemoveReads(doc: Value, patch: Value, path: string, cs: bool)
    requires Asks(patch, "remove", path, cs) && path != []
    ensures var d := DetachPath(doc, path, cs);
      ApplyPatch(doc, patch, cs) == if d.Some? then Outcome(0, d.value.rest) else Outcome(13, doc)
  {
    OperationIs(patch, "remove", REMOVE, cs);
  }

  lemma {:induction false} AddReads(doc: Value, patch: Value, path: string, w: Value, cs: bool)
    requires Asks(patch, "add", path, cs) && Given(patch, cs) == Some(w) && path != []
    ensures ApplyPatch(doc, patch, cs) == AddAt(doc, path, w, cs)
  {
    OperationIs(patch, "add", ADD, cs);
  }

  lemma {:induction false} ReplaceReads(doc: Value, patch: Value, path: string, cs: bool)
    requires Asks(patch, "replace", path, cs) && path != []
    ensures var d, w := DetachPath(doc, path, cs), Given(patch, cs);
      ApplyPatch(doc, patch, cs)
      == if d.None? then Outcome(13, doc)
         else if w.None? then Outcome(7, d.value.rest)
         else AddAt(d.value.rest, path, w.value, cs)
  {
    OperationIs(patch, "replace", REPLACE, cs);
  }

  /** A remove fails, with status 13, exactly when no item stands at the path, and then changes nothing. */
  lemma {:induction false} RemoveFailsExactly(doc: Value, patch: Value, path: string, cs: bool)
    requires Asks(patch, "remove", path, cs) && path != [] && NulFree(path)
    ensures var r := ApplyPatch(doc, patch, cs);
      && (r.status == 0 || r.status == 13)
      && (r.status == 13 <==> !Stands(doc, path, cs))
      && (r.status == 13 ==> r.doc == doc)
  {
    RemoveReads(doc, patch, path, cs);
    StandsIsDetached(doc, path, cs);
  }

  lemma {:induction false} DetachAtArray(
      doc: Value, path: string, parent: string, token: string, at: seq<nat>, cs: bool)
    requires EndsAt(doc, path, parent, token, at, cs) && NodeAt(doc, at).Array?
    ensures var items, i := NodeAt(doc, at).items, IndexRead(DecodeInPlace(token));
      DetachPath(doc, path, cs)
      == if i.Some? && i.value < |items| then
           Some(Detached(PutAt(doc, at, Array(RemoveAt(items, i.value))), items[i.value]))
         else None
  {
    DetachAtEnd(doc, path, parent, token, at, cs);
    IndexIsRead(token);
  }

  /** A remove from an array takes out exactly the element at the index. */
  lemma {:induction false} RemoveFromArray(
      doc: Value, patch: Value, path: string, parent: string, token: string, at: seq<nat>, cs: bool)
    requires Asks(patch, "remove", path, cs) && EndsAt(doc, path, parent, token, at, cs) && NodeAt(doc, at).Array?
    ensures var items, i := NodeAt(doc, at).items, IndexRead(DecodeInPlace(token));
      ApplyPatch(doc, patch, cs)
      == if i.Some? && i.value < |items| then Outcome(0, PutAt(doc, at, Array(RemoveAt(items, i.value))))
         else Outcome(13, doc)
  {
    EndIsSplit(doc, path, parent, token, at, cs);
    RemoveReads(doc, patch, path, cs);
    DetachAtArray(doc, path, parent, token, at, cs);
  }

  /** The first member of a name, read without regard to case. */
  predicate FirstNamed(ms: seq<Entry<Value>>, name: string, i: nat, cs: bool) {
    && i < |ms| && Fold(ms[i].key, cs) == Fold(name, cs)
    && forall j :: 0 <= j < i ==> Fold(ms[j].key, cs) != Fold(name, cs)
  }

  lemma {:induction false} FirstIsFound(ms: seq<Entry<Value>>, name: string, i: nat, cs: bool)
    requires FirstNamed(ms, name, i, cs)
    ensures FindMember(ms, name, cs) == i
  {
    if i > 0 {
      var rest := ms[1..];
      assert forall j :: 0 <= j < i - 1 ==> rest[j] == ms[j + 1];
      assert Fold(ms[0].key, cs) != Fold(name, cs);
      FirstIsFound(rest, name, i - 1, cs);
    }
  }

  /** A remove from an object takes out the first member of the name, read without regard to case. */
  lemma {:induction false} RemoveFromObject(
      doc: Value, patch: Value, path: string, parent: string, token: string, at: seq<nat>, i: nat, cs: bool)
    requires Asks(patch, "remove", path, cs) && EndsAt(doc, path, parent, token, at, cs) && NodeAt(doc, at).Object?
    requires FirstNamed(NodeAt(doc, at).members, DecodeInPlace(token), i, false)
    ensures ApplyPatch(doc, patch, cs) == Outcome(0, PutAt(doc, at, Object(RemoveAt(NodeAt(doc, at).members, i))))
  {
    EndIsSplit(doc, path, parent, token, at, cs);
    RemoveReads(doc, patch, path, cs);
    DetachAtEnd(doc, path, parent, token, at, cs);
    FirstIsFound(NodeAt(doc, at).members, DecodeInPlace(token), i, false);
  }

  // Adding

  /** An add to an array: behind the end for "-", in front of the element at the index, or at the end for the
      length; status 11 for a token that is no index, 10 for a larger one, and then nothing changes. */
  lemma {:induction false} AddToArray(
      doc: Value, patch: Value, path: string, parent: string, token: string, at: seq<nat>, w: Value, cs: bool)
    requires Asks(patch, "add", path, cs) && Given(patch, cs) == Some(w)
    requires EndsAt(doc, path, parent, token, at, cs) && NodeAt(doc, at).Array?
    ensures ApplyPatch(doc, patch, cs) == AddedToArray(doc, at, DecodeInPlace(token), w)
  {
    AddReads(doc, patch, path, w, cs);
    AddAtArray(doc, path, parent, token, at, w, cs);
  }

  /** What becomes of the array. */
  function AddedToArray(doc: Value, at: seq<nat>, name: string, w: Value): Outcome
    requires HasNode(doc, at) && NodeAt(doc, at).Array?
  {
    var items, i := NodeAt(doc, at).items, IndexRead(name);
    if name == "-" then Outcome(0, PutAt(doc, at, Array(InsertAt(items, |items|, w))))
    else if i.None? then Outcome(11, doc)
    else if i.value <= |items| then Outcome(0, PutAt(doc, at, Array(InsertAt(items, i.value, w))))
    else Outcome(10, doc)
  }

  lemma {:induction false} ChildOfArray(items: seq<Value>, token: string, w: Value, cs: bool)
    requires NulFree(token)
    ensures var name, i := DecodeInPlace(token), IndexRead(DecodeInPlace(token));
      AddChild(Array(items), name, w, cs)
      == if name == "-" then Outcome(0, Array(items + [w]))
         else if i.None? then Outcome(11, Array(items))
         else if i.value <= |items| then Outcome(0, Array(InsertAt(items, i.value, w)))
         else Outcome(10, Array(items))
  {
    IndexIsRead(token);
  }

  lemma {:induction false} AddAtEnd(
      doc: Value, path: string, parent: string, token: string, at: seq<nat>, w: Value, cs: bool)
    requires EndsAt(doc, path, parent, token, at, cs)
    ensures var r := AddChild(NodeAt(doc, at), DecodeInPlace(token), w, cs);
      AddAt(doc, path, w, cs)
      == if r.status != 0 then Outcome(r.status, doc) else Outcome(0, PutAt(doc, at, r.doc))
  {
    EndIsSplit(doc, path, parent, token, at, cs);
  }

  lemma {:induction false} AddAtArray(
      doc: Value, path: string, parent: string, token: string, at: seq<nat>, w: Value, cs: bool)
    requires EndsAt(doc, path, parent, token, at, cs) && NodeAt(doc, at).Array?
    ensures AddAt(doc, path, w, cs) == AddedToArray(doc, at, DecodeInPlace(token), w)
  {
    var items := NodeAt(doc, at).items;
    AddAtEnd(doc, path, parent, token, at, w, cs);
    ChildOfArray(items, token, w, cs);
    assert InsertAt(items, |items|, w) == items + [w];
  }

  /** An add to an object: the value stands at the end under the name, the first member of that name is gone, and
      as a map the object is the old one with the name set. */
  lemma {:induction false} AddToObject(
      doc: Value, patch: Value, path: string, parent: string, token: string, at: seq<nat>, w: Value, cs: bool)
    requires Asks(patch, "add", path, cs) && Given(patch, cs) == Some(w)
    requires EndsAt(doc, path, parent, token, at, cs) && NodeAt(doc, at).Object?
    ensures var ms, name := NodeAt(doc, at).members, DecodeInPlace(token);
      exists ns :: ApplyPatch(doc, patch, cs) == Outcome(0, PutAt(doc, at, Object(ns)))
        && AddedMember(ms, name, w, ns, cs)
  {
    var ms, name := NodeAt(doc, at).members, DecodeInPlace(token);
    var ns := DeleteKey(ms, name, cs) + [Entry(name, w)];
    EndIsSplit(doc, path, parent, token, at, cs);
    AddReads(doc, patch, path, w, cs);
    AddAtObject(doc, path, parent, token, at, w, cs);
    DeletedThenAdded(ms, name, w, cs);
  }

  lemma {:induction false} AddAtObject(
      doc: Value, path: string, parent: string, token: string, at: seq<nat>, w: Value, cs: bool)
    requires EndsAt(doc, path, parent, token, at, cs) && NodeAt(doc, at).Object?
    ensures var ms, name := NodeAt(doc, at).members, DecodeInPlace(token);
      AddAt(doc, path, w, cs) == Outcome(0, PutAt(doc, at, Object(DeleteKey(ms, name, cs) + [Entry(name, w)])))
  {
    EndIsSplit(doc, path, parent, token, at, cs);
  }

  ghost predicate AddedMember(ms: seq<Entry<Value>>, name: string, w: Value, ns: seq<Entry<Value>>, cs: bool) {
    && ((exists i: nat :: FirstNamed(ms, name, i, cs) && ns == RemoveAt(ms, i) + [Entry(name, w)])
        || (Fold(name, cs) !in KeySet(ms, cs) && ns == ms + [Entry(name, w)]))
    && (Distinct(Object(ms), cs) && Distinct(w, cs) ==>
          Distinct(Object(ns), cs)
          && CanonMembers(ns, cs) == CanonMembers(ms, cs)[Fold(name, cs) := Canonical(w, cs)])
  }

  lemma {:induction false} FoundIsFirst(ms: seq<Entry<Value>>, name: string, cs: bool)
    requires FindMember(ms, name, cs) < |ms|
    ensures FirstNamed(ms, name, FindMember(ms, name, cs), cs)
  {
    if Fold(ms[0].key, cs) != Fold(name, cs) {
      var i, rest := FindMember(ms, name, cs), ms[1..];
      FoundIsFirst(rest, name, cs);
      forall j | 0 <= j < i ensures Fold(ms[j].key, cs) != Fold(name, cs) {
        if j > 0 { assert ms[j] == rest[j - 1]; }
      }
    }
  }

  lemma {:induction false} DeletedThenAdded(ms: seq<Entry<Value>>, name: string, w: Value, cs: bool)
    ensures AddedMember(ms, name, w, DeleteKey(ms, name, cs) + [Entry(name, w)], cs)
  {
    var i := FindMember(ms, name, cs);
    if i < |ms| { FoundIsFirst(ms, name, cs); }
    if Distinct(Object(ms), cs) && Distinct(w, cs) { DeleteThenAppend(ms, name, w, cs); }
  }

  /** Nowhere to add: the path has no slash, its parent path leads to no item, or to one that is no list. */
  predicate NoList(doc: Value, parent: string, cs: bool) {
    match Locate(doc, parent, cs)
    case None => true
    case Some(at) => HasNode(doc, at) && !NodeAt(doc, at).Array? && !NodeAt(doc, at).Object?
  }

  predicate Parts(path: string, parent: string, token: string) {
    path == parent + "/" + token && '/' !in token
  }

  ghost predicate NoParent(doc: Value, path: string, cs: bool) {
    forall parent: string, token: string {:trigger Parts(path, parent, token)} ::
      Parts(path, parent, token) ==> NoList(doc, parent, cs)
  }

  /** An add fails with status 9 exactly then. */
  lemma {:induction false} AddToNothing(doc: Value, patch: Value, path: string, w: Value, cs: bool)
    requires Asks(patch, "add", path, cs) && Given(patch, cs) == Some(w) && path != []
    ensures ApplyPatch(doc, patch, cs).status == 9 <==> NoParent(doc, path, cs)
    ensures NoParent(doc, path, cs) ==> ApplyPatch(doc, patch, cs).doc == doc
  {
    AddReads(doc, patch, path, w, cs);
    PartsAreSplit(path);
    if SplitLast(path).Some? {
      var (parent, token) := SplitLast(path).value;
      AddBelowParent(doc, path, parent, token, w, cs);
      assert Parts(path, parent, token);
    }
  }

  lemma {:induction false} PartsAreSplit(path: string)
    ensures forall parent: string, token: string {:trigger Parts(path, parent, token)} ::
      Parts(path, parent, token) <==> SplitLast(path) == Some((parent, token))
  {
    SplitIsEnd(path);
    forall parent: string, token: string | Parts(path, parent, token) ensures SplitLast(path) == Some((parent, token)) {
      SplitsAtLastToken(parent, token);
    }
    forall parent: string, token: string | SplitLast(path) == Some((parent, token)) ensures Parts(path, parent, token) {
    }
  }

  lemma {:induction false} AddBelowParent(doc: Value, path: string, parent: string, token: string, w: Value, cs: bool)
    requires SplitLast(path) == Some((parent, token))
    ensures AddAt(doc, path, w, cs).status == 9 <==> NoList(doc, parent, cs)
    ensures NoList(doc, parent, cs) ==> AddAt(doc, path, w, cs).doc == doc
  {
    LocateHasNode(doc, parent, cs);
  }

  // Replacing

  lemma {:induction false} AddStatuses(doc: Value, path: string, w: Value, cs: bool)
    ensures AddAt(doc, path, w, cs).status in {0, 9, 10, 11}
  {
  }

  /** A replace fails, with status 13, exactly when no item stands at the path. Without a value it fails with
      status 7, and the item is gone. */
  lemma {:induction false} ReplaceFailsExactly(doc: Value, patch: Value, path: string, cs: bool)
    requires Asks(patch, "replace", path, cs) && path != [] && NulFree(path)
    ensures var r := ApplyPatch(doc, patch, cs);
      && (!Stands(doc, path, cs) ==> r == Outcome(13, doc))
      && (r.status == 13 ==> !Stands(doc, path, cs))
      && (Stands(doc, path, cs) && Given(patch, cs).None? ==>
            r == Outcome(7, ApplyPatch(doc, ComposePatch("remove", path, None, None), cs).doc))
  {
    ReplaceReads(doc, patch, path, cs);
    StandsIsDetached(doc, path, cs);
    var d, w := DetachPath(doc, path, cs), Given(patch, cs);
    if d.Some? {
      RemoveIs(doc, path, cs);
      if w.Some? { AddStatuses(d.value.rest, path, w.value, cs); }
    }
  }

  /** A replace of an item by a value is its remove and an add of the value. */
  lemma {:induction false} ReplaceIsRemoveThenAdd(doc: Value, patch: Value, path: string, w: Value, cs: bool)
    requires Asks(patch, "replace", path, cs) && path != [] && NulFree(path)
    requires Given(patch, cs) == Some(w) && Stands(doc, path, cs)
    ensures ApplyPatch(doc, patch, cs)
         == ApplyPatches(doc, [ComposePatch("remove", path, None, None), ValuePatch("add", path, w)], cs)
  {
    ReplaceReads(doc, patch, path, cs);
    StandsIsDetached(doc, path, cs);
    RemoveIs(doc, path, cs);
    AddIs(DetachPath(doc, path, cs).value.rest, path, w, cs);
    OneThenOther(doc, ComposePatch("remove", path, None, None), ValuePatch("add", path, w), cs);
  }

  /** Nothing on the way to an item changes when the item is replaced. */
  lemma {:induction false} LocateAfterPut(v: Value, p: string, at: seq<nat>, w: Value, cs: bool)
    requires Locate(v, p, cs) == Some(at) && HasNode(v, at)
    ensures HasNode(PutAt(v, at, w), at) && NodeAt(PutAt(v, at, w), at) == w
    ensures Locate(PutAt(v, at, w), p, cs) == Some(at)
    decreases |p|
  {
    if p != [] && p[0] == '/' {
      var i, rest := at[0], at[1..];
      assert at == [i] + rest;
      match v
      case Array(items) =>
        assert Locate(items[i], SkipToken(p[1..]), cs) == Some(rest);
        LocateAfterPut(items[i], SkipToken(p[1..]), rest, w, cs);
      case Object(ms) =>
        assert Children(v)[i] == ms[i].value;
        LocateAfterPut(ms[i].value, SkipToken(p[1..]), rest, w, cs);
        SameNames(ms, i, PutAt(ms[i].value, rest, w), p[1..], cs);
    }
  }

  lemma {:induction false} SameNames(ms: seq<Entry<Value>>, i: nat, w: Value, p: string, cs: bool)
    requires i < |ms|
    ensures FindPointed(WithValue(ms, i, w), p, cs) == FindPointed(ms, p, cs)
  {
    var ns := WithValue(ms, i, w);
    if i == 0 {
      assert ns[1..] == ms[1..];
    } else {
      SameNames(ms[1..], i - 1, w, p, cs);
      assert ns[1..] == WithValue(ms[1..], i - 1, w);
    }
  }

  /** A replace in an array updates the element at the index. */
  lemma {:induction false} ReplaceInArray(
      doc: Value, patch: Value, path: string, parent: string, token: string, at: seq<nat>, w: Value, cs: bool)
    requires Asks(patch, "replace", path, cs) && Given(patch, cs) == Some(w)
    requires EndsAt(doc, path, parent, token, at, cs) && NodeAt(doc, at).Array?
    ensures var items, i := NodeAt(doc, at).items, IndexRead(DecodeInPlace(token));
      ApplyPatch(doc, patch, cs)
      == if i.Some? && i.value < |items| then Outcome(0, PutAt(doc, at, Array(items[i.value := w])))
         else Outcome(13, doc)
  {
    var items, name := NodeAt(doc, at).items, DecodeInPlace(token);
    EndIsSplit(doc, path, parent, token, at, cs);
    ReplaceReads(doc, patch, path, cs);
    DetachAtArray(doc, path, parent, token, at, cs);
    DashIsNoIndex();
    var i := IndexRead(name);
    if i.Some? && i.value < |items| {
      var rest := RemoveAt(items, i.value);
      LocateAfterPut(doc, parent, at, Array(rest), cs);
      AddAtArray(PutAt(doc, at, Array(rest)), path, parent, token, at, w, cs);
      InsertBack(items, i.value, w);
      PutTwiceAt(doc, at, Array(rest), Array(items[i.value := w]));
    }
  }

  lemma {:induction false} DashIsNoIndex()
    ensures IndexRead("-") == None
  {
    assert TokenOf("-") == "-" by { assert "-"[1..] == []; }
    assert "-"[0] < '0';
  }

  // The whole document, and malformed patches

  /** The empty path is the whole document. */
  lemma {:induction false} RootIsReplaced(doc: Value, patch: Value, operation: string, cs: bool)
    requires Asks(patch, operation, [], cs)
    ensures operation == "remove" ==> ApplyPatch(doc, patch, cs) == Outcome(0, Invalid)
    ensures operation == "add" || operation == "replace" ==>
      ApplyPatch(doc, patch, cs)
      == if Given(patch, cs).Some? then Outcome(0, Given(patch, cs).value) else Outcome(7, doc)
  {
    if operation == "remove" { OperationIs(patch, operation, REMOVE, cs); }
    if operation == "add" { OperationIs(patch, operation, ADD, cs); }
    if operation == "replace" { OperationIs(patch, operation, REPLACE, cs); }
  }

  /** A part of a patch is the first member of its name, and no string is read from a member that is none. */
  lemma {:induction false} PartIsFirst(patch: Value, name: string, w: Value, cs: bool)
    ensures var found := exists i: nat :: FirstNamed(Members(patch), name, i, cs) && Members(patch)[i].value == w;
      && (Lookup(Members(patch), name, cs) == Some(w) <==> found)
      && (w.String? ==> (StringMember(patch, name, cs) == Some(w.s) <==> found))
      && (StringMember(patch, name, cs).Some? ==>
            Lookup(Members(patch), name, cs) == Some(String(StringMember(patch, name, cs).value)))
  {
    var ms := Members(patch);
    if i: nat :| FirstNamed(ms, name, i, cs) && ms[i].value == w {
      FirstIsFound(ms, name, i, cs);
    }
    if Lookup(ms, name, cs).Some? { FoundIsFirst(ms, name, cs); }
  }

  const OPERATIONS: set<string> := {"add", "remove", "replace", "move", "copy", "test"}

  /** Without a string as path a patch is refused with status 2, and without a known operation with status 3;
      nothing else has these statuses, and nothing changes. */
  lemma {:induction false} MalformedPatch(doc: Value, patch: Value, cs: bool)
    ensures var r := ApplyPatch(doc, patch, cs);
      var path, op := StringMember(patch, "path", cs), StringMember(patch, "op", cs);
      && (r.status == 2 <==> path.None?)
      && (r.status == 3 <==> path.Some? && (op.None? || op.value !in OPERATIONS))
      && (r.status == 2 || r.status == 3 ==> r.doc == doc)
  {
    KnownOperation(patch, cs);
    if StringMember(patch, "path", cs).Some? && DecodeOperation(patch, cs) != INVALID {
      LaterStatus(doc, patch, cs);
    }
  }

  lemma {:induction false} KnownOperation(patch: Value, cs: bool)
    ensures var op := StringMember(patch, "op", cs);
      DecodeOperation(patch, cs) == INVALID <==> op.None? || op.value !in OPERATIONS
  {
  }

  /** The statuses of well-formed patches. */
  lemma {:induction false} LaterStatus(doc: Value, patch: Value, cs: bool)
    requires StringMember(patch, "path", cs).Some? && DecodeOperation(patch, cs) != INVALID
    ensures ApplyPatch(doc, patch, cs).status in {0, 1, 4, 5, 7, 9, 10, 11, 13}
  {
    var path := StringMember(patch, "path", cs).value;
    match DecodeOperation(patch, cs)
    case MOVE => MoveStatuses(doc, patch, path, true, cs);
    case COPY => MoveStatuses(doc, patch, path, false, cs);
    case TEST =>
    case ADD => AddedStatuses(doc, patch, path, cs);
    case REMOVE => RemovedStatuses(doc, patch, path, cs);
    case REPLACE => ReplaceStatuses(doc, patch, path, cs);
  }

  lemma {:induction false} ReplaceStatuses(doc: Value, patch: Value, path: string, cs: bool)
    requires Asks(patch, "replace", path, cs)
    ensures ApplyPatch(doc, patch, cs).status in {0, 7, 9, 10, 11, 13}
  {
    OperationIs(patch, "replace", REPLACE, cs);
    var d, w := DetachPath(doc, path, cs), Given(patch, cs);
    if d.Some? && w.Some? { AddStatuses(d.value.rest, path, w.value, cs); }
  }

  lemma {:induction false} AddedStatuses(doc: Value, patch: Value, path: string, cs: bool)
    requires Asks(patch, "add", path, cs)
    ensures ApplyPatch(doc, patch, cs).status in {0, 7, 9, 10, 11}
  {
    OperationIs(patch, "add", ADD, cs);
    var w := Given(patch, cs);
    if w.Some? { AddStatuses(doc, path, w.value, cs); }
  }

  lemma {:induction false} RemovedStatuses(doc: Value, patch: Value, path: string, cs: bool)
    requires Asks(patch, "remove", path, cs)
    ensures ApplyPatch(doc, patch, cs).status in {0, 13}
  {
    OperationIs(patch, "remove", REMOVE, cs);
  }

  lemma {:induction false} MoveStatuses(doc: Value, patch: Value, path: string, move: bool, cs: bool)
    ensures MoveOrCopy(doc, patch, path, move, cs).status in {0, 4, 5, 9, 10, 11}
    ensures MoveOrCopy(doc, patch, path, move, cs).status == 4 <==> Lookup(Members(patch), "from", cs).None?
  {
    var from := StringMember(patch, "from", cs);
    if Lookup(Members(patch), "from", cs).Some? && from.Some? {
      var d, at := DetachPath(doc, from.value, cs), Locate(doc, from.value, cs);
      if move && d.Some? {
        AddStatuses(d.value.rest, path, d.value.item, cs);
      } else if !move && at.Some? {
        LocateHasNode(doc, from.value, cs);
        AddStatuses(doc, path, NodeAt(doc, at.value), cs);
      }
    }
  }

  lemma {:induction false} MoveReads(doc: Value, patch: Value, operation: string, path: string, cs: bool)
    requires Asks(patch, operation, path, cs) && (operation == "move" || operation == "copy")
    ensures ApplyPatch(doc, patch, cs) == MoveOrCopy(doc, patch, path, operation == "move", cs)
  {
    if operation == "move" {
      OtherOperationIs(patch, operation, MOVE, cs);
    } else {
      OtherOperationIs(patch, operation, COPY, cs);
    }
  }

  /** A move or a copy without "from" is refused with status 4. */
  lemma {:induction false} MissingFrom(doc: Value, patch: Value, operation: string, path: string, cs: bool)
    requires Asks(patch, operation, path, cs) && (operation == "move" || operation == "copy")
    ensures ApplyPatch(doc, patch, cs).status == 4 <==> Lookup(Members(patch), "from", cs).None?
    ensures Lookup(Members(patch), "from", cs).None? ==> ApplyPatch(doc, patch, cs).doc == doc
  {
    var move := operation == "move";
    MoveReads(doc, patch, operation, path, cs);
    MoveStatuses(doc, patch, path, move, cs);
  }

  /** An add without a value is refused with status 7. */
  lemma {:induction false} MissingValue(doc: Value, patch: Value, path: string, cs: bool)
    requires Asks(patch, "add", path, cs) && Given(patch, cs).None?
    ensures ApplyPatch(doc, patch, cs) == Outcome(7, doc)
  {
    OperationIs(patch, "add", ADD, cs);
  }

  // Patches in turn

  /** Patch i turns one document into the next. */
  ghost predicate TurnedAt(docs: seq<Value>, patches: seq<Value>, i: nat, cs: bool) {
    i + 1 < |docs| && i < |patches| && ApplyPatch(docs[i], patches[i], cs) == Outcome(0, docs[i + 1])
  }

  /** The patches of a list are applied in turn, each to what the one before has left, up to the first that fails.
      Its status is that of the list, and the document stays as it is then. */
  lemma {:induction false} PatchesInTurn(docs: seq<Value>, patches: seq<Value>, n: nat, cs: bool)
    requires |docs| == n + 1 && n <= |patches|
    requires forall i: nat {:trigger TurnedAt(docs, patches, i, cs)} :: i < n ==> TurnedAt(docs, patches, i, cs)
    ensures n == |patches| ==> ApplyPatches(docs[0], patches, cs) == Outcome(0, docs[n])
    ensures n < |patches| && ApplyPatch(docs[n], patches[n], cs).status != 0 ==>
      ApplyPatches(docs[0], patches, cs) == ApplyPatch(docs[n], patches[n], cs)
    decreases n
  {
    if n > 0 {
      assert TurnedAt(docs, patches, 0, cs);
      forall i: nat | i < n - 1 ensures TurnedAt(docs[1..], patches[1..], i, cs) {
        assert TurnedAt(docs, patches, i + 1, cs);
      }
      PatchesInTurn(docs[1..], patches[1..], n - 1, cs);
    }
  }
}
