/** JSON Patch (RFC 6902): generating a patch from two trees and applying it to a document. */
module Patch {
  import opened CText
  import opened Json
  import opened Options
  import opened MergeSort
  import opened Equality
  import opened Comparison
  import opened Pointer
  import opened Sequences

  // Pointers into the parent and the child

  /** decode_pointer_inplace from a write position d and a read position i on. A "~1" writes its
      '/' one place too far, and characters behind an escape are not moved down. */
  function DecodeFrom(buffer: string, d: nat, i: nat): string
    requires d <= i <= |buffer|
    decreases |buffer| - i
  {
    if i == |buffer| then buffer[..d]
    else if buffer[i] != '~' then DecodeFrom(buffer, d + 1, i + 1)
    else if At(buffer, i + 1) == '0' && i + 1 < |buffer| then DecodeFrom(buffer[d := '~'], d + 1, i + 2)
    else if At(buffer, i + 1) == '1' && i + 1 < |buffer| then DecodeFrom(buffer[d + 1 := '/'], d + 1, i + 2)
    else buffer
  }

  function DecodeInPlace(s: string): string {
    DecodeFrom(s, 0, 0)
  }

  /** strrchr(path, '/'): what stands before and behind the last slash. */
  function SplitLast(path: string): Option<(string, string)> {
    if path == [] then None
    else if path[|path| - 1] == '/' then Some((path[..|path| - 1], []))
    else
      match SplitLast(path[..|path| - 1])
      case None => None
      case Some((parent, child)) => Some((parent, child + [path[|path| - 1]]))
  }

  // Changing one item of a tree

  function WithChild(v: Value, i: nat, w: Value): (r: Value)
    requires i < |Children(v)|
    ensures |Children(r)| == |Children(v)|
  {
    match v
    case Array(items) => Array(items[i := w])
    case Object(ms) => Object(WithValue(ms, i, w))
  }

  /** The tree with the item at the position replaced by w. */
  function PutAt(v: Value, at: seq<nat>, w: Value): Value
    requires HasNode(v, at)
    decreases |at|
  {
    if at == [] then w else WithChild(v, at[0], PutAt(Children(v)[at[0]], at[1..], w))
  }

  lemma {:induction false} LocateHasNode(v: Value, p: string, cs: bool)
    ensures Locate(v, p, cs).Some? ==> HasNode(v, Locate(v, p, cs).value)
    decreases |p|
  {
    if p != [] && p[0] == '/' {
      match v
      case Array(items) =>
        var i := DecodeIndex(p[1..]);
        if i.Some? && i.value < |items| { LocateHasNode(items[i.value], SkipToken(p[1..]), cs); }
      case Object(ms) =>
        var i := FindPointed(ms, p[1..], cs);
        if i < |ms| { LocateHasNode(ms[i].value, SkipToken(p[1..]), cs); }
      case _ =>
    }
  }

  // detach_path

  /** What is left after a child was taken out, and the child. */
  datatype Detached = Detached(rest: Value, item: Value)

  /** The final step matches member names without regard to case whatever the flag says. */
  function DetachChild(parent: Value, child: string): Option<Detached> {
    match parent
    case Array(items) =>
      (match DecodeIndex(child)
       case None => None
       case Some(i) => if i < |items| then Some(Detached(Array(RemoveAt(items, i)), items[i])) else None)
    case Object(ms) =>
      var i := FindMember(ms, child, false);
      if i < |ms| then Some(Detached(Object(RemoveAt(ms, i)), ms[i].value)) else None
    case _ => None
  }

  function DetachPath(doc: Value, path: string, cs: bool): Option<Detached> {
    match SplitLast(path)
    case None => None
    case Some((parent, last)) =>
      match Locate(doc, parent, cs)
      case None => None
      case Some(at) =>
        LocateHasNode(doc, parent, cs);
        match DetachChild(NodeAt(doc, at), DecodeInPlace(last))
        case None => None
        case Some(d) => Some(Detached(PutAt(doc, at, d.rest), d.item))
  }

  // apply_patch

  datatype Operation = INVALID | ADD | REMOVE | REPLACE | MOVE | COPY | TEST

  /** The status the C function returns and the document it leaves, as long as every object that is appended to
      knows its last member; module TreePatch says what happens otherwise. */
  datatype Outcome = Outcome(status: int, doc: Value)

  /** get_object_item finds nothing in an item that is not an object. */
  function Members(v: Value): seq<Entry<Value>> {
    if v.Object? then v.members else []
  }

  /** A member that must be a string to be used. */
  function StringMember(v: Value, name: string, cs: bool): Option<string> {
    var m := Lookup(Members(v), name, cs);
    if m.Some? && m.value.String? then Some(m.value.s) else None
  }

  function DecodeOperation(patch: Value, cs: bool): Operation {
    match StringMember(patch, "op", cs)
    case Some(s) =>
      if s == "add" then ADD
      else if s == "remove" then REMOVE
      else if s == "replace" then REPLACE
      else if s == "move" then MOVE
      else if s == "copy" then COPY
      else if s == "test" then TEST
      else INVALID
    case None => INVALID
  }

  /** The value becomes a child of the parent, or a status says why not. */
  function AddChild(parent: Value, child: string, value: Value, cs: bool): Outcome {
    match parent
    case Array(items) =>
      if child == "-" then Outcome(0, Array(items + [value]))
      else
        (match DecodeIndex(child)
         case None => Outcome(11, parent)
         case Some(i) =>
           if i > |items| then Outcome(10, parent)
           else Outcome(0, Array(items[..i] + [value] + items[i..])))
    case Object(ms) => Outcome(0, Object(DeleteKey(ms, child, cs) + [Entry(child, value)]))
    case _ => Outcome(9, parent)
  }

  /** The closing part of apply_patch: put the value where the path says. */
  function AddAt(doc: Value, path: string, value: Value, cs: bool): Outcome {
    match SplitLast(path)
    case None => Outcome(9, doc)
    case Some((parent, last)) =>
      match Locate(doc, parent, cs)
      case None => Outcome(9, doc)
      case Some(at) =>
        LocateHasNode(doc, parent, cs);
        var r := AddChild(NodeAt(doc, at), DecodeInPlace(last), value, cs);
        if r.status != 0 then Outcome(r.status, doc) else Outcome(0, PutAt(doc, at, r.doc))
  }

  function TestAt(doc: Value, path: string, value: Option<Value>, cs: bool): bool {
    match (Locate(doc, path, cs), value)
    case (Some(at), Some(v)) => LocateHasNode(doc, path, cs); CompareJson(NodeAt(doc, at), v, cs)
    case _ => false
  }

  /** A test sorts what it compares. */
  function TestedAt(doc: Value, path: string, value: Option<Value>, cs: bool): Value {
    match (Locate(doc, path, cs), value)
    case (Some(at), Some(v)) => LocateHasNode(doc, path, cs); PutAt(doc, at, Compared(NodeAt(doc, at), v, cs))
    case _ => doc
  }

  function MoveOrCopy(doc: Value, patch: Value, path: string, move: bool, cs: bool): Outcome {
    if Lookup(Members(patch), "from", cs).None? then Outcome(4, doc) else
    match StringMember(patch, "from", cs)
    case None => Outcome(5, doc)
    case Some(from) =>
      if move then
        (match DetachPath(doc, from, cs)
         case None => Outcome(5, doc)
         case Some(d) => AddAt(d.rest, path, d.item, cs))
      else
        (match Locate(doc, from, cs)
         case None => Outcome(5, doc)
         case Some(at) => LocateHasNode(doc, from, cs); AddAt(doc, path, NodeAt(doc, at), cs))
  }

  function ApplyPatch(doc: Value, patch: Value, cs: bool): Outcome {
    match StringMember(patch, "path", cs)
    case Some(path) =>
      (var value := Lookup(Members(patch), "value", cs);
       match DecodeOperation(patch, cs)
       case INVALID => Outcome(3, doc)
       case TEST => Outcome(if TestAt(doc, path, value, cs) then 0 else 1, TestedAt(doc, path, value, cs))
       case REMOVE =>
         if path == [] then Outcome(0, Invalid)
         else
           (match DetachPath(doc, path, cs)
            case None => Outcome(13, doc)
            case Some(d) => Outcome(0, d.rest))
       case REPLACE =>
         if path == [] then
           (if value.Some? then Outcome(0, value.value) else Outcome(7, doc))
         else
           (match DetachPath(doc, path, cs)
            case None => Outcome(13, doc)
            case Some(d) => if value.Some? then AddAt(d.rest, path, value.value, cs) else Outcome(7, d.rest))
       case ADD =>
         if value.None? then Outcome(7, doc)
         else if path == [] then Outcome(0, value.value)
         else AddAt(doc, path, value.value, cs)
       case MOVE => MoveOrCopy(doc, patch, path, true, cs)
       case COPY => MoveOrCopy(doc, patch, path, false, cs))
    case None => Outcome(2, doc)
  }

  /** cJSONUtils_ApplyPatches: patches are applied in order until one fails. */
  function ApplyPatches(doc: Value, patches: seq<Value>, cs: bool): Outcome
    decreases |patches|
  {
    if patches == [] then Outcome(0, doc)
    else
      var r := ApplyPatch(doc, patches[0], cs);
      if r.status != 0 then r else ApplyPatches(r.doc, patches[1..], cs)
  }

  // compose_patch and create_patches

  function ComposePatch(operation: string, path: string, suffix: Option<string>, value: Option<Value>): Value {
    var full := if suffix.Some? then path + "/" + EncodeToken(suffix.value) else path;
    Object([Entry("op", String(operation)), Entry("path", String(full))]
           + if value.Some? then [Entry("value", value.value)] else [])
  }

  function CreatePatches(path: string, from: Value, to: Value, cs: bool): seq<Value>
    decreases Height(from), 0
  {
    if !SameType(from, to) then [ComposePatch("replace", path, None, Some(to))]
    else
      match from
      case Number(n) => if n == to.n then [] else [ComposePatch("replace", path, None, Some(to))]
      case String(s) => if s == to.s then [] else [ComposePatch("replace", path, None, Some(to))]
      case Array(items) => PatchItems(path, items, to.items, 0, cs)
      case Object(ms) =>
        SortKeepsHeight(ms, cs);
        PatchMembers(path, Sort(ms, cs), Sort(to.members, cs), cs)
      case _ => []
  }

  /** The three loops over array elements: common ones, leftovers of from, additions of to. */
  function PatchItems(path: string, from: seq<Value>, to: seq<Value>, index: nat, cs: bool): seq<Value>
    decreases ItemsHeight(from), |from| + |to|
  {
    if from != [] && to != [] then
      CreatePatches(path + "/" + IndexText(index), from[0], to[0], cs)
      + PatchItems(path, from[1..], to[1..], index + 1, cs)
    else if from != [] then
      [ComposePatch("remove", path, Some(IndexText(index)), None)] + PatchItems(path, from[1..], [], index, cs)
    else if to != [] then
      [ComposePatch("add", path, Some("-"), Some(to[0]))] + PatchItems(path, [], to[1..], index + 1, cs)
    else []
  }

  /** The walk over the sorted members of both objects. */
  function PatchMembers(path: string, from: seq<Entry<Value>>, to: seq<Entry<Value>>, cs: bool): seq<Value>
    decreases MembersHeight(from), |from| + |to|
  {
    if from == [] && to == [] then []
    else
      var diff := if from == [] then 1 else if to == [] then -1 else Compare(from[0].key, to[0].key, cs);
      if diff == 0 then
        CreatePatches(path + "/" + EncodeToken(from[0].key), from[0].value, to[0].value, cs)
        + PatchMembers(path, from[1..], to[1..], cs)
      else if diff < 0 then
        [ComposePatch("remove", path, Some(from[0].key), None)] + PatchMembers(path, from[1..], to, cs)
      else
        [ComposePatch("add", path, Some(to[0].key), Some(to[0].value))] + PatchMembers(path, from, to[1..], cs)
  }

  function GeneratePatches(from: Value, to: Value, cs: bool): seq<Value> {
    CreatePatches([], from, to, cs)
  }
}
