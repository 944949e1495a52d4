/** Patches on a document whose objects remember what their first member says about the last one: the same as
    on plain trees exactly as long as no patch appends to an object that a test has sorted out of order. */
module TreePatch {
  import opened Json
  import opened Options
  import opened Sequences
  import opened Pointer
  import opened Patch
  import opened Tails
  import opened Trees

  /** The status and the document; or a pointer was followed that is null, or leads to an item that is no child
      any more, and C leaves open what happens. */
  datatype Run = Run(status: int, doc: Tree) | Astray

  datatype DetachedTree = DetachedTree(rest: Tree, item: Tree)

  function DetachKid(parent: Tree, child: string): Option<DetachedTree> {
    match parent
    case TArray(items) =>
      (match DecodeIndex(child)
       case None => None
       case Some(i) => if i < |items| then Some(DetachedTree(TArray(RemoveAt(items, i)), items[i])) else None)
    case TObject(ms, tail) =>
      var i := FindMember(ms, child, false);
      if i < |ms| then Some(DetachedTree(TObject(RemoveAt(ms, i), AfterDetach(|ms|, tail, i)), ms[i].value)) else None
    case TLeaf(_) => None
  }

  function DetachTree(doc: Tree, path: string, cs: bool): Option<DetachedTree> {
    match SplitLast(path)
    case None => None
    case Some((parent, last)) =>
      match Locate(Plain(doc), parent, cs)
      case None => None
      case Some(at) =>
        LocateHasNode(Plain(doc), parent, cs);
        match DetachKid(SubTree(doc, at), DecodeInPlace(last))
        case None => None
        case Some(d) => Some(DetachedTree(Graft(doc, at, d.rest), d.item))
  }

  /** The members without the first one of the key. */
  function Without(ms: seq<Entry<Tree>>, tail: Tail, key: string, cs: bool): Chain<Entry<Tree>> {
    var i := FindMember(ms, key, cs);
    if i < |ms| then Chain(RemoveAt(ms, i), AfterDetach(|ms|, tail, i)) else Chain(ms, tail)
  }

  function AddKid(parent: Tree, child: string, value: Tree, cs: bool): Run {
    match parent
    case TArray(items) =>
      if child == "-" then Run(0, TArray(items + [value]))
      else
        (match DecodeIndex(child)
         case None => Run(11, parent)
         case Some(i) =>
           if i > |items| then Run(10, parent)
           else Run(0, TArray(items[..i] + [value] + items[i..])))
    case TObject(ms, tail) =>
      var others := Without(ms, tail, child, cs);
      (match Appended(others.items, others.tail, Entry(child, value))
       case None => Astray
       case Some(all) => Run(0, TObject(all.items, all.tail)))
    case TLeaf(_) => Run(9, parent)
  }

  function AddTree(doc: Tree, path: string, value: Tree, cs: bool): Run {
    match SplitLast(path)
    case None => Run(9, doc)
    case Some((parent, last)) =>
      match Locate(Plain(doc), parent, cs)
      case None => Run(9, doc)
      case Some(at) =>
        LocateHasNode(Plain(doc), parent, cs);
        GraftKid(doc, at, AddKid(SubTree(doc, at), DecodeInPlace(last), value, cs))
  }

  /** The parent with its new child takes its place in the document again. */
  function GraftKid(doc: Tree, at: seq<nat>, r: Run): Run
    requires HasNode(Plain(doc), at)
  {
    if r.Astray? then Astray
    else if r.status != 0 then Run(r.status, doc)
    else Run(0, Graft(doc, at, r.doc))
  }

  function TestTree(doc: Tree, path: string, value: Option<Value>, cs: bool): Tree {
    match (Locate(Plain(doc), path, cs), value)
    case (Some(at), Some(v)) =>
      LocateHasNode(Plain(doc), path, cs);
      Graft(doc, at, ComparedTree(SubTree(doc, at), v, cs))
    case _ => doc
  }

  /** A moved item keeps what its objects say; a copied one is as good as new. A move does not look whether its
      "from" is a string. */
  function TransferTree(doc: Tree, patch: Value, path: string, move: bool, cs: bool): Run {
    if Lookup(Members(patch), "from", cs).None? then Run(4, doc) else
    match StringMember(patch, "from", cs)
    case None => if move then Astray else Run(5, doc)
    case Some(from) =>
      if move then
        (match DetachTree(doc, from, cs)
         case None => Run(5, doc)
         case Some(d) => AddTree(d.rest, path, d.item, cs))
      else
        (match Locate(Plain(doc), from, cs)
         case None => Run(5, doc)
         case Some(at) =>
           LocateHasNode(Plain(doc), from, cs);
           AddTree(doc, path, Fresh(NodeAt(Plain(doc), at)), cs))
  }

  /** apply_patch. */
  function ApplyTree(doc: Tree, patch: Value, cs: bool): Run {
    match StringMember(patch, "path", cs)
    case Some(path) => Operate(doc, DecodeOperation(patch, cs), path, Lookup(Members(patch), "value", cs), patch, cs)
    case None => Run(2, doc)
  }

  function Operate(
      doc: Tree, opcode: Operation, path: string, value: Option<Value>, patch: Value, cs: bool): Run {
    match opcode
    case INVALID => Run(3, doc)
    case TEST => Run(if TestAt(Plain(doc), path, value, cs) then 0 else 1, TestTree(doc, path, value, cs))
    case REMOVE =>
      if path == [] then Run(0, TLeaf(Invalid))
      else
        (match DetachTree(doc, path, cs)
         case None => Run(13, doc)
         case Some(d) => Run(0, d.rest))
    case REPLACE =>
      if path == [] then
        (if value.Some? then Run(0, Fresh(value.value)) else Run(7, doc))
      else
        (match DetachTree(doc, path, cs)
         case None => Run(13, doc)
         case Some(d) =>
           if value.Some? then AddTree(d.rest, path, Fresh(value.value), cs) else Run(7, d.rest))
    case ADD =>
      if value.None? then Run(7, doc)
      else if path == [] then Run(0, Fresh(value.value))
      else AddTree(doc, path, Fresh(value.value), cs)
    case MOVE => TransferTree(doc, patch, path, true, cs)
    case COPY => TransferTree(doc, patch, path, false, cs)
  }

  /** cJSONUtils_ApplyPatches. */
  function ApplyTrees(doc: Tree, patches: seq<Value>, cs: bool): Run
    decreases |patches|
  {
    if patches == [] then Run(0, doc)
    else
      var r := ApplyTree(doc, patches[0], cs);
      if r.Astray? || r.status != 0 then r else ApplyTrees(r.doc, patches[1..], cs)
  }

  // One patch

  /** The status and, to a walk over the document, the document are the specified ones. */
  predicate Agrees(r: Run, o: Outcome) {
    r.Run? && r.status == o.status && Plain(r.doc) == o.doc
  }

  lemma {:induction false} PlainFind(ms: seq<Entry<Tree>>, key: string, cs: bool)
    ensures FindMember(PlainMembers(ms), key, cs) == FindMember(ms, key, cs)
  {
    if ms != [] {
      PlainTails([], ms);
      PlainFind(ms[1..], key, cs);
    }
  }

  lemma {:induction false} PlainWithout(ms: seq<Entry<Tree>>, tail: Tail, key: string, cs: bool)
    ensures PlainMembers(Without(ms, tail, key, cs).items) == DeleteKey(PlainMembers(ms), key, cs)
    ensures SoundMembers(ms) ==> SoundMembers(Without(ms, tail, key, cs).items)
    ensures Knows(|ms|, tail) ==> var c := Without(ms, tail, key, cs); Knows(|c.items|, c.tail)
  {
    PlainFind(ms, key, cs);
    RemoveIsPlain([], ms, FindMember(ms, key, cs));
  }

  lemma {:induction false} RemoveIsPlain(items: seq<Tree>, ms: seq<Entry<Tree>>, i: nat)
    ensures i < |items| ==> PlainItems(RemoveAt(items, i)) == RemoveAt(PlainItems(items), i)
    ensures i < |items| && SoundItems(items) ==> SoundItems(RemoveAt(items, i))
    ensures i < |ms| ==> PlainMembers(RemoveAt(ms, i)) == RemoveAt(PlainMembers(ms), i)
    ensures i < |ms| && SoundMembers(ms) ==> SoundMembers(RemoveAt(ms, i))
  {
  }

  ghost predicate SameDetached(d: Option<DetachedTree>, e: Option<Detached>) {
    if e.None? then d.None?
    else d.Some? && Plain(d.value.rest) == e.value.rest && Plain(d.value.item) == e.value.item
  }

  lemma DetachKidIsPlain(parent: Tree, child: string)
    ensures SameDetached(DetachKid(parent, child), DetachChild(Plain(parent), child))
  {
    match parent
    case TArray(items) =>
      var i := DecodeIndex(child);
      if i.Some? { RemoveIsPlain(items, [], i.value); }
    case TObject(ms, tail) =>
      PlainFind(ms, child, false);
      RemoveIsPlain([], ms, FindMember(ms, child, false));
    case TLeaf(_) =>
  }

  lemma DetachKidIsSound(parent: Tree, child: string)
    requires Sound(parent) && DetachKid(parent, child).Some?
    ensures var d := DetachKid(parent, child).value; Sound(d.rest) && Sound(d.item)
  {
    match parent
    case TArray(items) =>
      RemoveIsPlain(items, [], DecodeIndex(child).value);
    case TObject(ms, tail) =>
      RemoveIsPlain([], ms, FindMember(ms, child, false));
  }

  lemma DetachTreeIsPlain(doc: Tree, path: string, cs: bool)
    ensures SameDetached(DetachTree(doc, path, cs), DetachPath(Plain(doc), path, cs))
  {
    var split := SplitLast(path);
    if split.Some? {
      var at := Locate(Plain(doc), split.value.0, cs);
      LocateHasNode(Plain(doc), split.value.0, cs);
      if at.Some? { DetachKidIsPlain(SubTree(doc, at.value), DecodeInPlace(split.value.1)); }
    }
  }

  lemma DetachTreeIsSound(doc: Tree, path: string, cs: bool)
    requires Sound(doc) && DetachTree(doc, path, cs).Some?
    ensures var d := DetachTree(doc, path, cs).value; Sound(d.rest) && Sound(d.item)
  {
    var (parent, last) := SplitLast(path).value;
    LocateHasNode(Plain(doc), parent, cs);
    DetachKidIsSound(SubTree(doc, Locate(Plain(doc), parent, cs).value), DecodeInPlace(last));
  }

  /** The object that is appended to does not know its last member. */
  predicate KidMisses(parent: Tree, child: string, cs: bool) {
    parent.TObject? && var c := Without(parent.members, parent.tail, child, cs); !Knows(|c.items|, c.tail)
  }

  predicate Misses(doc: Tree, path: string, cs: bool) {
    var split := SplitLast(path);
    split.Some? &&
    var at := Locate(Plain(doc), split.value.0, cs);
    LocateHasNode(Plain(doc), split.value.0, cs);
    at.Some? && KidMisses(SubTree(doc, at.value), DecodeInPlace(split.value.1), cs)
  }

  lemma {:induction false} AddKidExactly(parent: Tree, child: string, value: Tree, cs: bool)
    ensures var r, o := AddKid(parent, child, value, cs), AddChild(Plain(parent), child, Plain(value), cs);
      && (Agrees(r, o) <==> !KidMisses(parent, child, cs)) && (r.Run? ==> r.status == o.status)
  {
    match parent
    case TArray(items) =>
      var i := DecodeIndex(child);
      assert PlainItems(items + [value]) == PlainItems(items) + [Plain(value)];
      if i.Some? && i.value <= |items| { InsertIsPlain(items, i.value, value); }
    case TObject(ms, tail) =>
      PlainWithout(ms, tail, child, cs);
      var c := Without(ms, tail, child, cs);
      AppendedIsPlain(c.items, c.tail, child, value);
    case TLeaf(_) =>
  }

  lemma InsertIsPlain(items: seq<Tree>, k: nat, value: Tree)
    requires k <= |items|
    ensures PlainItems(items[..k] + [value] + items[k..])
         == PlainItems(items)[..k] + [Plain(value)] + PlainItems(items)[k..]
  {
  }

  lemma AddKidIsSound(parent: Tree, child: string, value: Tree, cs: bool)
    requires Sound(parent) && Sound(value)
    ensures !KidMisses(parent, child, cs)
    ensures var r := AddKid(parent, child, value, cs); r.Run? && Sound(r.doc)
  {
    if parent.TObject? {
      PlainWithout(parent.members, parent.tail, child, cs);
      var c := Without(parent.members, parent.tail, child, cs);
      AppendedIsPlain(c.items, c.tail, child, value);
    }
  }

  lemma AppendedIsPlain(ms: seq<Entry<Tree>>, tail: Tail, key: string, value: Tree)
    ensures var r := Appended(ms, tail, Entry(key, value));
      && (r.Some? && PlainMembers(r.value.items) == PlainMembers(ms) + [Entry(key, Plain(value))]
          <==> Knows(|ms|, tail))
      && (Knows(|ms|, tail) && SoundMembers(ms) && Sound(value) ==> Sound(TObject(r.value.items, r.value.tail)))
  {
    var r := Appended(ms, tail, Entry(key, value));
    if Knows(|ms|, tail) {
      assert r.value.items == ms + [Entry(key, value)];
    } else if r.Some? {
      assert |r.value.items| <= |ms|;
    }
  }

  lemma {:induction false} PutThenRead(v: Value, at: seq<nat>, w: Value)
    requires HasNode(v, at)
    ensures HasNode(PutAt(v, at, w), at) && NodeAt(PutAt(v, at, w), at) == w
    decreases |at|
  {
    if at != [] {
      var kid := PutAt(Children(v)[at[0]], at[1..], w);
      PutThenRead(Children(v)[at[0]], at[1..], w);
      assert Children(WithChild(v, at[0], kid))[at[0]] == kid;
    }
  }

  lemma PutsDiffer(v: Value, at: seq<nat>, w: Value, x: Value)
    requires HasNode(v, at)
    ensures PutAt(v, at, w) == PutAt(v, at, x) <==> w == x
  {
    PutThenRead(v, at, w);
    PutThenRead(v, at, x);
  }

  lemma {:induction false} GraftExactly(doc: Tree, at: seq<nat>, r: Run, o: Outcome)
    requires HasNode(Plain(doc), at) && (r.Run? ==> r.status == o.status)
    ensures var p := if o.status != 0 then Outcome(o.status, Plain(doc)) else Outcome(0, PutAt(Plain(doc), at, o.doc));
      && (o.status == 0 ==> (Agrees(GraftKid(doc, at, r), p) <==> Agrees(r, o)))
      && (o.status != 0 && r.Run? ==> Agrees(GraftKid(doc, at, r), p))
      && (GraftKid(doc, at, r).Run? ==> GraftKid(doc, at, r).status == o.status)
  {
    if r.Run? { PutsDiffer(Plain(doc), at, Plain(r.doc), o.doc); }
  }

  lemma {:induction false} AddTreeExactly(doc: Tree, path: string, value: Tree, cs: bool)
    ensures var r, o := AddTree(doc, path, value, cs), AddAt(Plain(doc), path, Plain(value), cs);
      && (Agrees(r, o) <==> !Misses(doc, path, cs)) && (r.Run? ==> r.status == o.status)
  {
    var split := SplitLast(path);
    if split.Some? {
      var at := Locate(Plain(doc), split.value.0, cs);
      LocateHasNode(Plain(doc), split.value.0, cs);
      if at.Some? {
        var parent, last := SubTree(doc, at.value), DecodeInPlace(split.value.1);
        AddKidExactly(parent, last, value, cs);
        var r, o := AddKid(parent, last, value, cs), AddChild(Plain(parent), last, Plain(value), cs);
        FailureIsPlain(parent, last, value, cs);
        GraftExactly(doc, at.value, r, o);
      }
    }
  }

  /** A refused child leaves the parent as it is. */
  lemma FailureIsPlain(parent: Tree, child: string, value: Tree, cs: bool)
    ensures var r := AddKid(parent, child, value, cs); r.Run? && r.status != 0 ==> r.doc == parent
    ensures KidMisses(parent, child, cs) ==> AddChild(Plain(parent), child, Plain(value), cs).status == 0
  {
  }

  lemma AddTreeIsSound(doc: Tree, path: string, value: Tree, cs: bool)
    requires Sound(doc) && Sound(value)
    ensures !Misses(doc, path, cs)
    ensures var r := AddTree(doc, path, value, cs); r.Run? && Sound(r.doc)
  {
    var split := SplitLast(path);
    if split.Some? {
      var at := Locate(Plain(doc), split.value.0, cs);
      LocateHasNode(Plain(doc), split.value.0, cs);
      if at.Some? { AddKidIsSound(SubTree(doc, at.value), DecodeInPlace(split.value.1), value, cs); }
    }
  }

  lemma TestIsPlain(doc: Tree, path: string, value: Option<Value>, cs: bool)
    ensures Plain(TestTree(doc, path, value, cs)) == TestedAt(Plain(doc), path, value, cs)
  {
    var at := Locate(Plain(doc), path, cs);
    LocateHasNode(Plain(doc), path, cs);
    if at.Some? && value.Some? { ComparedIsPlain(SubTree(doc, at.value), value.value, cs); }
  }

  /** What a move starts from is a string, or missing. */
  predicate FromFits(patch: Value, cs: bool) {
    Lookup(Members(patch), "from", cs).Some? ==> StringMember(patch, "from", cs).Some?
  }

  /** The patch appends to an object that does not know its last member, after what the patch takes out; or it
      moves from what is no string. */
  predicate Strays(doc: Tree, patch: Value, cs: bool) {
    var path, value := StringMember(patch, "path", cs), Lookup(Members(patch), "value", cs);
    path.Some? &&
    match DecodeOperation(patch, cs)
    case ADD => value.Some? && path.value != [] && Misses(doc, path.value, cs)
    case REPLACE =>
      var d := DetachTree(doc, path.value, cs);
      value.Some? && path.value != [] && d.Some? && Misses(d.value.rest, path.value, cs)
    case MOVE =>
      var from := StringMember(patch, "from", cs);
      !FromFits(patch, cs)
      || (from.Some? && var d := DetachTree(doc, from.value, cs); d.Some? && Misses(d.value.rest, path.value, cs))
    case COPY =>
      var from := StringMember(patch, "from", cs);
      from.Some? && Locate(Plain(doc), from.value, cs).Some? && Misses(doc, path.value, cs)
    case _ => false
  }

  lemma TransferExactly(doc: Tree, patch: Value, path: string, move: bool, cs: bool)
    ensures var from := StringMember(patch, "from", cs);
      var r, o := TransferTree(doc, patch, path, move, cs), MoveOrCopy(Plain(doc), patch, path, move, cs);
      && (r.Run? ==> r.status == o.status)
      && (Agrees(r, o) <==>
            !(if move then
                !FromFits(patch, cs)
                || (from.Some? && var d := DetachTree(doc, from.value, cs); d.Some? && Misses(d.value.rest, path, cs))
              else from.Some? && Locate(Plain(doc), from.value, cs).Some? && Misses(doc, path, cs)))
  {
    var from := StringMember(patch, "from", cs);
    if from.Some? {
      if move {
        DetachTreeIsPlain(doc, from.value, cs);
        var d := DetachTree(doc, from.value, cs);
        if d.Some? { AddTreeExactly(d.value.rest, path, d.value.item, cs); }
      } else {
        var at := Locate(Plain(doc), from.value, cs);
        LocateHasNode(Plain(doc), from.value, cs);
        if at.Some? {
          FreshIsSound(NodeAt(Plain(doc), at.value));
          AddTreeExactly(doc, path, Fresh(NodeAt(Plain(doc), at.value)), cs);
        }
      }
    }
  }

  lemma {:induction false} ReplaceExactly(doc: Tree, patch: Value, path: string, value: Option<Value>, cs: bool)
    requires StringMember(patch, "path", cs) == Some(path) && value == Lookup(Members(patch), "value", cs)
    requires DecodeOperation(patch, cs) == REPLACE
    ensures StepExact(doc, patch, cs)
  {
    if value.Some? { FreshIsSound(value.value); }
    DetachTreeIsPlain(doc, path, cs);
    var d := DetachTree(doc, path, cs);
    if value.Some? && d.Some? { AddTreeExactly(d.value.rest, path, Fresh(value.value), cs); }
  }

  lemma {:induction false} AddExactly(doc: Tree, patch: Value, path: string, value: Option<Value>, cs: bool)
    requires StringMember(patch, "path", cs) == Some(path) && value == Lookup(Members(patch), "value", cs)
    requires DecodeOperation(patch, cs) == ADD
    ensures StepExact(doc, patch, cs)
  {
    if value.Some? {
      FreshIsSound(value.value);
      AddTreeExactly(doc, path, Fresh(value.value), cs);
    }
  }

  lemma {:induction false} FromExactly(doc: Tree, patch: Value, path: string, cs: bool)
    requires StringMember(patch, "path", cs) == Some(path)
    requires DecodeOperation(patch, cs) == MOVE || DecodeOperation(patch, cs) == COPY
    ensures StepExact(doc, patch, cs)
  {
    TransferExactly(doc, patch, path, DecodeOperation(patch, cs) == MOVE, cs);
  }

  lemma {:induction false} OtherExactly(doc: Tree, patch: Value, path: string, cs: bool)
    requires StringMember(patch, "path", cs) == Some(path)
    requires DecodeOperation(patch, cs) == INVALID || DecodeOperation(patch, cs) == REMOVE
    ensures StepExact(doc, patch, cs)
  {
    DetachTreeIsPlain(doc, path, cs);
  }

  lemma {:induction false} TestExactly(doc: Tree, patch: Value, path: string, cs: bool)
    requires StringMember(patch, "path", cs) == Some(path) && DecodeOperation(patch, cs) == TEST
    ensures StepExact(doc, patch, cs)
  {
    TestIsPlain(doc, path, Lookup(Members(patch), "value", cs), cs);
  }

  predicate StepExact(doc: Tree, patch: Value, cs: bool) {
    var r, o := ApplyTree(doc, patch, cs), ApplyPatch(Plain(doc), patch, cs);
    (Agrees(r, o) <==> !Strays(doc, patch, cs)) && (r.Run? ==> r.status == o.status)
  }

  /** One patch does what is specified exactly when it does not stray; otherwise nothing in the status says so. */
  lemma ApplyExactly(doc: Tree, patch: Value, cs: bool)
    ensures var r, o := ApplyTree(doc, patch, cs), ApplyPatch(Plain(doc), patch, cs);
      && (Agrees(r, o) <==> !Strays(doc, patch, cs)) && (r.Run? ==> r.status == o.status)
  {
    var path, value := StringMember(patch, "path", cs), Lookup(Members(patch), "value", cs);
    if path.Some? {
      match DecodeOperation(patch, cs)
      case ADD => AddExactly(doc, patch, path.value, value, cs);
      case REPLACE => ReplaceExactly(doc, patch, path.value, value, cs);
      case MOVE => FromExactly(doc, patch, path.value, cs);
      case COPY => FromExactly(doc, patch, path.value, cs);
      case TEST => TestExactly(doc, patch, path.value, cs);
      case _ => OtherExactly(doc, patch, path.value, cs);
    }
  }
}
