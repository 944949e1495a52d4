/** The patch loops of the C program: a document that patches change in turn, and a patch list that grows
    while two trees are walked. */
module Patching {
  import opened CText
  import opened Json
  import opened Options
  import opened MergeSort
  import opened Equality
  import opened Pointer
  import opened Patch
  import opened PatchRoundTrip
  import opened Sequences
  import opened Tails
  import opened Trees
  import opened TreePatch
  import opened TreeRuns
  import opened CompareLoops
  import opened Leftovers

  /** The root item, which patches overwrite, with what its objects say about their last members. */
  class Document {
    var root: Tree

    constructor (root: Tree)
      ensures this.root == root
    {
      this.root := root;
    }

    /** detach_path: the item at the path is taken out of the tree. */
    method Detach(path: string, cs: bool) returns (item: Option<Tree>)
      modifies this
      ensures var d := DetachTree(old(root), path, cs);
        if d.Some? then item == Some(d.value.item) && root == d.value.rest else item == None && root == old(root)
    {
      var split := SplitLast(path);
      if split.None? {
        return None;
      }
      var at := Locate(Plain(root), split.value.0, cs);
      if at.None? {
        return None;
      }
      LocateHasNode(Plain(root), split.value.0, cs);
      var node, child := SubTree(root, at.value), DecodeInPlace(split.value.1);
      ghost var d := DetachKid(node, child);
      match node {
        case TArray(items) =>
          var index := DecodeIndex(child);
          if index.None? || index.value >= |items| {
            return None;
          }
          assert d == Some(DetachedTree(TArray(RemoveAt(items, index.value)), items[index.value]));
          root := Graft(root, at.value, TArray(RemoveAt(items, index.value)));
          return Some(items[index.value]);
        case TObject(ms, tail) =>
          var i := FindMember(ms, child, false);
          if i == |ms| {
            return None;
          }
          assert d == Some(DetachedTree(TObject(RemoveAt(ms, i), AfterDetach(|ms|, tail, i)), ms[i].value));
          root := Graft(root, at.value, TObject(RemoveAt(ms, i), AfterDetach(|ms|, tail, i)));
          return Some(ms[i].value);
        case TLeaf(_) =>
          return None;
      }
    }

    /** The closing part of apply_patch: the value goes where the path says. The run is astray when a pointer to
        an item that is no child any more would be followed. */
    method Insert(path: string, value: Tree, cs: bool) returns (status: int, astray: bool)
      modifies this
      ensures AddTree(old(root), path, value, cs) == if astray then Astray else Run(status, root)
    {
      astray := false;
      var split := SplitLast(path);
      if split.None? {
        return 9, false;
      }
      var at := Locate(Plain(root), split.value.0, cs);
      if at.None? {
        return 9, false;
      }
      LocateHasNode(Plain(root), split.value.0, cs);
      var parent;
      status, astray, parent := Adopt(SubTree(root, at.value), DecodeInPlace(split.value.1), value, cs);
      if !astray && status == 0 {
        root := Graft(root, at.value, parent);
      }
    }

    /** Only arrays and objects take children. */
    static method Adopt(parent: Tree, child: string, value: Tree, cs: bool)
        returns (status: int, astray: bool, adopted: Tree)
      ensures AddKid(parent, child, value, cs) == if astray then Astray else Run(status, adopted)
    {
      status, astray, adopted := 9, false, parent;
      match parent {
        case TArray(items) =>
          var all;
          status, all := InsertItem(items, child, value, cs);
          adopted := TArray(all);
        case TObject(ms, tail) =>
          status := 0;
          adopted, astray := SetMember(ms, tail, child, value, cs);
        case TLeaf(_) =>
      }
    }

    /** Where an array takes the value. */
    static method InsertItem(items: seq<Tree>, child: string, value: Tree, ghost cs: bool)
        returns (status: int, all: seq<Tree>)
      ensures Run(status, TArray(all)) == AddKid(TArray(items), child, value, cs)
    {
      if child == "-" {
        return 0, items + [value];
      }
      var index := DecodeIndex(child);
      if index.None? {
        return 11, items;
      }
      if index.value > |items| {
        return 10, items;
      }
      return 0, InsertAt(items, index.value, value);
    }

    /** An object drops the member of the name and appends the new one behind the member that its first one
        points to. */
    static method SetMember(ms: seq<Entry<Tree>>, tail: Tail, child: string, value: Tree, cs: bool)
        returns (parent: Tree, astray: bool)
      ensures AddKid(TObject(ms, tail), child, value, cs) == if astray then Astray else Run(0, parent)
    {
      var others, said := ms, tail;
      var i := FindMember(ms, child, cs);
      if i < |ms| {
        others, said := RemoveAt(ms, i), AfterDetach(|ms|, tail, i);
      }
      parent := TObject(others, said);
      astray := false;
      if others == [] {
        parent := TObject([Entry(child, value)], Tail.At(0));
      } else if said.At? && said.index < |others| {
        parent := TObject(others[..said.index + 1] + [Entry(child, value)], Tail.At(said.index + 1));
      } else if said != Nowhere {
        astray := true;
      }
    }

    /** apply_patch: the status, and the document as far as it was changed before an error. */
    method Apply(patch: Value, cs: bool) returns (status: int, astray: bool)
      modifies this
      ensures ApplyTree(old(root), patch, cs) == if astray then Astray else Run(status, root)
    {
      astray := false;
      var path := StringMember(patch, "path", cs);
      if path.None? {
        return 2, false;
      }
      status, astray :=
        Perform(DecodeOperation(patch, cs), path.value, Lookup(Members(patch), "value", cs), patch, cs);
    }

    method Perform(opcode: Operation, path: string, value: Option<Value>, patch: Value, cs: bool)
        returns (status: int, astray: bool)
      modifies this
      ensures Operate(old(root), opcode, path, value, patch, cs) == if astray then Astray else Run(status, root)
    {
      astray := false;
      if opcode == INVALID {
        status := 3;
      } else if opcode == TEST {
        var same := Test(path, value, cs);
        status := if same then 0 else 1;
      } else if opcode == MOVE || opcode == COPY {
        status, astray := Transfer(path, patch, opcode == MOVE, cs);
      } else if path == [] {
        status := Overwrite(opcode == REMOVE, value);
      } else if opcode == REMOVE || opcode == REPLACE {
        status, astray := Substitute(path, opcode == REMOVE, value, cs);
      } else if value.None? {
        status := 7;
      } else {
        status, astray := Insert(path, Fresh(value.value), cs);
      }
    }

    /** The root is removed, or overwritten with the value. */
    method Overwrite(remove: bool, value: Option<Value>) returns (status: int)
      modifies this
      ensures status == if remove || value.Some? then 0 else 7
      ensures root == if remove then TLeaf(Invalid) else if value.Some? then Fresh(value.value) else old(root)
    {
      if remove {
        root := TLeaf(Invalid);
        return 0;
      }
      if value.None? {
        return 7;
      }
      root := Fresh(value.value);
      return 0;
    }

    /** The part of apply_patch that gets rid of the old item first. */
    method Substitute(path: string, remove: bool, value: Option<Value>, cs: bool) returns (status: int, astray: bool)
      modifies this
      ensures (match DetachTree(old(root), path, cs)
               case None => Run(13, old(root))
               case Some(d) =>
                 if remove then Run(0, d.rest)
                 else if value.Some? then AddTree(d.rest, path, Fresh(value.value), cs)
                 else Run(7, d.rest))
           == if astray then Astray else Run(status, root)
    {
      var item := Detach(path, cs);
      if item.None? {
        return 13, false;
      }
      if remove {
        return 0, false;
      }
      if value.None? {
        return 7, false;
      }
      status, astray := Insert(path, Fresh(value.value), cs);
    }

    /** The item at the path is compared, and thereby sorted. */
    method Test(path: string, value: Option<Value>, cs: bool) returns (same: bool)
      modifies this
      ensures same == TestAt(Plain(old(root)), path, value, cs) && root == TestTree(old(root), path, value, cs)
    {
      var at := Locate(Plain(root), path, cs);
      if at.None? || value.None? {
        return false;
      }
      LocateHasNode(Plain(root), path, cs);
      var left;
      same, left := CompareTree(SubTree(root, at.value), value.value, cs);
      root := Graft(root, at.value, left);
    }

    /** The part of apply_patch for values that stand in the document already. */
    method Transfer(path: string, patch: Value, move: bool, cs: bool) returns (status: int, astray: bool)
      modifies this
      ensures TransferTree(old(root), patch, path, move, cs) == if astray then Astray else Run(status, root)
    {
      if Lookup(Members(patch), "from", cs).None? {
        return 4, false;
      }
      var from := StringMember(patch, "from", cs);
      if from.None? {
        return 5, move;
      }
      var value: Option<Tree>;
      if move {
        value := Detach(from.value, cs);
      } else {
        var at := Locate(Plain(root), from.value, cs);
        LocateHasNode(Plain(root), from.value, cs);
        value := if at.Some? then Some(Fresh(NodeAt(Plain(root), at.value))) else None;
      }
      if value.None? {
        return 5, false;
      }
      status, astray := Insert(path, value.value, cs);
    }

    /** cJSONUtils_ApplyPatches: a patch list that is no array is refused; the first error ends the loop. */
    method ApplyAll(patches: Value, cs: bool) returns (status: int, astray: bool)
      modifies this
      ensures !patches.Array? ==> status == 1 && !astray && root == old(root)
      ensures patches.Array? ==>
        ApplyTrees(old(root), patches.items, cs) == if astray then Astray else Run(status, root)
    {
      if !patches.Array? {
        return 1, false;
      }
      var i := 0;
      while i < |patches.items|
        invariant 0 <= i <= |patches.items|
        invariant ApplyTrees(root, patches.items[i..], cs) == ApplyTrees(old(root), patches.items, cs)
      {
        assert patches.items[i..][0] == patches.items[i] && patches.items[i..][1..] == patches.items[i + 1..];
        status, astray := Apply(patches.items[i], cs);
        if astray || status != 0 {
          return;
        }
        i := i + 1;
      }
      return 0, false;
    }
  }

  /** The array that the generator appends to. */
  class PatchList {
    var patches: seq<Value>

    constructor ()
      ensures patches == []
    {
      patches := [];
    }

    method Compose(operation: string, path: string, suffix: Option<string>, value: Option<Value>)
      modifies this
      ensures patches == old(patches) + [ComposePatch(operation, path, suffix, value)]
    {
      patches := patches + [ComposePatch(operation, path, suffix, value)];
    }

    /** create_patches, and what is left of both trees. */
    method Create(path: string, from: Tree, to: Tree, cs: bool) returns (left: Tree, right: Tree)
      modifies this
      ensures patches == old(patches) + CreatePatches(path, Plain(from), Plain(to), cs)
      ensures left == Left(from, Plain(to), cs) && right == Left(to, Plain(from), cs)
      decreases Height(Plain(from)), 0
    {
      left, right := from, to;
      match (from, to) {
        case (TArray(s), TArray(u)) =>
          var items, others;
          items, others := CreateForItems(path, s, u, cs);
          left, right := TArray(items), TArray(others);
        case (TObject(ms, tail), TObject(ns, end)) =>
          left, right := CreateForObjects(path, ms, tail, ns, end, cs);
        case _ =>
          if !SameLeaf(Plain(from), Plain(to)) { Compose("replace", path, None, Some(Plain(to))); }
      }
    }

    /** Both objects are sorted first. */
    method CreateForObjects(path: string, ms: seq<Entry<Tree>>, tail: Tail, ns: seq<Entry<Tree>>, end: Tail, cs: bool)
        returns (left: Tree, right: Tree)
      modifies this
      ensures patches == old(patches) + CreatePatches(path, Object(PlainMembers(ms)), Object(PlainMembers(ns)), cs)
      ensures left == Left(TObject(ms, tail), Object(PlainMembers(ns)), cs)
      ensures right == Left(TObject(ns, end), Object(PlainMembers(ms)), cs)
      decreases MembersHeight(PlainMembers(ms)), 4
    {
      ObjectsUnfold(path, ms, tail, ns, cs);
      ObjectsUnfold(path, ns, end, ms, cs);
      var members, others := CreateForMembers(path, Sort(ms, cs), Sort(ns, cs), cs);
      left, right := TObject(members, AfterSort(ms, tail, cs)), TObject(others, AfterSort(ns, end, cs));
    }

    /** The three loops over array elements: common ones, leftovers of from, additions of to. */
    method CreateForItems(path: string, from: seq<Tree>, to: seq<Tree>, cs: bool)
        returns (left: seq<Tree>, right: seq<Tree>)
      modifies this
      ensures patches == old(patches) + PatchItems(path, PlainItems(from), PlainItems(to), 0, cs)
      ensures left == LeftItems(from, PlainItems(to), cs) && right == LeftItems(to, PlainItems(from), cs)
      decreases ItemsHeight(PlainItems(from)), 3
    {
      ghost var f, t := PlainItems(from), PlainItems(to);
      var index;
      index, left, right := CreateForCommon(path, from, to, cs);
      if index < |from| {
        assert t[index..] == [];
        RemoveItems(path, PlainItems(from)[index..], index, cs);
      } else {
        assert f[index..] == [];
        AddItems(path, PlainItems(to)[index..], index, cs);
      }
    }

    method CreateForCommon(path: string, from: seq<Tree>, to: seq<Tree>, cs: bool)
        returns (index: nat, left: seq<Tree>, right: seq<Tree>)
      modifies this
      ensures index <= |from| && index <= |to| && (index == |from| || index == |to|)
      ensures old(patches) + PatchItems(path, PlainItems(from), PlainItems(to), 0, cs)
           == patches + PatchItems(path, PlainItems(from)[index..], PlainItems(to)[index..], index, cs)
      ensures left == LeftItems(from, PlainItems(to), cs) && right == LeftItems(to, PlainItems(from), cs)
      decreases ItemsHeight(PlainItems(from)), 2
    {
      ghost var f, t := PlainItems(from), PlainItems(to);
      ghost var whole := patches + PatchItems(path, f, t, 0, cs);
      var done, ready: seq<Tree> := [], [];
      index := 0;
      assert f[0..] == f && t[0..] == t && from[0..] == from && to[0..] == to;
      while index < |from| && index < |to|
        modifies this
        invariant index <= |from| && index <= |to|
        invariant whole == patches + PatchItems(path, f[index..], t[index..], index, cs)
        invariant ItemsWalked(done, from, t, index, cs) && ItemsWalked(ready, to, f, index, cs)
      {
        var kid, other;
        kid, other := CreateForItem(path, from[index], to[index], index, f, t, whole, cs);
        WalkItem(done, from, t, index, cs);
        WalkItem(ready, to, f, index, cs);
        done, ready := done + [kid], ready + [other];
        index := index + 1;
      }
      left, right := done + from[index..], ready + to[index..];
    }

    /** One pair of elements. */
    method CreateForItem(path: string, from: Tree, to: Tree, index: nat, ghost f: seq<Value>, ghost t: seq<Value>,
                         ghost whole: seq<Value>, cs: bool) returns (left: Tree, right: Tree)
      requires index < |f| && index < |t| && f[index] == Plain(from) && t[index] == Plain(to)
      requires whole == patches + PatchItems(path, f[index..], t[index..], index, cs)
      modifies this
      ensures whole == patches + PatchItems(path, f[index + 1..], t[index + 1..], index + 1, cs)
      ensures left == Left(from, Plain(to), cs) && right == Left(to, Plain(from), cs)
      decreases ItemsHeight(f), 1
    {
      HeadAndTail(f, index);
      HeadAndTail(t, index);
      ItemHeight(f, index);
      Regroup(patches, CreatePatches(path + "/" + IndexText(index), f[index], t[index], cs),
              PatchItems(path, f[index + 1..], t[index + 1..], index + 1, cs));
      left, right := Create(path + "/" + IndexText(index), from, to, cs);
    }

    /** Each leftover is removed at the same index. */
    method RemoveItems(path: string, from: seq<Value>, index: nat, cs: bool)
      modifies this
      ensures patches == old(patches) + PatchItems(path, from, [], index, cs)
    {
      ghost var whole := patches + PatchItems(path, from, [], index, cs);
      var i: nat := 0;
      assert from[0..] == from;
      while i < |from|
        modifies this
        invariant i <= |from|
        invariant whole == patches + PatchItems(path, from[i..], [], index, cs)
      {
        HeadAndTail(from, i);
        Regroup(patches, [ComposePatch("remove", path, Some(IndexText(index)), None)],
                PatchItems(path, from[i + 1..], [], index, cs));
        Compose("remove", path, Some(IndexText(index)), None);
        i := i + 1;
      }
      assert patches + [] == patches;
    }

    method AddItems(path: string, to: seq<Value>, index: nat, cs: bool)
      modifies this
      ensures patches == old(patches) + PatchItems(path, [], to, index, cs)
    {
      ghost var whole := patches + PatchItems(path, [], to, index, cs);
      var i: nat := 0;
      assert to[0..] == to;
      while i < |to|
        modifies this
        invariant i <= |to|
        invariant whole == patches + PatchItems(path, [], to[i..], index + i, cs)
      {
        HeadAndTail(to, i);
        Regroup(patches, [ComposePatch("add", path, Some("-"), Some(to[i]))],
                PatchItems(path, [], to[i + 1..], index + i + 1, cs));
        Compose("add", path, Some("-"), Some(to[i]));
        i := i + 1;
      }
      assert patches + [] == patches;
    }

    /** The walk over the sorted members of two objects. */
    method CreateForMembers(path: string, from: seq<Entry<Tree>>, to: seq<Entry<Tree>>, cs: bool)
        returns (left: seq<Entry<Tree>>, right: seq<Entry<Tree>>)
      modifies this
      ensures patches == old(patches) + PatchMembers(path, PlainMembers(from), PlainMembers(to), cs)
      ensures left == LeftMembers(from, PlainMembers(to), cs) && right == LeftMembers(to, PlainMembers(from), cs)
      decreases MembersHeight(PlainMembers(from)), 3
    {
      ghost var f, t := PlainMembers(from), PlainMembers(to);
      ghost var whole := patches + PatchMembers(path, f, t, cs);
      left, right := [], [];
      var i: nat, j: nat := 0, 0;
      assert f[0..] == f && t[0..] == t && from[0..] == from && to[0..] == to;
      while i < |from| || j < |to|
        modifies this
        invariant i <= |from| && j <= |to|
        invariant whole == patches + PatchMembers(path, f[i..], t[j..], cs)
        invariant BothWalked(left, right, from, to, i, j, cs)
        decreases |from| - i + |to| - j
      {
        left, right, i, j := CreateForNext(path, from, to, left, right, i, j, f, t, whole, cs);
      }
      assert patches + [] == patches;
      WalkIsDone(left, right, from, to, cs);
    }

    /** One round of the walk: both members with one key, or the smaller one of the two. */
    method CreateForNext(path: string, from: seq<Entry<Tree>>, to: seq<Entry<Tree>>,
                         done: seq<Entry<Tree>>, ready: seq<Entry<Tree>>, i: nat, j: nat,
                         ghost f: seq<Entry<Value>>, ghost t: seq<Entry<Value>>, ghost whole: seq<Value>, cs: bool)
        returns (left: seq<Entry<Tree>>, right: seq<Entry<Tree>>, next: nat, other: nat)
      requires f == PlainMembers(from) && t == PlainMembers(to) && BothWalked(done, ready, from, to, i, j, cs)
      requires i <= |from| && j <= |to| && (i < |from| || j < |to|)
      requires whole == patches + PatchMembers(path, f[i..], t[j..], cs)
      modifies this
      ensures i <= next <= |from| && j <= other <= |to| && i + j < next + other
      ensures whole == patches + PatchMembers(path, f[next..], t[other..], cs)
      ensures BothWalked(left, right, from, to, next, other, cs)
      decreases MembersHeight(f), 2
    {
      var diff := if i == |from| then 1 else if j == |to| then -1 else Compare(from[i].key, to[j].key, cs);
      WalkPair(done, ready, from, to, i, j, diff, cs);
      left, right, next, other := done, ready, i, j;
      if diff == 0 {
        var kid, twin;
        kid, twin := CreateForMember(path, from[i], to[j], i, j, f, t, whole, cs);
        left, right, next, other := done + [kid], ready + [twin], i + 1, j + 1;
      } else if diff < 0 {
        RemoveMember(path, from[i].key, i, j, f, t, whole, cs);
        left, next := done + [from[i]], i + 1;
      } else {
        AddMember(path, to[j], i, j, f, t, whole, cs);
        right, other := ready + [to[j]], j + 1;
      }
    }

    /** The member stands in both objects. */
    method CreateForMember(path: string, from: Entry<Tree>, to: Entry<Tree>, i: nat, j: nat,
                           ghost f: seq<Entry<Value>>, ghost t: seq<Entry<Value>>, ghost whole: seq<Value>, cs: bool)
        returns (left: Entry<Tree>, right: Entry<Tree>)
      requires i < |f| && f[i] == Entry(from.key, Plain(from.value))
      requires j < |t| && t[j] == Entry(to.key, Plain(to.value)) && Compare(from.key, to.key, cs) == 0
      requires whole == patches + PatchMembers(path, f[i..], t[j..], cs)
      modifies this
      ensures whole == patches + PatchMembers(path, f[i + 1..], t[j + 1..], cs)
      ensures left == Entry(from.key, Left(from.value, Plain(to.value), cs))
      ensures right == Entry(to.key, Left(to.value, Plain(from.value), cs))
      decreases MembersHeight(f), 1
    {
      HeadAndTail(f, i);
      HeadAndTail(t, j);
      MemberHeight(f, i);
      Regroup(patches, CreatePatches(path + "/" + EncodeToken(from.key), f[i].value, t[j].value, cs),
              PatchMembers(path, f[i + 1..], t[j + 1..], cs));
      var kid, other;
      kid, other := Create(path + "/" + EncodeToken(from.key), from.value, to.value, cs);
      left, right := Entry(from.key, kid), Entry(to.key, other);
    }

    method RemoveMember(path: string, key: string, i: nat, j: nat,
                        ghost f: seq<Entry<Value>>, ghost t: seq<Entry<Value>>, ghost whole: seq<Value>, cs: bool)
      requires i < |f| && f[i].key == key && j <= |t| && (j == |t| || Compare(key, t[j].key, cs) < 0)
      requires whole == patches + PatchMembers(path, f[i..], t[j..], cs)
      modifies this
      ensures whole == patches + PatchMembers(path, f[i + 1..], t[j..], cs)
    {
      HeadAndTail(f, i);
      if j < |t| { HeadAndTail(t, j); }
      Regroup(patches, [ComposePatch("remove", path, Some(key), None)], PatchMembers(path, f[i + 1..], t[j..], cs));
      Compose("remove", path, Some(key), None);
    }

    method AddMember(path: string, to: Entry<Tree>, i: nat, j: nat,
                     ghost f: seq<Entry<Value>>, ghost t: seq<Entry<Value>>, ghost whole: seq<Value>, cs: bool)
      requires j < |t| && t[j] == Entry(to.key, Plain(to.value))
      requires i <= |f| && (i == |f| || Compare(f[i].key, to.key, cs) > 0)
      requires whole == patches + PatchMembers(path, f[i..], t[j..], cs)
      modifies this
      ensures whole == patches + PatchMembers(path, f[i..], t[j + 1..], cs)
    {
      HeadAndTail(t, j);
      if i < |f| { HeadAndTail(f, i); }
      Regroup(patches, [ComposePatch("add", path, Some(to.key), Some(Plain(to.value)))],
              PatchMembers(path, f[i..], t[j + 1..], cs));
      Compose("add", path, Some(to.key), Some(Plain(to.value)));
    }
  }

  /** create_patches on two items that are not both arrays or both objects. */
  predicate SameLeaf(a: Value, b: Value) {
    SameType(a, b) && (a.Number? ==> a.n == b.n) && (a.String? ==> a.s == b.s)
  }

  /** The elements walked so far and those ahead. */
  ghost predicate ItemsWalked(done: seq<Tree>, s: seq<Tree>, u: seq<Value>, index: nat, cs: bool) {
    && index <= |s| && index <= |u|
    && LeftItems(s, u, cs) == done + LeftItems(s[index..], u[index..], cs)
  }

  lemma {:induction false} WalkItem(done: seq<Tree>, s: seq<Tree>, u: seq<Value>, index: nat, cs: bool)
    requires ItemsWalked(done, s, u, index, cs) && index < |s| && index < |u|
    ensures ItemsWalked(done + [Left(s[index], u[index], cs)], s, u, index + 1, cs)
  {
    HeadAndTail(s, index);
    HeadAndTail(u, index);
    Regroup(done, [Left(s[index], u[index], cs)], LeftItems(s[index + 1..], u[index + 1..], cs));
  }

  ghost predicate MembersWalked(
      done: seq<Entry<Tree>>, s: seq<Entry<Tree>>, u: seq<Entry<Value>>, i: nat, j: nat, cs: bool) {
    && i <= |s| && j <= |u|
    && LeftMembers(s, u, cs) == done + LeftMembers(s[i..], u[j..], cs)
  }

  /** Where both lists go on: with both members, with the smaller one, or with the one that is left. */
  lemma {:induction false} WalkMember(
      done: seq<Entry<Tree>>, s: seq<Entry<Tree>>, u: seq<Entry<Value>>, i: nat, j: nat, cs: bool)
    requires MembersWalked(done, s, u, i, j, cs)
    ensures i < |s| && j < |u| && Compare(s[i].key, u[j].key, cs) == 0 ==>
              MembersWalked(done + [Entry(s[i].key, Left(s[i].value, u[j].value, cs))], s, u, i + 1, j + 1, cs)
    ensures i < |s| && (j == |u| || Compare(s[i].key, u[j].key, cs) < 0) ==>
              MembersWalked(done + [s[i]], s, u, i + 1, j, cs)
    ensures j < |u| && (i == |s| || Compare(s[i].key, u[j].key, cs) > 0) ==> MembersWalked(done, s, u, i, j + 1, cs)
  {
    if i < |s| { HeadAndTail(s, i); }
    if j < |u| { HeadAndTail(u, j); }
    if i < |s| {
      Regroup(done, [s[i]], LeftMembers(s[i + 1..], u[j..], cs));
      if j < |u| {
        Regroup(done, [Entry(s[i].key, Left(s[i].value, u[j].value, cs))],
                LeftMembers(s[i + 1..], u[j + 1..], cs));
      }
    }
  }

  lemma {:induction false} ObjectsUnfold(
      path: string, ms: seq<Entry<Tree>>, tail: Tail, ns: seq<Entry<Tree>>, cs: bool)
    ensures CreatePatches(path, Object(PlainMembers(ms)), Object(PlainMembers(ns)), cs)
         == PatchMembers(path, PlainMembers(Sort(ms, cs)), PlainMembers(Sort(ns, cs)), cs)
    ensures Left(TObject(ms, tail), Object(PlainMembers(ns)), cs)
         == TObject(LeftMembers(Sort(ms, cs), PlainMembers(Sort(ns, cs)), cs), AfterSort(ms, tail, cs))
    ensures MembersHeight(PlainMembers(Sort(ms, cs))) <= MembersHeight(PlainMembers(ms))
  {
    SortIsPlain(ms, cs);
    SortIsPlain(ns, cs);
    SortKeepsHeight(PlainMembers(ms), cs);
  }

  ghost predicate BothWalked(done: seq<Entry<Tree>>, ready: seq<Entry<Tree>>, from: seq<Entry<Tree>>,
                             to: seq<Entry<Tree>>, i: nat, j: nat, cs: bool) {
    MembersWalked(done, from, PlainMembers(to), i, j, cs) && MembersWalked(ready, to, PlainMembers(from), j, i, cs)
  }

  lemma {:induction false} WalkPair(done: seq<Entry<Tree>>, ready: seq<Entry<Tree>>, from: seq<Entry<Tree>>,
                                  to: seq<Entry<Tree>>, i: nat, j: nat, diff: int, cs: bool)
    requires BothWalked(done, ready, from, to, i, j, cs) && (i < |from| || j < |to|)
    requires diff == if i == |from| then 1 else if j == |to| then -1 else Compare(from[i].key, to[j].key, cs)
    ensures diff == 0 ==>
      i < |from| && j < |to| &&
      BothWalked(done + [Entry(from[i].key, Left(from[i].value, Plain(to[j].value), cs))],
                 ready + [Entry(to[j].key, Left(to[j].value, Plain(from[i].value), cs))], from, to, i + 1, j + 1, cs)
    ensures diff < 0 ==> i < |from| && BothWalked(done + [from[i]], ready, from, to, i + 1, j, cs)
    ensures diff > 0 ==> j < |to| && BothWalked(done, ready + [to[j]], from, to, i, j + 1, cs)
  {
    WalkMember(done, from, PlainMembers(to), i, j, cs);
    WalkMember(ready, to, PlainMembers(from), j, i, cs);
    if i < |from| && j < |to| { CompareIsTotalOrder(from[i].key, to[j].key, from[i].key, cs); }
  }

  lemma {:induction false} WalkIsDone(done: seq<Entry<Tree>>, ready: seq<Entry<Tree>>, from: seq<Entry<Tree>>,
                                      to: seq<Entry<Tree>>, cs: bool)
    requires BothWalked(done, ready, from, to, |from|, |to|, cs)
    ensures done == LeftMembers(from, PlainMembers(to), cs) && ready == LeftMembers(to, PlainMembers(from), cs)
  {
    assert done + [] == done && ready + [] == ready;
  }

  /** cJSONUtils_GeneratePatches, then cJSONUtils_ApplyPatches on a duplicate of the first tree: the document has
      become the second one, and its objects know their last members. */
  method PatchOver(from: Value, to: Value, cs: bool) returns (document: Document)
    requires Distinct(from, cs) && Distinct(to, cs) && Replayable(from, to, cs)
    ensures Canonical(Plain(document.root), cs) == Canonical(to, cs) && Sound(document.root)
  {
    var list := new PatchList();
    FreshIsSound(from);
    FreshIsSound(to);
    var left, right := list.Create([], Fresh(from), Fresh(to), cs);
    assert list.patches == GeneratePatches(from, to, cs);
    document := new Document(Fresh(from));
    SoundRoundTrip(Fresh(from), from, to, cs);
    var status, astray := document.ApplyAll(Array(list.patches), cs);
  }
}
