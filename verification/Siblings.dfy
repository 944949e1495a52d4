/** The sibling chains of cJSON: children linked through next and prev, where the prev of the first child
    is the last one and the next of the last one is null. */
module Siblings {
  import opened Sequences

  // Chains as sequences

  /** What stands behind position i of a chain. */
  function NextOf(s: seq<Item>, i: nat): Item?
    requires i < |s|
  {
    if i + 1 < |s| then s[i + 1] else null
  }

  /** What the prev of position i points to: the first child points to the last. */
  function PrevOf(s: seq<Item>, i: nat): Item?
    requires i < |s|
  {
    if i > 0 then s[i - 1] else s[|s| - 1]
  }

  lemma OnlyReplacedLeaves(s: seq<Item>, i: int, x: Item, y: Item)
    requires y in s && y !in (if 0 <= i < |s| then s[i := x] else s)
    ensures 0 <= i < |s| && y == s[i]
  {
    var k :| 0 <= k < |s| && s[k] == y;
    assert 0 <= i < |s| ==> s[i := x][k] == if k == i then x else y;
  }

  /** suffix_object: item follows prev. */
  method SuffixObject(prev: Item, item: Item)
    modifies prev`next, item`prev
    ensures prev.next == item && item.prev == prev
  {
    prev.next := item;
    item.prev := prev;
  }

  class Item {
    var next: Item?
    var prev: Item?
    var child: Item?
    /** The `string` member: the key when the item is an object member. No operation here changes it. */
    const name: string
    ghost var children: seq<Item>

    /** The chain that starts at child holds exactly the children, once each, and is closed by null. */
    ghost predicate Valid()
      reads this, children
    {
      && child == (if children == [] then null else children[0])
      && NoRepeats(children) && this !in children
      && forall i: nat {:trigger LinkedAt(children, i)} :: i < |children| ==> LinkedAt(children, i)
    }

    static predicate LinkedAt(s: seq<Item>, i: nat)
      requires i < |s|
      reads s
    {
      s[i].next == NextOf(s, i) && s[i].prev == PrevOf(s, i)
    }

    constructor (name: string)
      ensures Valid() && children == [] && next == null && prev == null && child == null && this.name == name
    {
      next, prev, child := null, null, null;
      this.name := name;
      children := [];
    }

    /** The chain that parse_array, parse_object and cJSON_Duplicate build: each new item goes behind the
        last one, and in the end the first one is told who is last. */
    method LinkNewItems(items: seq<Item>)
      requires Valid() && children == [] && NoRepeats(items) && this !in items
      requires forall x :: x in items ==> x.next == null
      modifies this`child, this`children, items`next, items`prev
      ensures Valid() && children == items
    {
      var head: Item?, current: Item? := null, null;
      var i: nat := 0;
      while i < |items|
        invariant i <= |items|
        invariant head == (if i == 0 then null else items[0])
        invariant current == (if i == 0 then null else items[i - 1])
        invariant forall k: nat {:trigger BuiltAt(items, i, k)} :: k < |items| ==> BuiltAt(items, i, k)
      {
        var item := items[i];
        ghost var before := i;
        label step:
        if head == null {
          current, head := item, item;
        } else {
          current.next := item;
          item.prev := current;
          current := item;
        }
        i := i + 1;
        forall k: nat | k < |items| ensures BuiltAt(items, i, k) {
          assert old@step(BuiltAt(items, before, k));
          assert k == before || Differ(items, k, before);
          assert before == 0 || k == before - 1 || Differ(items, k, before - 1);
        }
      }
      label built:
      if head != null {
        head.prev := current;
      }
      child := head;
      children := items;
      forall k: nat | k < |items| ensures LinkedAt(items, k) {
        assert old@built(BuiltAt(items, i, k));
        assert k == 0 || Differ(items, k, 0);
      }
    }

    /** While the first n items are linked. */
    static predicate BuiltAt(s: seq<Item>, n: nat, k: nat)
      requires k < |s|
      reads s
    {
      && s[k].next == (if k + 1 < n && k + 1 < |s| then s[k + 1] else null)
      && (0 < k < n ==> s[k].prev == s[k - 1])
    }

    /** get_array_item: the child at an index, or null behind the last one. */
    method GetArrayItem(index: nat) returns (item: Item?)
      requires Valid()
      ensures index < |children| ==> item == children[index]
      ensures index >= |children| ==> item == null
    {
      item := child;
      var left := index;
      ghost var i: nat := 0;
      while item != null && left > 0
        invariant i + left == index && i <= |children|
        invariant i < |children| ==> item == children[i]
        invariant i == |children| ==> item == null
        decreases left
      {
        assert LinkedAt(children, i);
        left := left - 1;
        item := item.next;
        i := i + 1;
      }
      assert i < |children| ==> item != null;
    }

    /** add_item_to_array: refuses to add an item to itself. */
    method AddItemToArray(item: Item) returns (ok: bool)
      requires Valid() && item !in children && item.next == null
      modifies this`child, this`children, children`next, children`prev, item`next, item`prev
      ensures Valid() && ok == (item != this)
      ensures children == if ok then old(children) + [item] else old(children)
      ensures !ok ==> unchanged(this) && unchanged(children)
    {
      if item == this {
        return false;
      }
      ghost var was, n := children, |children|;
      if n > 0 { assert LinkedAt(was, 0); }
      if child == null {
        child := item;
        item.prev := item;
        item.next := null;
      } else if child.prev != null {
        SuffixObject(child.prev, item);
        child.prev := item;
      }
      children := was + [item];
      InsertNoRepeats(was, n, item);
      assert InsertAt(was, n, item) == was + [item];
      forall i: nat | i < |children| ensures LinkedAt(children, i) {
        if i < n {
          assert old(LinkedAt(was, i));
          assert Differ(was, i, 0) || i == 0;
          assert Differ(was, i, n - 1) || i == n - 1;
        }
      }
      return true;
    }

    /** The links of an item in front of a child. */
    method LinkBefore(item: Item, after: Item, ghost i: nat)
      requires Valid() && item !in children && item != this && i < |children| && children[i] == after
      modifies this`child, this`children, children`next, children`prev, item`next, item`prev
      ensures Valid() && children == InsertAt(old(children), i, item)
    {
      ghost var was := children;
      assert LinkedAt(was, i);
      if i > 0 { assert Differ(was, 0, i); }
      item.next := after;
      item.prev := after.prev;
      after.prev := item;
      if after == child {
        child := item;
      } else {
        item.prev.next := item;
      }
      children := InsertAt(was, i, item);
      InsertNoRepeats(was, i, item);
      forall k: nat | k < |children| ensures LinkedAt(children, k) {
        if k != i {
          ghost var j := if k < i then k else k - 1;
          assert old(LinkedAt(was, j));
          assert Differ(was, j, i) || j == i;
          assert i > 0 ==> Differ(was, j, i - 1) || j == i - 1;
        }
      }
    }

    /** cJSON_InsertItemInArray: behind the last child it appends. */
    method InsertItemInArray(which: int, item: Item) returns (ok: bool)
      requires Valid() && item !in children && item != this && item.next == null
      modifies this`child, this`children, children`next, children`prev, item`next, item`prev
      ensures Valid() && ok == (which >= 0)
      ensures !ok ==> item.next == null
      ensures children == if which < 0 then old(children)
                          else if which < |old(children)| then InsertAt(old(children), which, item)
                          else old(children) + [item]
    {
      if which < 0 {
        return false;
      }
      var after := GetArrayItem(which);
      if after == null {
        ok := AddItemToArray(item);
        return;
      }
      LinkBefore(item, after, which);
      return true;
    }

    /** insert_item_in_array, which the patches use: an index behind the end is refused. */
    method InsertWithin(which: nat, item: Item) returns (ok: bool)
      requires Valid() && item !in children && item != this && item.next == null
      modifies this`child, this`children, children`next, children`prev, item`next, item`prev
      ensures Valid() && ok == (which <= |old(children)|)
      ensures children == if ok then InsertAt(old(children), which, item) else old(children)
    {
      var after, left := child, which;
      ghost var i: nat := 0;
      while after != null && left > 0
        invariant i + left == which && i <= |children|
        invariant i < |children| ==> after == children[i]
        invariant i == |children| ==> after == null
        decreases left
      {
        assert LinkedAt(children, i);
        after := after.next;
        left := left - 1;
        i := i + 1;
      }
      assert i < |children| ==> after != null;
      if left > 0 {
        return false;
      }
      if after == null {
        assert children + [item] == InsertAt(children, which, item);
        ok := AddItemToArray(item);
        return;
      }
      LinkBefore(item, after, which);
      return true;
    }

    /** cJSON_DetachItemViaPointer: the child is taken out and points nowhere any more. */
    method DetachItemViaPointer(item: Item, ghost i: nat)
      requires Valid() && i < |children| && children[i] == item
      modifies this`child, this`children, children`next, children`prev
      ensures Valid() && children == RemoveAt(old(children), i)
      ensures item.next == null && item.prev == null && item !in children
    {
      ghost var was, n := children, |children|;
      assert LinkedAt(was, i) && LinkedAt(was, 0);
      if i > 0 { assert Differ(was, 0, i); }
      if item != child {
        item.prev.next := item.next;
      }
      if item.next != null {
        item.next.prev := item.prev;
      }
      if item == child {
        child := item.next;
      } else if item.next == null {
        child.prev := item.prev;
      }
      item.prev := null;
      item.next := null;
      children := RemoveAt(was, i);
      RemoveNoRepeats(was, i);
      forall k: nat | k < |children| ensures LinkedAt(children, k) {
        ghost var j := if k < i then k else k + 1;
        assert old(LinkedAt(was, j));
        assert Differ(was, j, i);
        assert i > 0 ==> Differ(was, j, i - 1) || j == i - 1;
        assert i + 1 < n ==> Differ(was, j, i + 1) || j == i + 1;
        assert Differ(was, j, 0) || j == 0;
      }
    }

    /** cJSON_ReplaceItemViaPointer: the replacement takes the place of the child. */
    method ReplaceItemViaPointer(item: Item, replacement: Item, ghost i: nat)
      requires Valid() && i < |children| && children[i] == item
      requires replacement == item || (replacement !in children && replacement != this)
      modifies this`child, this`children, children`next, children`prev, replacement`next, replacement`prev
      ensures Valid() && children == old(children)[i := replacement]
      ensures replacement != item ==> item.next == null && item.prev == null
    {
      if replacement == item {
        return;
      }
      ghost var was, n := children, |children|;
      assert LinkedAt(was, i) && LinkedAt(was, 0);
      if i > 0 { assert Differ(was, 0, i); }
      if n > 1 { assert Differ(was, 0, n - 1); }
      replacement.next := item.next;
      replacement.prev := item.prev;
      if replacement.next != null {
        replacement.next.prev := replacement;
      }
      if child == item {
        if child.prev == child {
          replacement.prev := replacement;
        }
        child := replacement;
      } else {
        if replacement.prev != null {
          replacement.prev.next := replacement;
        }
        if replacement.next == null {
          child.prev := replacement;
        }
      }
      item.next := null;
      item.prev := null;
      children := was[i := replacement];
      UpdateNoRepeats(was, i, replacement);
      forall k: nat | k < |children| ensures LinkedAt(children, k) {
        assert old(LinkedAt(was, k));
        assert Differ(was, k, i) || k == i;
        assert i > 0 ==> Differ(was, k, i - 1) || k == i - 1;
        assert i + 1 < n ==> Differ(was, k, i + 1) || k == i + 1;
        assert Differ(was, k, 0) || k == 0;
      }
    }

    /** cJSON_DetachItemFromArray: null when there is no such child. */
    method DetachItemFromArray(which: int) returns (item: Item?)
      requires Valid()
      modifies this`child, this`children, children`next, children`prev
      ensures Valid()
      ensures 0 <= which < |old(children)| ==>
        item == old(children)[which] && children == RemoveAt(old(children), which)
        && item.next == null && item.prev == null && item !in children
      ensures !(0 <= which < |old(children)|) ==> item == null && children == old(children)
    {
      item := null;
      if which >= 0 {
        item := GetArrayItem(which);
        if item != null { DetachItemViaPointer(item, which); }
      }
    }

    /** cJSON_ReplaceItemInArray. */
    method ReplaceItemInArray(which: int, item: Item) returns (ok: bool)
      requires Valid() && item !in children && item != this
      modifies this`child, this`children, children`next, children`prev, item`next, item`prev
      ensures Valid() && ok == (0 <= which < |old(children)|)
      ensures children == if ok then old(children)[which := item] else old(children)
      ensures ok ==> old(children)[which].next == null
      ensures !ok ==> item.next == old(item.next)
    {
      ok := false;
      if which >= 0 {
        var replaced := GetArrayItem(which);
        if replaced != null {
          ReplaceItemViaPointer(replaced, item, which);
          ok := true;
        }
      }
    }

    /** Any run of edits keeps the chain and acts on the children as the same edits of a sequence. The
        pool holds the children and every item an edit may bring in or back. */
    method Run(edits: seq<Edit>, ghost pool: set<Item>)
      requires Valid() && Within(children, pool) && this !in pool && Loose(pool, children)
      requires Fit(edits, children, pool)
      modifies this`child, this`children, pool`next, pool`prev
      ensures Valid() && children == AfterAll(edits, old(children)) && Loose(pool, children)
    {
      var i := 0;
      while i < |edits|
        invariant i <= |edits| && Valid() && Within(children, pool) && Loose(pool, children)
        invariant Fit(edits[i..], children, pool)
        invariant AfterAll(edits[i..], children) == AfterAll(edits, old(children))
      {
        ghost var was, rest := children, edits[i..];
        assert rest[0] == edits[i] && rest[1..] == edits[i + 1..];
        Perform(edits[i], pool);
        i := i + 1;
      }
    }

    /** One edit of a run. */
    method Perform(edit: Edit, ghost pool: set<Item>)
      requires Valid() && Within(children, pool) && this !in pool && Loose(pool, children)
      requires Fits(edit, children, pool)
      modifies this`child, this`children, pool`next, pool`prev
      ensures Valid() && children == After(edit, old(children))
      ensures Within(children, pool) && Loose(pool, children)
    {
      match edit {
        case Append(item) =>
          var added := AddItemToArray(item);
        case Insert(which, item) =>
          var inserted := InsertItemInArray(which, item);
        case Replace(which, item) =>
          ghost var was := children;
          var replaced := ReplaceItemInArray(which, item);
          if replaced { assert children[which] == item; }
          forall x | x in pool && x !in children ensures x.next == null {
            if x in was {
              OnlyReplacedLeaves(was, which, item, x);
              assert replaced && x == was[which];
            } else if x != item {
              assert x.next == old(x.next);
            }
          }
        case Detach(which) =>
          var detached := DetachItemFromArray(which);
      }
    }
  }

  // Runs of edits

  datatype Edit = Append(item: Item) | Insert(which: int, item: Item) | Replace(which: int, item: Item)
    | Detach(which: int)

  function After(e: Edit, s: seq<Item>): seq<Item> {
    match e
    case Append(item) => s + [item]
    case Insert(which, item) => if which < 0 then s else if which < |s| then InsertAt(s, which, item) else s + [item]
    case Replace(which, item) => if 0 <= which < |s| then s[which := item] else s
    case Detach(which) => if 0 <= which < |s| then RemoveAt(s, which) else s
  }

  function AfterAll(edits: seq<Edit>, s: seq<Item>): seq<Item> {
    if edits == [] then s else AfterAll(edits[1..], After(edits[0], s))
  }

  /** What an edit brings in comes from the pool and is no child at the time. */
  predicate Fits(e: Edit, s: seq<Item>, pool: set<Item>) {
    !e.Detach? ==> e.item in pool && e.item !in s
  }

  predicate Fit(edits: seq<Edit>, s: seq<Item>, pool: set<Item>)
    decreases |edits|
  {
    edits == [] || (Fits(edits[0], s, pool) && Fit(edits[1..], After(edits[0], s), pool))
  }

  ghost predicate Within(s: seq<Item>, pool: set<Item>) {
    forall x :: x in s ==> x in pool
  }

  /** Items of the pool that are no children have no next. */
  ghost predicate Loose(pool: set<Item>, s: seq<Item>)
    reads pool
  {
    forall x :: x in pool && x !in s ==> x.next == null
  }
}
