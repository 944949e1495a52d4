/** Whole trees of linked items: which items make up a tree, and that each of them heads a valid chain. */
module ItemTrees {
  import opened Json
  import opened Sequences
  import opened Siblings

  /** The items of a tree. */
  datatype Shape = Shape(item: Item, kids: seq<Shape>)

  function Items(t: Shape): (r: set<Item>)
    ensures t.item in r
    decreases t
  {
    {t.item} + ItemsOf(t.kids)
  }

  function ItemsOf(kids: seq<Shape>): set<Item>
    decreases kids
  {
    if kids == [] then {} else Items(kids[0]) + ItemsOf(kids[1..])
  }

  /** The topmost items. */
  function Tops(kids: seq<Shape>): (r: seq<Item>)
    ensures |r| == |kids|
    ensures forall x :: x in r ==> x in ItemsOf(kids)
    decreases kids
  {
    if kids == [] then [] else [kids[0].item] + Tops(kids[1..])
  }

  function TopSet(kids: seq<Shape>): (r: set<Item>)
    ensures r <= ItemsOf(kids)
    decreases kids
  {
    if kids == [] then {} else {kids[0].item} + TopSet(kids[1..])
  }

  lemma {:induction false} TopsAreTopSet(kids: seq<Shape>)
    ensures forall x :: x in Tops(kids) <==> x in TopSet(kids)
    decreases kids
  {
    if kids != [] { TopsAreTopSet(kids[1..]); }
  }

  /** The items below them. */
  function Below(kids: seq<Shape>): (r: set<Item>)
    ensures r <= ItemsOf(kids)
    decreases kids
  {
    if kids == [] then {} else ItemsOf(kids[0].kids) + Below(kids[1..])
  }

  /** The children of an item, linked in a valid chain that starts at child. */
  ghost predicate Chained(child: Item?, s: seq<Item>)
    reads s
  {
    && child == (if s == [] then null else s[0]) && NoRepeats(s)
    && forall i: nat {:trigger Item.LinkedAt(s, i)} :: i < |s| ==> Item.LinkedAt(s, i)
  }

  /** The items are linked as the value says: each one heads the chain of its children, no item stands at two
      places, and members have their keys. */
  ghost predicate Holds(t: Shape, v: Value)
    reads t.item`child, t.item`children, ItemsOf(t.kids)
    decreases t
  {
    && t.item.children == Tops(t.kids) && t.item !in ItemsOf(t.kids) && Chained(t.item.child, Tops(t.kids))
    && match v
       case Array(items) => AllHold(t.kids, items)
       case Object(ms) => MembersHold(t.kids, ms)
       case _ => t.kids == []
  }

  ghost predicate AllHold(kids: seq<Shape>, vs: seq<Value>)
    reads TopSet(kids)`child, TopSet(kids)`children, Below(kids)
    decreases kids
  {
    && |kids| == |vs|
    && (kids == [] ||
        (&& Holds(kids[0], vs[0]) && Items(kids[0]) !! ItemsOf(kids[1..])
         && AllHold(kids[1..], vs[1..])))
  }

  ghost predicate MembersHold(kids: seq<Shape>, ms: seq<Entry<Value>>)
    reads TopSet(kids)`child, TopSet(kids)`children, Below(kids)
    decreases kids
  {
    && |kids| == |ms|
    && (kids == [] ||
        (&& Holds(kids[0], ms[0].value) && kids[0].item.name == ms[0].key && Items(kids[0]) !! ItemsOf(kids[1..])
         && MembersHold(kids[1..], ms[1..])))
  }

  /** A new item that nothing was read into. */
  ghost predicate Blank(item: Item)
    reads item, item.children
  {
    item.Valid() && item.children == []
  }

  /** The tree of an item that a value was read into. */
  ghost predicate Filled(item: Item, t: Shape, v: Value)
    reads Items(t)
  {
    t.item == item && Holds(t, v)
  }

  /** Trees that are still to be linked. */
  ghost predicate Elements(items: seq<Item>, kids: seq<Shape>, vs: seq<Value>)
    reads ItemsOf(kids)
  {
    AllHold(kids, vs) && Unlinked(items, kids)
  }

  ghost predicate NamedElements(items: seq<Item>, kids: seq<Shape>, ms: seq<Entry<Value>>)
    reads ItemsOf(kids)
  {
    MembersHold(kids, ms) && Unlinked(items, kids)
  }

  ghost predicate Unlinked(items: seq<Item>, kids: seq<Shape>)
    reads ItemsOf(kids)
  {
    items == Tops(kids) && forall i :: 0 <= i < |items| ==> items[i] in ItemsOf(kids) && items[i].next == null
  }

  lemma {:induction false} LeafHolds(item: Item, v: Value)
    requires Blank(item) && (v.Array? ==> v.items == []) && (v.Object? ==> v.members == [])
    ensures Holds(Shape(item, []), v)
  {
  }

  // Every chain

  /** Every item of the tree, at any depth, heads a valid chain. */
  lemma {:induction false} EveryChainIsValid(t: Shape, v: Value)
    requires Holds(t, v)
    ensures forall x :: x in Items(t) ==> x.Valid()
    decreases t, 1
  {
    match v
    case Array(items) => AllChainsAreValid(t.kids, items);
    case Object(ms) => MemberChainsAreValid(t.kids, ms);
    case _ =>
  }

  lemma {:induction false} AllChainsAreValid(kids: seq<Shape>, vs: seq<Value>)
    requires AllHold(kids, vs)
    ensures forall x :: x in ItemsOf(kids) ==> x.Valid()
    decreases kids, 0
  {
    if kids != [] {
      EveryChainIsValid(kids[0], vs[0]);
      AllChainsAreValid(kids[1..], vs[1..]);
    }
  }

  lemma {:induction false} MemberChainsAreValid(kids: seq<Shape>, ms: seq<Entry<Value>>)
    requires MembersHold(kids, ms)
    ensures forall x :: x in ItemsOf(kids) ==> x.Valid()
    decreases kids, 0
  {
    if kids != [] {
      EveryChainIsValid(kids[0], ms[0].value);
      MemberChainsAreValid(kids[1..], ms[1..]);
    }
  }

  // One more tree at the end

  lemma {:induction false} ItemsAppend(kids: seq<Shape>, t: Shape)
    ensures ItemsOf(kids + [t]) == ItemsOf(kids) + Items(t) && Tops(kids + [t]) == Tops(kids) + [t.item]
  {
    if kids == [] {
      assert kids + [t] == [t];
    } else {
      assert (kids + [t])[1..] == kids[1..] + [t];
      ItemsAppend(kids[1..], t);
    }
  }

  lemma {:induction false} AllHoldAppend(kids: seq<Shape>, vs: seq<Value>, t: Shape, v: Value)
    requires AllHold(kids, vs) && Holds(t, v) && ItemsOf(kids) !! Items(t)
    ensures AllHold(kids + [t], vs + [v])
  {
    if kids == [] {
      assert kids + [t] == [t] && vs + [v] == [v];
    } else {
      assert (kids + [t])[1..] == kids[1..] + [t] && (vs + [v])[1..] == vs[1..] + [v];
      ItemsAppend(kids[1..], t);
      AllHoldAppend(kids[1..], vs[1..], t, v);
    }
  }

  lemma {:induction false} MembersHoldAppend(kids: seq<Shape>, ms: seq<Entry<Value>>, t: Shape, e: Entry<Value>)
    requires MembersHold(kids, ms) && Holds(t, e.value) && t.item.name == e.key && ItemsOf(kids) !! Items(t)
    ensures MembersHold(kids + [t], ms + [e])
  {
    if kids == [] {
      assert kids + [t] == [t] && ms + [e] == [e];
    } else {
      assert (kids + [t])[1..] == kids[1..] + [t] && (ms + [e])[1..] == ms[1..] + [e];
      ItemsAppend(kids[1..], t);
      MembersHoldAppend(kids[1..], ms[1..], t, e);
    }
  }

  lemma {:induction false} OneMoreElement(
      items: seq<Item>, kids: seq<Shape>, vs: seq<Value>, item: Item, t: Shape, v: Value)
    requires Elements(items, kids, vs) && Filled(item, t, v) && item.next == null && ItemsOf(kids) !! Items(t)
    ensures Elements(items + [item], kids + [t], vs + [v]) && ItemsOf(kids + [t]) == ItemsOf(kids) + Items(t)
  {
    AllHoldAppend(kids, vs, t, v);
    ItemsAppend(kids, t);
  }

  lemma {:induction false} OneMoreNamedElement(
      items: seq<Item>, kids: seq<Shape>, ms: seq<Entry<Value>>, item: Item, t: Shape, e: Entry<Value>)
    requires NamedElements(items, kids, ms) && Filled(item, t, e.value) && item.name == e.key && item.next == null
    requires ItemsOf(kids) !! Items(t)
    ensures NamedElements(items + [item], kids + [t], ms + [e]) && ItemsOf(kids + [t]) == ItemsOf(kids) + Items(t)
  {
    MembersHoldAppend(kids, ms, t, e);
    ItemsAppend(kids, t);
  }

  // Linking the topmost items

  /** No two topmost items are the same, and none stands below one. */
  lemma {:induction false} TopsApart(kids: seq<Shape>, vs: seq<Value>)
    requires AllHold(kids, vs)
    ensures NoRepeats(Tops(kids)) && TopSet(kids) !! Below(kids)
    decreases kids
  {
    if kids != [] {
      TopsApart(kids[1..], vs[1..]);
      OneMoreTop(kids);
    }
  }

  lemma {:induction false} MemberTopsApart(kids: seq<Shape>, ms: seq<Entry<Value>>)
    requires MembersHold(kids, ms)
    ensures NoRepeats(Tops(kids)) && TopSet(kids) !! Below(kids)
    decreases kids
  {
    if kids != [] {
      MemberTopsApart(kids[1..], ms[1..]);
      OneMoreTop(kids);
    }
  }

  lemma {:induction false} OneMoreTop(kids: seq<Shape>)
    requires kids != [] && Items(kids[0]) !! ItemsOf(kids[1..]) && kids[0].item !in ItemsOf(kids[0].kids)
    requires NoRepeats(Tops(kids[1..])) && TopSet(kids[1..]) !! Below(kids[1..])
    ensures NoRepeats(Tops(kids)) && TopSet(kids) !! Below(kids)
  {
    var x, rest := kids[0].item, kids[1..];
    assert x !in ItemsOf(rest);
    InsertNoRepeats(Tops(rest), 0, x);
    assert InsertAt(Tops(rest), 0, x) == Tops(kids);
    SetsApart(x, ItemsOf(kids[0].kids), ItemsOf(rest), TopSet(rest), Below(rest));
  }

  lemma SetsApart(x: Item, own: set<Item>, others: set<Item>, tops: set<Item>, below: set<Item>)
    requires {x} + own !! others && x !in own && tops <= others && below <= others && tops !! below
    ensures {x} + tops !! own + below
  {
  }

  lemma {:induction false} ItemsExist(t: Shape)
    ensures forall x :: x in Items(t) ==> allocated(x)
    decreases t, 0
  {
    KidsExist(t.kids);
  }

  lemma {:induction false} KidsExist(kids: seq<Shape>)
    ensures forall x :: x in ItemsOf(kids) ==> allocated(x)
    decreases kids, 1
  {
    if kids != [] {
      ItemsExist(kids[0]);
      KidsExist(kids[1..]);
    }
  }

  /** Ready trees become the children of an array item. */
  method LinkArray(parent: Item, items: seq<Item>, ghost kids: seq<Shape>, ghost vs: seq<Value>)
    requires Blank(parent) && parent !in ItemsOf(kids)
    requires Elements(items, kids, vs)
    modifies parent`child, parent`children, items`next, items`prev
    ensures Holds(Shape(parent, kids), Array(vs))
  {
    TopsApart(kids, vs);
    TopsAreTopSet(kids);
    assert forall x :: x in Below(kids) ==> x !in items && x != parent;
    KidsExist(kids);
    parent.LinkNewItems(items);
  }

  method LinkObject(parent: Item, items: seq<Item>, ghost kids: seq<Shape>, ghost ms: seq<Entry<Value>>)
    requires Blank(parent) && parent !in ItemsOf(kids)
    requires NamedElements(items, kids, ms)
    modifies parent`child, parent`children, items`next, items`prev
    ensures Holds(Shape(parent, kids), Object(ms))
  {
    MemberTopsApart(kids, ms);
    TopsAreTopSet(kids);
    assert forall x :: x in Below(kids) ==> x !in items && x != parent;
    KidsExist(kids);
    parent.LinkNewItems(items);
  }
}
