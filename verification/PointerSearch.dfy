/** The search of cJSONUtils_FindPointerFromObjectTo. */
module PointerSearch {
  // An item is the same as another when the child positions that lead to it are.

  import opened Json
  import opened Options
  import opened Equality
  import opened Pointer

  /** The pointer to the target as seen from the item at `here`, if the target is below it. */
  function PointerTo(v: Value, here: seq<nat>, target: seq<nat>): Option<string> {
    if here <= target && HasNode(v, target[|here|..]) then Some(PathText(StepsTo(v, target[|here|..]))) else None
  }

  lemma ChildHeight(v: Value, i: nat)
    requires i < |Children(v)|
    ensures Height(Children(v)[i]) < Height(v)
  {
    match v
    case Array(items) => ItemHeight(items, i);
    case Object(ms) => MemberHeight(ms, i);
  }

  /** Below an item the pointer starts with the token of the child. */
  lemma PointerThroughChild(v: Value, here: seq<nat>, target: seq<nat>, i: nat)
    requires i < |Children(v)| && here + [i] <= target
    ensures var p := PointerTo(Children(v)[i], here + [i], target);
      var token := if v.Object? then EncodeToken(v.members[i].key) else IndexText(i);
      PointerTo(v, here, target) == if p.Some? then Some("/" + token + p.value) else None
  {
    var rest := target[|here|..];
    assert here <= target && rest[0] == i && rest[1..] == target[|here + [i]|..];
  }

  lemma NoOtherChild(v: Value, here: seq<nat>, target: seq<nat>, i: nat)
    requires i < |Children(v)| && !(here + [i] <= target)
    ensures PointerTo(Children(v)[i], here + [i], target) == None
  {
  }

  method FindPointer(v: Value, here: seq<nat>, target: seq<nat>) returns (pointer: Option<string>)
    ensures pointer == PointerTo(v, here, target)
    decreases Height(v)
  {
    if here == target {
      assert target[|here|..] == [];
      return Some("");
    }
    var children := Children(v);
    var i: nat := 0;
    while i < |children|
      invariant i <= |children|
      invariant forall j: nat :: j < i ==> !(here + [j] <= target) || PointerTo(v, here, target) == None
    {
      ChildHeight(v, i);
      var below := FindPointer(children[i], here + [i], target);
      if here + [i] <= target { PointerThroughChild(v, here, target, i); } else { NoOtherChild(v, here, target, i); }
      if below.Some? {
        var token := if v.Object? then EncodeToken(v.members[i].key) else IndexText(i);
        return Some("/" + token + below.value);
      }
      i := i + 1;
    }
    if here <= target {
      var rest := target[|here|..];
      assert rest != [] && here + [rest[0]] <= target;
      assert rest[0] < |children| ==> PointerTo(v, here, target) == None;
    }
    return None;
  }

  /** The pointer that is found resolves to exactly the target, and none is found only for what is not in
      the tree. */
  method FindPointerFromObjectTo(root: Value, target: seq<nat>) returns (pointer: Option<string>)
    requires forall i :: 0 <= i < |target| ==> target[i] < SIZE_LIMIT
    ensures pointer.Some? <==> HasNode(root, target)
    ensures pointer.Some? && Distinct(root, true) ==> Locate(root, pointer.value, true) == Some(target)
  {
    pointer := FindPointer(root, [], target);
    assert target[0..] == target;
    if HasNode(root, target) && Distinct(root, true) { PointerRoundTrip(root, target, true); }
  }
}
