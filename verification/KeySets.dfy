/** Trees whose keys come from a given set. */
module KeySets {
  import opened Json

  /** Every key of the tree is one of these. */
  ghost predicate KeysIn(v: Value, keys: iset<string>)
    decreases v
  {
    match v
    case Array(items) => forall i :: 0 <= i < |items| ==> KeysIn(items[i], keys)
    case Object(ms) => forall i :: 0 <= i < |ms| ==> ms[i].key in keys && KeysIn(ms[i].value, keys)
    case _ => true
  }

  ghost predicate ItemsIn(items: seq<Value>, keys: iset<string>) {
    forall i :: 0 <= i < |items| ==> KeysIn(items[i], keys)
  }

  ghost predicate MembersIn(ms: seq<Entry<Value>>, keys: iset<string>) {
    forall i :: 0 <= i < |ms| ==> ms[i].key in keys && KeysIn(ms[i].value, keys)
  }
}
