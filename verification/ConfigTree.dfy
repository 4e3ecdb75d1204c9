/**
 Configuration values as the JSON5 loader yields them.  Objects keep their keys in insertion order.
 `Undefined` is what a missing key reads as, and the content of a hole in an array.
 */
module ConfigTree {
  import opened Text

  datatype Json =
    | Undefined
    | Null
    | Bool(b: bool)
    | Num(n: int)
    | Str(s: string)
    | Arr(items: seq<Json>)
    | Obj(fields: seq<Field>)

  datatype Field = Field(key: string, value: Json)

  type Path = seq<string>

  predicate HasKey(fields: seq<Field>, key: string) {
    exists k :: 0 <= k < |fields| && fields[k].key == key
  }

  ghost predicate DistinctKeys(fields: seq<Field>) {
    forall j, k :: 0 <= j < k < |fields| ==> fields[j].key != fields[k].key
  }

  function Lookup(fields: seq<Field>, key: string): Json {
    if fields == [] then Undefined
    else if fields[0].key == key then fields[0].value
    else Lookup(fields[1..], key)
  }

  lemma {:induction false} LookupFinds(fields: seq<Field>, key: string)
    ensures !HasKey(fields, key) ==> Lookup(fields, key) == Undefined
    ensures HasKey(fields, key) ==> exists k :: 0 <= k < |fields| && fields[k] == Field(key, Lookup(fields, key))
  {
    if fields != [] && fields[0].key != key {
      LookupFinds(fields[1..], key);
      assert forall k :: 0 < k < |fields| ==> fields[k] == fields[1..][k - 1];
      if HasKey(fields, key) {
        var k :| 0 <= k < |fields| && fields[k].key == key;
        assert fields[1..][k - 1].key == key;
        var m :| 0 <= m < |fields[1..]| && fields[1..][m] == Field(key, Lookup(fields, key));
        assert fields[m + 1] == Field(key, Lookup(fields, key));
      }
    } else if fields != [] {
      assert fields[0] == Field(key, Lookup(fields, key));
    }
  }

  lemma LookupAt(fields: seq<Field>, k: nat)
    requires DistinctKeys(fields) && k < |fields|
    ensures Lookup(fields, fields[k].key) == fields[k].value
  {
    LookupFinds(fields, fields[k].key);
  }

  function At(items: seq<Json>, i: nat): Json {
    if i < |items| then items[i] else Undefined
  }

  /** One property access with a segment of a dotted path. */
  function Child(j: Json, seg: string): Json {
    match j
    case Arr(items) => if IsNumeral(seg) then At(items, Value(seg)) else Undefined
    case Obj(fields) => Lookup(fields, seg)
    case _ => Undefined
  }

  function Get(j: Json, path: Path): Json
    decreases |path|
  {
    if path == [] then j else Get(Child(j, path[0]), path[1..])
  }

  /** Neither path is a prefix of the other. */
  predicate Incomparable(p: Path, q: Path) { !(p <= q) && !(q <= p) }

  lemma {:induction false} GetUndefined(path: Path)
    ensures Get(Undefined, path) == Undefined
    decreases |path|
  {
    if path != [] { GetUndefined(path[1..]); }
  }

  function Height(j: Json): nat {
    match j
    case Arr(items) => 1 + MaxHeight(items)
    case Obj(fields) => 1 + MaxFieldHeight(fields)
    case _ => 0
  }

  function MaxHeight(items: seq<Json>): (h: nat)
    ensures forall k :: 0 <= k < |items| ==> Height(items[k]) <= h
  {
    if items == [] then 0
    else
      var a, b := Height(items[0]), MaxHeight(items[1..]);
      assert forall k :: 0 < k < |items| ==> items[k] == items[1..][k - 1];
      if a > b then a else b
  }

  function MaxFieldHeight(fields: seq<Field>): (h: nat)
    ensures forall k :: 0 <= k < |fields| ==> Height(fields[k].value) <= h
  {
    if fields == [] then 0
    else
      var a, b := Height(fields[0].value), MaxFieldHeight(fields[1..]);
      assert forall k :: 0 < k < |fields| ==> fields[k] == fields[1..][k - 1];
      if a > b then a else b
  }
}
