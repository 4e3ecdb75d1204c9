/**
 The config as the commands really hold it: mutable containers linked by references, changed in place.
 Every method is proved against the operation of the same name on trees.
 */
module ConfigHeap {
  import opened Text
  import opened ConfigTree
  import opened ConfigCommand

  /** What a slot holds: a value that is no container, or a reference to one. */
  datatype Val = Leaf(j: Json) | Ref(node: Node)

  function Zip(keys: seq<string>, trees: seq<Json>): seq<Field>
    requires |keys| == |trees|
  {
    if keys == [] then [] else [Field(keys[0], trees[0])] + Zip(keys[1..], trees[1..])
  }

  /** The tree of a container with the given slots. */
  function Build(isArray: bool, keys: seq<string>, trees: seq<Json>): Json
    requires isArray || |keys| == |trees|
  {
    if isArray then Arr(trees) else Obj(Zip(keys, trees))
  }

  /** The slot of a segment, or the number of slots when there is none. */
  function Locate(isArray: bool, keys: seq<string>, n: nat, seg: string): (k: nat)
    requires isArray || |keys| == n
    ensures k <= n
  {
    if isArray then if IsNumeral(seg) && Value(seg) < n then Value(seg) else n
    else FirstKey(keys, seg)
  }

  function FirstKey(keys: seq<string>, key: string): (k: nat)
    ensures k <= |keys|
  {
    if keys == [] || keys[0] == key then 0 else 1 + FirstKey(keys[1..], key)
  }

  lemma {:induction false} LookupZip(keys: seq<string>, trees: seq<Json>, key: string)
    requires |keys| == |trees|
    ensures var k := FirstKey(keys, key);
            Lookup(Zip(keys, trees), key) == if k < |keys| then trees[k] else Undefined
  {
    if keys != [] && keys[0] != key { LookupZip(keys[1..], trees[1..], key); }
  }

  lemma {:induction false} PutZip(keys: seq<string>, trees: seq<Json>, key: string, v: Json)
    requires |keys| == |trees|
    ensures var k := FirstKey(keys, key);
            Put(Zip(keys, trees), key, v)
            == if k < |keys| then Zip(keys, trees[k := v]) else Zip(keys + [key], trees + [v])
  {
    if keys != [] {
      var k := FirstKey(keys, key);
      if keys[0] == key {
        assert trees[0 := v] == [v] + trees[1..];
      } else {
        PutZip(keys[1..], trees[1..], key, v);
        assert (keys + [key])[1..] == keys[1..] + [key] && (trees + [v])[1..] == trees[1..] + [v];
        if k < |keys| { assert trees[k := v][1..] == trees[1..][k - 1 := v]; }
      }
    } else {
      assert Zip([key], [v]) == [Field(key, v)];
    }
  }

  lemma {:induction false} HasKeyZip(keys: seq<string>, trees: seq<Json>, key: string)
    requires |keys| == |trees|
    ensures HasKey(Zip(keys, trees), key) <==> FirstKey(keys, key) < |keys|
  {
    if keys != [] {
      var fields, rest := Zip(keys, trees), Zip(keys[1..], trees[1..]);
      assert fields[0].key == keys[0] && fields[1..] == rest;
      assert forall m :: 0 < m < |fields| ==> fields[m] == rest[m - 1];
      HasKeyZip(keys[1..], trees[1..], key);
      if m :| 0 <= m < |rest| && rest[m].key == key { assert fields[m + 1].key == key; }
    }
  }

  lemma {:induction false} RemoveZip(keys: seq<string>, trees: seq<Json>, key: string)
    requires |keys| == |trees| && FirstKey(keys, key) < |keys|
    ensures var k := FirstKey(keys, key);
            Remove(Zip(keys, trees), key) == Zip(keys[..k] + keys[k + 1..], trees[..k] + trees[k + 1..])
  {
    var k := FirstKey(keys, key);
    if keys[0] == key {
      assert keys[..0] + keys[1..] == keys[1..] && trees[..0] + trees[1..] == trees[1..];
    } else {
      RemoveZip(keys[1..], trees[1..], key);
      var ks, ts := keys[..k] + keys[k + 1..], trees[..k] + trees[k + 1..];
      assert ks[0] == keys[0] && ks[1..] == keys[1..][..k - 1] + keys[1..][k..];
      assert ts[0] == trees[0] && ts[1..] == trees[1..][..k - 1] + trees[1..][k..];
      assert Zip(ks, ts) == [Field(keys[0], trees[0])] + Zip(ks[1..], ts[1..]);
      assert Zip(keys, trees)[1..] == Zip(keys[1..], trees[1..]);
    }
  }

  function KeysWithout(isArray: bool, keys: seq<string>, k: nat): seq<string>
    requires isArray || k < |keys|
  {
    if isArray then keys else keys[..k] + keys[k + 1..]
  }

  /** Slots and tree agree on what a segment reads and on what assigning and dropping it makes. */
  lemma SlotOfTree(isArray: bool, keys: seq<string>, trees: seq<Json>, seg: string, v: Json)
    requires isArray || |keys| == |trees|
    ensures var k, tree := Locate(isArray, keys, |trees|, seg), Build(isArray, keys, trees);
            && Child(tree, seg) == (if k < |trees| then trees[k] else Undefined)
            && (k < |trees| ==> Takes(tree, seg) && Assign(tree, seg, v) == Build(isArray, keys, trees[k := v]))
            && (HasSlot(tree, seg) <==> k < |trees|)
            && (k < |trees| ==>
                  Drop(tree, seg) == Build(isArray, KeysWithout(isArray, keys, k), trees[..k] + trees[k + 1..]))
  {
    if !isArray {
      LookupZip(keys, trees, seg);
      PutZip(keys, trees, seg, v);
      HasKeyZip(keys, trees, seg);
      if FirstKey(keys, seg) < |keys| { RemoveZip(keys, trees, seg); }
    }
  }

  lemma NewSlotOfTree(isArray: bool, keys: seq<string>, trees: seq<Json>, seg: string, v: Json)
    requires isArray || |keys| == |trees|
    requires Locate(isArray, keys, |trees|, seg) == |trees| && Takes(Build(isArray, keys, trees), seg)
    ensures Assign(Build(isArray, keys, trees), seg, v)
         == if isArray then Arr(PutAt(trees, Value(seg), v)) else Obj(Zip(keys + [seg], trees + [v]))
  {
    if !isArray { PutZip(keys, trees, seg, v); }
  }

  // ---- containers -------------------------------------------------------------------------------

  class Node {
    const isArray: bool
    var keys: seq<string>       // an object's keys, slot by slot
    var vals: seq<Val>
    ghost var repr: set<Node>   // this container and all that are reachable from it

    constructor (isArray: bool)
      ensures Valid() && fresh(repr) && repr == {this}
      ensures Tree() == if isArray then Arr([]) else Obj([])
    {
      this.isArray := isArray;
      keys, vals, repr := [], [], {this};
    }

    ghost predicate Valid()
      reads this, repr
      ensures Valid() ==> this in repr
      decreases repr
    {
      && this in repr
      && (isArray || |keys| == |vals|)
      && (forall i :: 0 <= i < |vals| && vals[i].Leaf? ==> !IsContainer(vals[i].j))
      && (forall i :: 0 <= i < |vals| && vals[i].Ref? ==>
            vals[i].node in repr && vals[i].node.repr <= repr - {this} && vals[i].node.Valid())
      && (forall i, j :: 0 <= i < j < |vals| && vals[i].Ref? && vals[j].Ref? ==>
            vals[i].node.repr !! vals[j].node.repr)
    }

    ghost function Trees(): (t: seq<Json>)
      requires Valid()
      reads this, repr
      decreases repr, 0
    {
      seq(|vals|, i requires Valid() && 0 <= i < |vals| reads this, repr =>
        if vals[i].Leaf? then vals[i].j else vals[i].node.Tree())
    }

    ghost function Tree(): Json
      requires Valid()
      reads this, repr
      decreases repr, 1
    {
      Build(isArray, keys, Trees())
    }
  }

  ghost predicate ValidVal(v: Val)
    reads if v.Ref? then {v.node} else {}, if v.Ref? then v.node.repr else {}
  {
    if v.Leaf? then !IsContainer(v.j) else v.node.Valid()
  }

  ghost function ReprOf(v: Val): set<Node>
    reads if v.Ref? then {v.node} else {}
  {
    if v.Leaf? then {} else v.node.repr
  }

  ghost function TreeOf(v: Val): Json
    requires ValidVal(v)
    reads if v.Ref? then {v.node} else {}, if v.Ref? then v.node.repr else {}
  {
    if v.Leaf? then v.j else v.node.Tree()
  }

  /** Puts a value into an existing slot. */
  method Replace(n: Node, k: nat, v: Val)
    requires n.Valid() && ValidVal(v) && ReprOf(v) !! n.repr && k < |n.vals|
    modifies n
    ensures n.Valid() && n.repr == old(n.repr) + ReprOf(v)
    ensures n.keys == old(n.keys) && n.vals == old(n.vals)[k := v]
    ensures n.Trees() == old(n.Trees())[k := old(TreeOf(v))]
  {
    n.vals := n.vals[k := v];
    n.repr := n.repr + ReprOf(v);
  }

  lemma {:induction false} FirstKeyOfAppend(keys: seq<string>, key: string)
    requires FirstKey(keys, key) == |keys|
    ensures FirstKey(keys + [key], key) == |keys|
  {
    if keys != [] {
      assert (keys + [key])[1..] == keys[1..] + [key];
      FirstKeyOfAppend(keys[1..], key);
    }
  }

  /** Adds slots at the end: one new key of an object, or the element of an array after some holes. */
  method Extend(n: Node, seg: string, v: Val)
    requires n.Valid() && ValidVal(v) && ReprOf(v) !! n.repr
    requires Locate(n.isArray, n.keys, |n.vals|, seg) == |n.vals| && (n.isArray ==> IsNumeral(seg))
    modifies n
    ensures n.Valid() && n.repr == old(n.repr) + ReprOf(v)
    ensures n.vals != [] && n.vals[|n.vals| - 1] == v
    ensures n.keys == if n.isArray then old(n.keys) else old(n.keys) + [seg]
    ensures n.isArray ==> n.Trees() == PutAt(old(n.Trees()), Value(seg), old(TreeOf(v))) && |n.vals| == Value(seg) + 1
    ensures !n.isArray ==> n.Trees() == old(n.Trees()) + [old(TreeOf(v))]
  {
    var holes := if n.isArray then Value(seg) - |n.vals| else 0;
    Append(n, if n.isArray then n.keys else n.keys + [seg], holes, v);
    assert n.isArray ==> old(n.Trees()) + seq(holes, _ => Undefined) + [old(TreeOf(v))]
                         == PutAt(old(n.Trees()), Value(seg), old(TreeOf(v)));
    assert !n.isArray ==> old(n.Trees()) + seq(holes, _ => Undefined) == old(n.Trees());
  }

  method Append(n: Node, keys: seq<string>, holes: nat, v: Val)
    requires n.Valid() && ValidVal(v) && ReprOf(v) !! n.repr
    requires n.isArray || |keys| == |n.vals| + holes + 1
    modifies n
    ensures n.Valid() && n.repr == old(n.repr) + ReprOf(v) && n.keys == keys
    ensures |n.vals| == |old(n.vals)| + holes + 1 && n.vals[|n.vals| - 1] == v
    ensures n.Trees() == old(n.Trees()) + seq(holes, _ => Undefined) + [old(TreeOf(v))]
  {
    n.keys, n.vals := keys, n.vals + seq(holes, _ => Leaf(Undefined)) + [v];
    n.repr := n.repr + ReprOf(v);
  }

  /** Assignment to a segment of a container. */
  method Store(n: Node, seg: string, v: Val) returns (k: nat)
    requires n.Valid() && ValidVal(v) && ReprOf(v) !! n.repr
    requires n.isArray ==> IsNumeral(seg)
    modifies n
    ensures n.Valid() && n.repr == old(n.repr) + ReprOf(v)
    ensures Takes(old(n.Tree()), seg) && n.Tree() == Assign(old(n.Tree()), seg, old(TreeOf(v)))
    ensures k < |n.vals| && k == Locate(n.isArray, n.keys, |n.vals|, seg) && n.vals[k] == v
  {
    ghost var trees, keys, t := n.Trees(), n.keys, TreeOf(v);
    k := Locate(n.isArray, n.keys, |n.vals|, seg);
    if k < |n.vals| {
      SlotOfTree(n.isArray, keys, trees, seg, t);
      Replace(n, k, v);
    } else {
      NewSlotOfTree(n.isArray, keys, trees, seg, t);
      Extend(n, seg, v);
      if !n.isArray { FirstKeyOfAppend(keys, seg); }
      k := |n.vals| - 1;
    }
  }

  // ---- set --------------------------------------------------------------------------------------

  /** Goes to the container in the slot of a segment, after putting a new one there if it has none. */
  method Enter(cur: Node, parts: Path, seg: string) returns (k: nat, child: Node)
    requires cur.Valid() && seg in parts && (cur.isArray ==> IsNumeral(seg))
    modifies cur
    ensures cur.Valid() && old(cur.repr) <= cur.repr && fresh(cur.repr - old(cur.repr))
    ensures child.Valid() && child.repr <= cur.repr - {cur}
    ensures k < |cur.vals| && k == Locate(cur.isArray, cur.keys, |cur.vals|, seg) && cur.vals[k] == Ref(child)
    ensures child.Tree() == Entered(old(cur.Tree()), parts, seg) && Takes(old(cur.Tree()), seg)
    ensures cur.Tree() == old(cur.Tree()) || cur.Tree() == Assign(old(cur.Tree()), seg, child.Tree())
  {
    hide Build, Assign, IndexOfPart;
    TreeIsBuilt(cur);
    k := Locate(cur.isArray, cur.keys, |cur.vals|, seg);
    SlotOfTree(cur.isArray, cur.keys, cur.Trees(), seg, Undefined);
    if k == |cur.vals| || cur.vals[k].Leaf? {
      child := new Node(NextContainer(parts, IndexOfPart(parts, seg)).Arr?);
      k := Store(cur, seg, Ref(child));
    } else {
      child := cur.vals[k].node;
      TreeIsContainer(child);
    }
  }

  lemma TreeIsContainer(n: Node)
    requires n.Valid()
    ensures IsContainer(n.Tree())
  {
  }

  /** The tree of a container one of whose slots has got a new tree. */
  lemma SlotReplaced(isArray: bool, keys: seq<string>, trees: seq<Json>, seg: string, was: Json, made: Json, v: Json)
    requires isArray || |keys| == |trees|
    requires Locate(isArray, keys, |trees|, seg) < |trees| && Takes(was, seg)
    requires Build(isArray, keys, trees) == was || Build(isArray, keys, trees) == Assign(was, seg, made)
    ensures Build(isArray, keys, trees[Locate(isArray, keys, |trees|, seg) := v]) == Assign(was, seg, v)
  {
    SlotOfTree(isArray, keys, trees, seg, v);
    AssignTwice(was, seg, made, v);
  }

  lemma SetFromStep(tree: Json, parts: Path, i: nat, last: string, v: Json)
    requires IsContainer(tree) && i < |parts| && Takes(tree, parts[i])
    ensures IsContainer(Entered(tree, parts, parts[i]))
    ensures var o := ConfigCommand.SetFrom(Entered(tree, parts, parts[i]), parts, i + 1, last, v);
            ConfigCommand.SetFrom(tree, parts, i, last, v)
            == if o.Done? then Done(Assign(tree, parts[i], o.tree)) else Threw(Assign(tree, parts[i], o.tree))
  {
  }

  /** The walk of `setByPath` from segment `i` on, one call for each container it enters. */
  method SetFrom(cur: Node, parts: Path, i: nat, last: string, v: Val) returns (threw: bool)
    requires cur.Valid() && ValidVal(v) && ReprOf(v) !! cur.repr && i <= |parts|
    modifies cur.repr
    ensures cur.Valid() && old(cur.repr) <= cur.repr && fresh(cur.repr - old(cur.repr) - old(ReprOf(v)))
    ensures (if threw then Threw(cur.Tree()) else Done(cur.Tree()))
         == ConfigCommand.SetFrom(old(cur.Tree()), parts, i, last, old(TreeOf(v)))
    decreases |parts| - i, 1
  {
    if cur.isArray && !IsNumeral(Segment(parts, last, i)) { return true; }
    if i == |parts| {
      var _ := Store(cur, last, v);
      return false;
    }
    threw := SetBelow(cur, parts, i, last, v);
  }

  lemma TreeIsBuilt(n: Node)
    requires n.Valid()
    ensures (n.isArray || |n.keys| == |n.Trees()|) && |n.Trees()| == |n.vals|
    ensures n.Tree() == Build(n.isArray, n.keys, n.Trees())
  {
  }

  method SetBelow(cur: Node, parts: Path, i: nat, last: string, v: Val) returns (threw: bool)
    requires cur.Valid() && ValidVal(v) && ReprOf(v) !! cur.repr && i < |parts|
    requires cur.isArray ==> IsNumeral(parts[i])
    modifies cur.repr
    ensures cur.Valid() && old(cur.repr) <= cur.repr && fresh(cur.repr - old(cur.repr) - old(ReprOf(v)))
    ensures (if threw then Threw(cur.Tree()) else Done(cur.Tree()))
         == ConfigCommand.SetFrom(old(cur.Tree()), parts, i, last, old(TreeOf(v)))
    decreases |parts| - i, 0
  {
    ghost var tree, t := cur.Tree(), TreeOf(v);
    assert IsContainer(tree) && Takes(tree, parts[i]);
    hide *;
    var k, child := Enter(cur, parts, parts[i]);
    SetFromStep(tree, parts, i, last, t);
    ghost var trees, made := cur.Trees(), child.Tree();
    TreeIsBuilt(cur);
    threw := SetInSlot(cur, k, child, parts, i + 1, last, v);
    TreeIsBuilt(cur);
    SlotReplaced(cur.isArray, cur.keys, trees, parts[i], tree, made, cur.Trees()[k]);
  }

  method SetInSlot(cur: Node, k: nat, child: Node, parts: Path, i: nat, last: string, v: Val) returns (threw: bool)
    requires cur.Valid() && k < |cur.vals| && cur.vals[k] == Ref(child)
    requires ValidVal(v) && ReprOf(v) !! cur.repr && i <= |parts| && child.Valid() && child.repr <= cur.repr - {cur}
    modifies cur.repr
    ensures cur.Valid() && old(cur.repr) <= cur.repr && fresh(cur.repr - old(cur.repr) - old(ReprOf(v)))
    ensures cur.keys == old(cur.keys) && |cur.vals| == |old(cur.vals)| == |cur.Trees()| == |old(cur.Trees())|
    ensures var o := ConfigCommand.SetFrom(old(child.Tree()), parts, i, last, old(TreeOf(v)));
            threw == o.Threw? && cur.Trees() == old(cur.Trees())[k := o.tree]
    decreases |parts| - i, 2
  {
    hide Build;
    hide ConfigCommand.SetFrom;
    threw := SetFrom(child, parts, i, last, v);
    cur.repr := cur.repr + child.repr;
    assert cur.Valid();
  }

  /** `setByPath` of the config command. */
  method SetByPath(root: Node, path: string, v: Val) returns (threw: bool)
    requires root.Valid() && ValidVal(v) && ReprOf(v) !! root.repr
    modifies root.repr
    ensures root.Valid() && IsContainer(old(root.Tree()))
    ensures (if threw then Threw(root.Tree()) else Done(root.Tree()))
         == ConfigCommand.SetByPath(old(root.Tree()), path, old(TreeOf(v)))
  {
    var parts := SplitPath(path);
    if parts == [] { return true; }
    threw := SetFrom(root, parts[..|parts| - 1], 0, parts[|parts| - 1], v);
  }

  // ---- get --------------------------------------------------------------------------------------

  method GetByPath(root: Node, path: string) returns (found: Val)
    requires root.Valid()
    ensures ValidVal(found) && ReprOf(found) <= root.repr
    ensures TreeOf(found) == Get(root.Tree(), SplitPath(path))
  {
    hide SplitPath, Get, Build;
    var parts := SplitPath(path);
    found := Ref(root);
    assert parts[0..] == parts;
    for i := 0 to |parts|
      invariant ValidVal(found) && ReprOf(found) <= root.repr
      invariant Get(TreeOf(found), parts[i..]) == Get(root.Tree(), parts)
    {
      GetStep(TreeOf(found), parts, i);
      if found.Leaf? {
        NothingInside(found.j, parts[i..]);
        return Leaf(Undefined);
      }
      found := ChildVal(found.node, parts[i]);
    }
    GetOfAll(TreeOf(found), parts);
  }

  lemma GetStep(j: Json, parts: Path, i: nat)
    requires i < |parts|
    ensures Get(j, parts[i..]) == Get(Child(j, parts[i]), parts[i + 1..])
  {
    assert parts[i..][1..] == parts[i + 1..];
  }

  lemma GetOfAll(j: Json, parts: Path)
    ensures Get(j, parts[|parts|..]) == j
  {
  }

  method ChildVal(n: Node, seg: string) returns (v: Val)
    requires n.Valid()
    ensures ValidVal(v) && ReprOf(v) <= n.repr && TreeOf(v) == Child(n.Tree(), seg)
  {
    var k := Locate(n.isArray, n.keys, |n.vals|, seg);
    SlotOfTree(n.isArray, n.keys, n.Trees(), seg, Undefined);
    v := if k < |n.vals| then n.vals[k] else Leaf(Undefined);
  }

  // ---- unset ------------------------------------------------------------------------------------

  method DropSlot(n: Node, seg: string) returns (removed: bool)
    requires n.Valid()
    modifies n
    ensures n.Valid() && n.repr == old(n.repr)
    ensures removed <==> HasSlot(old(n.Tree()), seg)
    ensures n.Tree() == if removed then Drop(old(n.Tree()), seg) else old(n.Tree())
  {
    ghost var trees := n.Trees();
    var k := Locate(n.isArray, n.keys, |n.vals|, seg);
    SlotOfTree(n.isArray, n.keys, trees, seg, Undefined);
    removed := k < |n.vals|;
    if removed {
      Splice(n, k);
    }
  }

  method Splice(n: Node, k: nat)
    requires n.Valid() && k < |n.vals|
    modifies n
    ensures n.Valid() && n.repr == old(n.repr)
    ensures n.keys == KeysWithout(n.isArray, old(n.keys), k)
    ensures n.Trees() == old(n.Trees())[..k] + old(n.Trees())[k + 1..]
  {
    n.keys := KeysWithout(n.isArray, n.keys, k);
    n.vals := n.vals[..k] + n.vals[k + 1..];
  }

  /** The slot that the walk of `unset` goes through: arrays are read by the canonical index only. */
  method PropertySlot(n: Node, seg: string) returns (k: nat)
    requires n.Valid()
    ensures k <= |n.vals|
    ensures k < |n.vals| ==> k == Locate(n.isArray, n.keys, |n.vals|, seg)
    ensures Property(n.Tree(), seg) == if k < |n.vals| then TreeOf(n.vals[k]) else Undefined
  {
    SlotOfTree(n.isArray, n.keys, n.Trees(), seg, Undefined);
    k := if n.isArray && IsNumeral(seg) && seg != Decimal(Value(seg)) then |n.vals|
         else Locate(n.isArray, n.keys, |n.vals|, seg);
  }

  method UnsetFrom(cur: Node, parts: Path, i: nat, last: string) returns (removed: bool)
    requires cur.Valid() && i <= |parts|
    modifies cur.repr
    ensures cur.Valid() && cur.repr == old(cur.repr)
    ensures ConfigCommand.UnsetFrom(old(cur.Tree()), parts[i..], last)
         == if removed then Removed(cur.Tree()) else Nothing
    ensures !removed ==> cur.Tree() == old(cur.Tree())
    decreases |parts| - i, 1
  {
    hide Build, Drop, Decimal, Value;
    ghost var tree, trees := cur.Tree(), cur.Trees();
    TreeIsBuilt(cur);
    UnsetStep(tree, parts, i, last);
    if i == |parts| {
      removed := DropSlot(cur, last);
      return;
    }
    var k := PropertySlot(cur, parts[i]);
    hide Property, ConfigCommand.UnsetFrom;
    if k == |cur.vals| || cur.vals[k].Leaf? { return false; }
    SlotOfTree(cur.isArray, cur.keys, trees, parts[i], Undefined);
    removed := UnsetInSlot(cur, k, cur.vals[k].node, parts, i + 1, last);
    TreeIsBuilt(cur);
    SlotOfTree(cur.isArray, cur.keys, trees, parts[i], cur.Trees()[k]);
    assert trees[k := trees[k]] == trees;
  }

  lemma UnsetStep(tree: Json, parts: Path, i: nat, last: string)
    requires i <= |parts|
    ensures i == |parts| ==>
              ConfigCommand.UnsetFrom(tree, parts[i..], last)
              == if HasSlot(tree, last) then Removed(Drop(tree, last)) else Nothing
    ensures i < |parts| ==>
              var next := Property(tree, parts[i]);
              var r := ConfigCommand.UnsetFrom(next, parts[i + 1..], last);
              && ConfigCommand.UnsetFrom(tree, parts[i..], last)
                 == (if r.Nothing? || !Takes(tree, parts[i]) then Nothing else Removed(Assign(tree, parts[i], r.tree)))
              && (!IsContainer(next) ==> r == Nothing)
  {
    hide Drop, Assign, Decimal, Value;
    if i < |parts| {
      assert parts[i..][1..] == parts[i + 1..];
      if !IsContainer(tree) { assert Property(tree, parts[i]) == Undefined; }
    }
  }

  method UnsetInSlot(cur: Node, k: nat, child: Node, parts: Path, i: nat, last: string) returns (removed: bool)
    requires cur.Valid() && k < |cur.vals| && cur.vals[k] == Ref(child)
    requires i <= |parts| && child.Valid() && child.repr <= cur.repr - {cur}
    modifies cur.repr
    ensures cur.Valid() && cur.repr == old(cur.repr)
    ensures cur.keys == old(cur.keys) && |cur.vals| == |old(cur.vals)| == |cur.Trees()| == |old(cur.Trees())|
    ensures ConfigCommand.UnsetFrom(old(child.Tree()), parts[i..], last)
         == if removed then Removed(cur.Trees()[k]) else Nothing
    ensures cur.Trees() == old(cur.Trees())[k := cur.Trees()[k]]
    ensures !removed ==> cur.Trees()[k] == old(cur.Trees())[k]
    decreases |parts| - i, 2
  {
    hide Build;
    hide ConfigCommand.UnsetFrom;
    removed := UnsetFrom(child, parts, i, last);
    assert cur.Valid();
  }

  /** `unsetByPath`: true when something was removed, and then exactly that is gone. */
  method UnsetByPath(root: Node, path: string) returns (removed: bool)
    requires root.Valid()
    modifies root.repr
    ensures root.Valid()
    ensures Unset(old(root.Tree()), SplitPath(path)) == if removed then Removed(root.Tree()) else Nothing
    ensures !removed ==> root.Tree() == old(root.Tree())
  {
    var parts := SplitPath(path);
    if parts == [] { return false; }
    assert parts[..|parts| - 1][0..] == parts[..|parts| - 1];
    removed := UnsetFrom(root, parts[..|parts| - 1], 0, parts[|parts| - 1]);
  }
}
