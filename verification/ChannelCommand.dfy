/** The channel command's setter: it walks through objects only, and throws before it has changed anything. */
module ChannelCommand {
  import opened Text
  import opened ConfigTree
  import opened ConfigCommand
  import ConfigHeap

  predicate Missing(j: Json) { j.Undefined? || j.Null? }

  /** The walk of `setByPath` from segment `i` on; the last segment is `parts[|parts| - 1]`. */
  function SetFrom(cur: Json, parts: Path, i: nat, v: Json): Outcome
    requires cur.Obj? && i < |parts|
    decreases |parts| - i
  {
    if i == |parts| - 1 then Done(Assign(cur, parts[i], v))
    else
      var next := Child(cur, parts[i]);
      if Missing(next) then Within(cur, parts[i], SetFrom(Obj([]), parts, i + 1, v))
      else if !next.Obj? then Threw(cur)
      else Within(cur, parts[i], SetFrom(next, parts, i + 1, v))
  }

  /** Some step before the last finds a value that is neither missing nor an object. */
  ghost predicate Obstructed(cur: Json, parts: Path, i: nat) {
    exists j :: i < j < |parts| && Obstacle(Get(cur, parts[i..j]))
  }

  predicate Obstacle(j: Json) { j != Undefined && j != Null && !j.Obj? }

  lemma {:induction false} MissingIsNoObstacle(j: Json, path: Path)
    requires Missing(j) || j == Obj([])
    ensures !Obstacle(Get(j, path))
    decreases |path|
  {
    if path != [] { GetUndefined(path[1..]); }
  }

  lemma {:induction false} ThrowsIffObstructed(cur: Json, parts: Path, i: nat, v: Json)
    requires cur.Obj? && i < |parts|
    ensures SetFrom(cur, parts, i, v).Threw? <==> Obstructed(cur, parts, i)
    decreases |parts| - i
  {
    if i < |parts| - 1 {
      var next := Child(cur, parts[i]);
      var target := if Missing(next) then Obj([]) else next;
      assert parts[i..i + 1] == [parts[i]] && Get(cur, [parts[i]]) == next;
      if target.Obj? {
        ThrowsIffObstructed(target, parts, i + 1, v);
        forall j | i + 1 < j < |parts|
          ensures Obstacle(Get(cur, parts[i..j])) <==> Obstacle(Get(target, parts[i + 1..j]))
        {
          assert parts[i..j][0] == parts[i] && parts[i..j][1..] == parts[i + 1..j];
          MissingIsNoObstacle(Obj([]), parts[i + 1..j]);
          if Missing(next) { MissingIsNoObstacle(next, parts[i + 1..j]); }
        }
        if Obstructed(cur, parts, i) {
          var j :| i < j < |parts| && Obstacle(Get(cur, parts[i..j]));
          assert Obstacle(Get(target, parts[i + 1..j]));
        }
        if Obstructed(target, parts, i + 1) {
          var j :| i + 1 < j < |parts| && Obstacle(Get(target, parts[i + 1..j]));
          assert Obstacle(Get(cur, parts[i..j]));
        }
      } else {
        assert Obstacle(Get(cur, parts[i..i + 1]));
      }
    }
  }

  lemma {:induction false} NewObjectsNeverThrow(parts: Path, i: nat, v: Json)
    requires i < |parts|
    ensures SetFrom(Obj([]), parts, i, v).Done?
    decreases |parts| - i
  {
    if i < |parts| - 1 { NewObjectsNeverThrow(parts, i + 1, v); }
  }

  lemma {:induction false} ThrowLeavesTree(cur: Json, parts: Path, i: nat, v: Json)
    requires cur.Obj? && i < |parts| && SetFrom(cur, parts, i, v).Threw?
    ensures SetFrom(cur, parts, i, v).tree == cur
    decreases |parts| - i
  {
    var next := Child(cur, parts[i]);
    if Missing(next) {
      NewObjectsNeverThrow(parts, i + 1, v);
    } else if next.Obj? {
      ThrowLeavesTree(next, parts, i + 1, v);
      AssignBack(cur, parts[i]);
    }
  }

  lemma {:induction false} ReadsBack(cur: Json, parts: Path, i: nat, v: Json)
    requires cur.Obj? && i < |parts| && SetFrom(cur, parts, i, v).Done?
    ensures Get(SetFrom(cur, parts, i, v).tree, parts[i..]) == v
    decreases |parts| - i
  {
    assert parts[i..][0] == parts[i] && parts[i..][1..] == parts[i + 1..];
    if i == |parts| - 1 {
      LookupOfPut(cur.fields, parts[i], v, parts[i]);
    } else {
      var next := Child(cur, parts[i]);
      var target := if Missing(next) then Obj([]) else next;
      ReadsBack(target, parts, i + 1, v);
      LookupOfPut(cur.fields, parts[i], SetFrom(target, parts, i + 1, v).tree, parts[i]);
    }
  }

  lemma IncomparableStep(p: Path, q: Path)
    requires Incomparable(p, q)
    ensures p != [] && q != [] && (p[0] == q[0] ==> Incomparable(p[1..], q[1..]))
  {
    if p != [] && q != [] {
      assert p == [p[0]] + p[1..] && q == [q[0]] + q[1..];
    }
  }

  lemma {:induction false} Frames(cur: Json, parts: Path, i: nat, v: Json, q: Path)
    requires cur.Obj? && i < |parts| && Incomparable(parts[i..], q)
    ensures Get(SetFrom(cur, parts, i, v).tree, q) == Get(cur, q)
    decreases |parts| - i
  {
    IncomparableStep(parts[i..], q);
    assert parts[i..][0] == parts[i] && parts[i..][1..] == parts[i + 1..];
    if i == |parts| - 1 {
      LookupOfPut(cur.fields, parts[i], v, q[0]);
    } else {
      var next := Child(cur, parts[i]);
      if Missing(next) || next.Obj? {
        var target := if next.Obj? then next else Obj([]);
        LookupOfPut(cur.fields, parts[i], SetFrom(target, parts, i + 1, v).tree, q[0]);
        if q[0] == parts[i] {
          IncomparableStep(parts[i + 1..], q[1..]);
          Frames(target, parts, i + 1, v, q[1..]);
          if !next.Obj? {
            NothingInside(target, q[1..]);
            NothingInside(next, q[1..]);
          }
        }
      }
    }
  }

  function Set(root: Json, path: string, v: Json): Outcome
    requires root.Obj?
  {
    SetFrom(root, Split(path, '.'), 0, v)
  }

  /**
   The setter is all or nothing: it throws exactly when a step before the last finds an obstacle, and
   then the tree is as before; otherwise the path reads the value.  Paths elsewhere never change.
   */
  lemma SetIsAtomic(root: Json, path: string, v: Json, other: string)
    requires root.Obj?
    ensures Set(root, path, v).Threw? <==> Obstructed(root, Split(path, '.'), 0)
    ensures Set(root, path, v).Threw? ==> Set(root, path, v).tree == root
    ensures Set(root, path, v).Done? ==> Get(Set(root, path, v).tree, Split(path, '.')) == v
    ensures Incomparable(Split(path, '.'), Split(other, '.')) ==>
              Get(Set(root, path, v).tree, Split(other, '.')) == Get(root, Split(other, '.'))
  {
    var parts := Split(path, '.');
    assert parts[0..] == parts;
    ThrowsIffObstructed(root, parts, 0, v);
    if Set(root, path, v).Threw? { ThrowLeavesTree(root, parts, 0, v); } else { ReadsBack(root, parts, 0, v); }
    if Incomparable(parts, Split(other, '.')) { Frames(root, parts, 0, v, Split(other, '.')); }
  }

  // ---- on mutable objects -----------------------------------------------------------------------

  /** Goes to the object in the slot of a key, after putting a new one there if it is missing or null. */
  method Enter(cur: ConfigHeap.Node, key: string) returns (k: nat, child: ConfigHeap.Val)
    requires cur.Valid() && !cur.isArray
    modifies cur
    ensures cur.Valid() && old(cur.repr) <= cur.repr && fresh(cur.repr - old(cur.repr))
    ensures k < |cur.vals| && k == ConfigHeap.Locate(cur.isArray, cur.keys, |cur.vals|, key) && cur.vals[k] == child
    ensures ConfigHeap.ValidVal(child) && ConfigHeap.ReprOf(child) <= cur.repr - {cur}
    ensures var next := Child(old(cur.Tree()), key);
            if Missing(next) then child.Ref? && ConfigHeap.TreeOf(child) == Obj([])
                                  && cur.Tree() == Assign(old(cur.Tree()), key, Obj([]))
            else ConfigHeap.TreeOf(child) == next && cur.Tree() == old(cur.Tree())
  {
    k := ConfigHeap.Locate(cur.isArray, cur.keys, |cur.vals|, key);
    ConfigHeap.SlotOfTree(cur.isArray, cur.keys, cur.Trees(), key, Undefined);
    if k == |cur.vals| || (cur.vals[k].Leaf? && Missing(cur.vals[k].j)) {
      var made := new ConfigHeap.Node(false);
      child := ConfigHeap.Ref(made);
      k := ConfigHeap.Store(cur, key, child);
    } else {
      child := cur.vals[k];
    }
  }

  method SetAt(cur: ConfigHeap.Node, parts: Path, i: nat, v: ConfigHeap.Val) returns (threw: bool)
    requires cur.Valid() && !cur.isArray && i < |parts|
    requires ConfigHeap.ValidVal(v) && ConfigHeap.ReprOf(v) !! cur.repr
    modifies cur.repr
    ensures cur.Valid() && old(cur.repr) <= cur.repr && fresh(cur.repr - old(cur.repr) - old(ConfigHeap.ReprOf(v)))
    ensures (if threw then Threw(cur.Tree()) else Done(cur.Tree()))
         == SetFrom(old(cur.Tree()), parts, i, old(ConfigHeap.TreeOf(v)))
    decreases |parts| - i, 1
  {
    if i == |parts| - 1 {
      var _ := ConfigHeap.Store(cur, parts[i], v);
      return false;
    }
    threw := SetBelow(cur, parts, i, v);
  }

  lemma SetFromStep(tree: Json, parts: Path, i: nat, v: Json)
    requires tree.Obj? && i < |parts| - 1
    ensures var next := Child(tree, parts[i]);
            && (Obstacle(next) ==> SetFrom(tree, parts, i, v) == Threw(tree))
            && (!Obstacle(next) ==>
                  var o := SetFrom(if Missing(next) then Obj([]) else next, parts, i + 1, v);
                  SetFrom(tree, parts, i, v)
                  == if o.Done? then Done(Assign(tree, parts[i], o.tree)) else Threw(Assign(tree, parts[i], o.tree)))
  {
  }

  lemma NodeIsObject(n: ConfigHeap.Node)
    requires n.Valid()
    ensures n.Tree().Obj? <==> !n.isArray
    ensures n.Tree().Arr? <==> n.isArray
  {
  }

  method SetBelow(cur: ConfigHeap.Node, parts: Path, i: nat, v: ConfigHeap.Val) returns (threw: bool)
    requires cur.Valid() && !cur.isArray && i < |parts| - 1
    requires ConfigHeap.ValidVal(v) && ConfigHeap.ReprOf(v) !! cur.repr
    modifies cur.repr
    ensures cur.Valid() && old(cur.repr) <= cur.repr && fresh(cur.repr - old(cur.repr) - old(ConfigHeap.ReprOf(v)))
    ensures (if threw then Threw(cur.Tree()) else Done(cur.Tree()))
         == SetFrom(old(cur.Tree()), parts, i, old(ConfigHeap.TreeOf(v)))
    decreases |parts| - i, 0
  {
    ghost var tree, t := cur.Tree(), ConfigHeap.TreeOf(v);
    NodeIsObject(cur);
    var k, child := Enter(cur, parts[i]);
    SetFromStep(tree, parts, i, t);
    if child.Leaf? { return true; }
    NodeIsObject(child.node);
    if child.node.isArray { return true; }
    ghost var trees, made := cur.Trees(), child.node.Tree();
    hide *;
    ConfigHeap.TreeIsBuilt(cur);
    threw := SetInSlot(cur, k, child.node, parts, i + 1, v);
    ConfigHeap.TreeIsBuilt(cur);
    ConfigHeap.SlotReplaced(cur.isArray, cur.keys, trees, parts[i], tree, made, cur.Trees()[k]);
  }

  method SetInSlot(cur: ConfigHeap.Node, k: nat, child: ConfigHeap.Node, parts: Path, i: nat, v: ConfigHeap.Val)
    returns (threw: bool)
    requires cur.Valid() && k < |cur.vals| && cur.vals[k] == ConfigHeap.Ref(child)
    requires ConfigHeap.ValidVal(v) && ConfigHeap.ReprOf(v) !! cur.repr && i < |parts|
    requires child.Valid() && child.repr <= cur.repr - {cur} && !child.isArray && child.Tree().Obj?
    modifies cur.repr
    ensures cur.Valid() && old(cur.repr) <= cur.repr && fresh(cur.repr - old(cur.repr) - old(ConfigHeap.ReprOf(v)))
    ensures cur.keys == old(cur.keys) && |cur.vals| == |old(cur.vals)| == |cur.Trees()| == |old(cur.Trees())|
    ensures var o := SetFrom(old(child.Tree()), parts, i, old(ConfigHeap.TreeOf(v)));
            threw == o.Threw? && cur.Trees() == old(cur.Trees())[k := o.tree]
    decreases |parts| - i, 2
  {
    hide SetFrom;
    hide ConfigHeap.Build;
    threw := SetAt(child, parts, i, v);
    cur.repr := cur.repr + child.repr;
    assert cur.Valid();
  }

  /** `setByPath` of the channel command: when it throws, the object is what it was. */
  method SetByPath(root: ConfigHeap.Node, path: string, v: ConfigHeap.Val) returns (threw: bool)
    requires root.Valid() && !root.isArray
    requires ConfigHeap.ValidVal(v) && ConfigHeap.ReprOf(v) !! root.repr
    modifies root.repr
    ensures root.Valid() && old(root.Tree()).Obj?
    ensures (if threw then Threw(root.Tree()) else Done(root.Tree()))
         == Set(old(root.Tree()), path, old(ConfigHeap.TreeOf(v)))
    ensures threw ==> root.Tree() == old(root.Tree())
  {
    ghost var tree, t := root.Tree(), ConfigHeap.TreeOf(v);
    NodeIsObject(root);
    threw := SetAt(root, Split(path, '.'), 0, v);
    SetIsAtomic(tree, path, t, path);
  }
}
