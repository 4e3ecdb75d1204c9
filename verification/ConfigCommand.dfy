/** Reading and writing a config by dotted path: what each operation makes of a tree. */
module ConfigCommand {
  import opened Text
  import opened ConfigTree

  // ---- paths ------------------------------------------------------------------------------------

  /** `[12]` at the start of `s`: the length of the bracket form, or 0. */
  function BracketLength(s: string): (n: nat)
    ensures n <= |s|
  {
    if s != "" && s[0] == '[' then
      var d := DigitRun(s[1..]);
      if d > 0 && 1 + d < |s| && s[1 + d] == ']' then d + 2 else 0
    else 0
  }

  function DigitRun(s: string): (n: nat)
    ensures n <= |s|
  {
    if s != "" && IsDigit(s[0]) then 1 + DigitRun(s[1..]) else 0
  }

  /** The first replacement: every `[digits]` becomes `.digits`. */
  function UnBracket(s: string): string
    decreases |s|
  {
    if s == "" then ""
    else
      var n := BracketLength(s);
      if n > 0 then "." + s[1..n - 1] + UnBracket(s[n..]) else [s[0]] + UnBracket(s[1..])
  }

  function NonEmpty(parts: seq<string>): seq<string> {
    if parts == [] then []
    else (if parts[0] == "" then [] else [parts[0]]) + NonEmpty(parts[1..])
  }

  function SplitPath(path: string): Path { NonEmpty(Split(UnBracket(path), '.')) }

  // ---- one container ----------------------------------------------------------------------------

  predicate IsContainer(j: Json) { j.Arr? || j.Obj? }

  function Put(fields: seq<Field>, key: string, v: Json): seq<Field> {
    if fields == [] then [Field(key, v)]
    else if fields[0].key == key then [Field(key, v)] + fields[1..]
    else [fields[0]] + Put(fields[1..], key, v)
  }

  function Remove(fields: seq<Field>, key: string): seq<Field> {
    if fields == [] then []
    else if fields[0].key == key then fields[1..]
    else [fields[0]] + Remove(fields[1..], key)
  }

  /** Assignment to an index; one past the end leaves holes. */
  function PutAt(items: seq<Json>, i: nat, v: Json): seq<Json> {
    if i < |items| then items[i := v]
    else items + seq(i - |items|, _ => Undefined) + [v]
  }

  /** The segment can be assigned in the container. */
  predicate Takes(c: Json, seg: string) { c.Obj? || (c.Arr? && IsNumeral(seg)) }

  function Assign(c: Json, seg: string, v: Json): Json
    requires Takes(c, seg)
  {
    match c
    case Arr(items) => Arr(PutAt(items, Value(seg), v))
    case Obj(fields) => Obj(Put(fields, seg, v))
  }

  /** Two segments that name one slot: the same key, or in an array numerals for the same index. */
  predicate SameSlot(c: Json, a: string, b: string) {
    a == b || (c.Arr? && IsNumeral(a) && IsNumeral(b) && Value(a) == Value(b))
  }

  lemma {:induction false} LookupOfPut(fields: seq<Field>, key: string, v: Json, other: string)
    ensures Lookup(Put(fields, key, v), other) == if other == key then v else Lookup(fields, other)
  {
    if fields != [] && fields[0].key != key { LookupOfPut(fields[1..], key, v, other); }
  }

  lemma {:induction false} PutTwice(fields: seq<Field>, key: string, v: Json, w: Json)
    ensures Put(Put(fields, key, v), key, w) == Put(fields, key, w)
  {
    if fields != [] && fields[0].key != key {
      PutTwice(fields[1..], key, v, w);
    }
  }

  lemma {:induction false} PutBack(fields: seq<Field>, key: string)
    requires Lookup(fields, key) != Undefined
    ensures Put(fields, key, Lookup(fields, key)) == fields
  {
    if fields[0].key != key { PutBack(fields[1..], key); }
  }

  function Keys(fields: seq<Field>): seq<string> {
    seq(|fields|, i requires 0 <= i < |fields| => fields[i].key)
  }

  /** Assigning to a key that is there keeps the order of the keys; a new key comes last. */
  lemma {:induction false} KeysOfPut(fields: seq<Field>, key: string, v: Json)
    ensures Keys(Put(fields, key, v)) == if HasKey(fields, key) then Keys(fields) else Keys(fields) + [key]
  {
    HasKeyNext(fields, key);
    if fields == [] {
      assert Keys(Put(fields, key, v)) == [key];
    } else {
      var rest := fields[1..];
      assert Keys(fields) == [fields[0].key] + Keys(rest);
      if fields[0].key != key {
        KeysOfPut(rest, key, v);
        hide HasKey;
        assert Keys([fields[0]] + Put(rest, key, v)) == [fields[0].key] + Keys(Put(rest, key, v));
      }
    }
  }

  /** An array grows to just hold the index, with holes in between. */
  lemma ItemsOfPutAt(items: seq<Json>, i: nat, v: Json)
    ensures |PutAt(items, i, v)| == if i < |items| then |items| else i + 1
    ensures forall k :: 0 <= k < |PutAt(items, i, v)| ==>
              PutAt(items, i, v)[k] == if k == i then v else if k < |items| then items[k] else Undefined
  {
  }

  /** Reading a segment after assigning one. */
  lemma ChildOfAssign(c: Json, seg: string, v: Json, other: string)
    requires Takes(c, seg)
    ensures Child(Assign(c, seg, v), seg) == v
    ensures Child(Assign(c, seg, v), other) == if SameSlot(c, seg, other) then v else Child(c, other)
  {
    if c.Obj? {
      LookupOfPut(c.fields, seg, v, seg);
      LookupOfPut(c.fields, seg, v, other);
    }
  }

  lemma SameSlotReadsTheSame(c: Json, a: string, b: string)
    requires SameSlot(c, a, b)
    ensures Child(c, a) == Child(c, b)
  {
  }

  lemma AssignTwice(c: Json, seg: string, v: Json, w: Json)
    requires Takes(c, seg)
    ensures Takes(Assign(c, seg, v), seg) && Assign(Assign(c, seg, v), seg, w) == Assign(c, seg, w)
  {
    if c.Obj? {
      PutTwice(c.fields, seg, v, w);
    } else {
      assert PutAt(PutAt(c.items, Value(seg), v), Value(seg), w) == PutAt(c.items, Value(seg), w);
    }
  }

  lemma AssignBack(c: Json, seg: string)
    requires Takes(c, seg) && Child(c, seg) != Undefined
    ensures Assign(c, seg, Child(c, seg)) == c
  {
    if c.Obj? { PutBack(c.fields, seg); }
  }

  // ---- set --------------------------------------------------------------------------------------

  /** What a call leaves behind: it returns normally or throws, and the tree as it is then. */
  datatype Outcome = Done(tree: Json) | Threw(tree: Json)

  function Within(c: Json, seg: string, o: Outcome): Outcome
    requires Takes(c, seg)
  {
    if o.Done? then Done(Assign(c, seg, o.tree)) else Threw(Assign(c, seg, o.tree))
  }

  /** The position of the first segment equal to `part`. */
  function IndexOfPart(parts: Path, part: string): (i: nat)
    requires part in parts
    ensures i < |parts|
  {
    if parts[0] == part then 0 else 1 + IndexOfPart(parts[1..], part)
  }

  function NextContainer(parts: Path, i: nat): Json {
    if i + 1 < |parts| && IsNumeral(parts[i + 1]) then Arr([]) else Obj([])
  }

  /** The container the walk goes on in: the one that is there, or a new one in place of anything else. */
  function Entered(c: Json, parts: Path, part: string): Json
    requires part in parts
  {
    if IsContainer(Child(c, part)) then Child(c, part) else NextContainer(parts, IndexOfPart(parts, part))
  }

  function SetFrom(cur: Json, parts: Path, i: nat, last: string, v: Json): Outcome
    requires IsContainer(cur) && i <= |parts|
    decreases |parts| - i
  {
    if i == |parts| then
      if Takes(cur, last) then Done(Assign(cur, last, v)) else Threw(cur)
    else if !Takes(cur, parts[i]) then Threw(cur)
    else Within(cur, parts[i], SetFrom(Entered(cur, parts, parts[i]), parts, i + 1, last, v))
  }

  /** `setByPath` on a list of segments; the empty path throws. */
  function Set(root: Json, path: Path, v: Json): Outcome
    requires IsContainer(root)
  {
    if path == [] then Threw(root) else SetFrom(root, path[..|path| - 1], 0, path[|path| - 1], v)
  }

  function SetByPath(root: Json, path: string, v: Json): Outcome
    requires IsContainer(root)
  {
    Set(root, SplitPath(path), v)
  }

  // ---- the laws of set --------------------------------------------------------------------------

  /**
   The walk of a set and the path `q` part at some slot.  What counts is the container that the walk
   goes through, the one that is there or the one that it makes: `1` and `01` are one element of an
   array and two keys of an object.
   */
  ghost predicate LeadsElsewhere(cur: Json, parts: Path, i: nat, last: string, q: Path)
    requires i <= |parts|
    decreases |parts| - i
  {
    && q != []
    && (!SameSlot(cur, if i < |parts| then parts[i] else last, q[0])
        || (i < |parts| && LeadsElsewhere(Entered(cur, parts, parts[i]), parts, i + 1, last, q[1..])))
  }

  function Rest(parts: Path, i: nat, last: string): Path
    requires i <= |parts|
  {
    parts[i..] + [last]
  }

  lemma RestStep(parts: Path, i: nat, last: string)
    requires i < |parts|
    ensures Rest(parts, i, last)[0] == parts[i] && Rest(parts, i, last)[1..] == Rest(parts, i + 1, last)
  {
  }

  lemma {:induction false} SetFromReadsBack(cur: Json, parts: Path, i: nat, last: string, v: Json)
    requires IsContainer(cur) && i <= |parts| && SetFrom(cur, parts, i, last, v).Done?
    ensures Get(SetFrom(cur, parts, i, last, v).tree, Rest(parts, i, last)) == v
    decreases |parts| - i
  {
    if i == |parts| {
      ChildOfAssign(cur, last, v, last);
      assert Rest(parts, i, last) == [last];
    } else {
      var inner := SetFrom(Entered(cur, parts, parts[i]), parts, i + 1, last, v);
      RestStep(parts, i, last);
      SetFromReadsBack(Entered(cur, parts, parts[i]), parts, i + 1, last, v);
      ChildOfAssign(cur, parts[i], inner.tree, parts[i]);
    }
  }

  lemma NothingInside(c: Json, path: Path)
    requires path != [] && (c == Arr([]) || c == Obj([]) || !IsContainer(c))
    ensures Get(c, path) == Undefined
  {
    GetUndefined(path[1..]);
  }

  lemma {:induction false} SetFromFrames(cur: Json, parts: Path, i: nat, last: string, v: Json, q: Path)
    requires IsContainer(cur) && i <= |parts| && LeadsElsewhere(cur, parts, i, last, q)
    ensures Get(SetFrom(cur, parts, i, last, v).tree, q) == Get(cur, q)
    decreases |parts| - i
  {
    if i == |parts| {
      if Takes(cur, last) { ChildOfAssign(cur, last, v, q[0]); }
    } else if Takes(cur, parts[i]) {
      var target := Entered(cur, parts, parts[i]);
      var inner := SetFrom(target, parts, i + 1, last, v);
      hide SetFrom, Assign;
      SetFromUnfolds(cur, parts, i, last, v);
      ChildOfAssign(cur, parts[i], inner.tree, q[0]);
      if SameSlot(cur, parts[i], q[0]) {
        SameSlotReadsTheSame(cur, parts[i], q[0]);
        SetFromFrames(target, parts, i + 1, last, v, q[1..]);
        if !IsContainer(Child(cur, parts[i])) {
          NothingInside(target, q[1..]);
          NothingInside(Child(cur, parts[i]), q[1..]);
        }
      }
    }
  }

  lemma SetFromUnfolds(cur: Json, parts: Path, i: nat, last: string, v: Json)
    requires IsContainer(cur) && i < |parts|
    ensures IsContainer(Entered(cur, parts, parts[i]))
    ensures SetFrom(cur, parts, i, last, v)
         == if !Takes(cur, parts[i]) then Threw(cur)
            else Within(cur, parts[i], SetFrom(Entered(cur, parts, parts[i]), parts, i + 1, last, v))
  {
    hide Assign, Child, Takes;
  }

  lemma {:induction false} SetFromOverwrites(cur: Json, parts: Path, i: nat, last: string, v: Json, w: Json)
    requires IsContainer(cur) && i <= |parts| && SetFrom(cur, parts, i, last, v).Done?
    ensures IsContainer(SetFrom(cur, parts, i, last, v).tree)
    ensures SetFrom(SetFrom(cur, parts, i, last, v).tree, parts, i, last, w) == SetFrom(cur, parts, i, last, w)
    ensures SetFrom(cur, parts, i, last, w).Done?
    decreases |parts| - i
  {
    if i == |parts| {
      AssignTwice(cur, last, v, w);
    } else {
      hide Assign, Child, Takes, SetFrom;
      var part := parts[i];
      var target := Entered(cur, parts, part);
      SetFromUnfolds(cur, parts, i, last, v);
      SetFromUnfolds(cur, parts, i, last, w);
      var first, second := SetFrom(target, parts, i + 1, last, v), SetFrom(target, parts, i + 1, last, w);
      SetFromOverwrites(target, parts, i + 1, last, v, w);
      var mid := Assign(cur, part, first.tree);
      ChildOfAssign(cur, part, first.tree, part);
      AssignTwice(cur, part, first.tree, second.tree);
      SetFromUnfolds(mid, parts, i, last, w);
      assert Entered(mid, parts, part) == first.tree;
    }
  }

  lemma {:induction false} SetFromPutsBack(cur: Json, parts: Path, i: nat, last: string)
    requires IsContainer(cur) && i <= |parts| && Get(cur, Rest(parts, i, last)) != Undefined
    ensures SetFrom(cur, parts, i, last, Get(cur, Rest(parts, i, last))) == Done(cur)
    decreases |parts| - i
  {
    if i == |parts| {
      assert Rest(parts, i, last) == [last];
      AssignBack(cur, last);
    } else {
      RestStep(parts, i, last);
      var next := Child(cur, parts[i]);
      if !IsContainer(next) { NothingInside(next, Rest(parts, i + 1, last)); }
      SetFromPutsBack(next, parts, i + 1, last);
      AssignBack(cur, parts[i]);
    }
  }

  lemma WholePath(path: Path)
    requires path != []
    ensures Rest(path[..|path| - 1], 0, path[|path| - 1]) == path
  {
  }

  /** Whenever set returns normally, the path reads the value. */
  lemma SetThenGet(root: Json, path: string, v: Json)
    requires IsContainer(root) && SetByPath(root, path, v).Done?
    ensures Get(SetByPath(root, path, v).tree, SplitPath(path)) == v
  {
    var p := SplitPath(path);
    WholePath(p);
    SetFromReadsBack(root, p[..|p| - 1], 0, p[|p| - 1], v);
  }

  /** Every path that leads elsewhere reads as before, even when set throws half-way. */
  lemma SetLeavesTheRest(root: Json, path: string, v: Json, other: string)
    requires IsContainer(root)
    requires var p := SplitPath(path); p == [] || LeadsElsewhere(root, p[..|p| - 1], 0, p[|p| - 1], SplitPath(other))
    ensures Get(SetByPath(root, path, v).tree, SplitPath(other)) == Get(root, SplitPath(other))
  {
    var p := SplitPath(path);
    if p != [] {
      SetFromFrames(root, p[..|p| - 1], 0, p[|p| - 1], v, SplitPath(other));
    }
  }

  /** A second set at the same path overwrites the first and nothing else is left of it. */
  lemma SetThenSet(root: Json, path: string, v: Json, w: Json)
    requires IsContainer(root) && SetByPath(root, path, v).Done?
    ensures IsContainer(SetByPath(root, path, v).tree)
    ensures SetByPath(SetByPath(root, path, v).tree, path, w) == SetByPath(root, path, w)
    ensures SetByPath(root, path, w).Done?
  {
    var p := SplitPath(path);
    SetFromOverwrites(root, p[..|p| - 1], 0, p[|p| - 1], v, w);
  }

  /** Setting what is already there changes nothing. */
  lemma GetThenSet(root: Json, path: string)
    requires IsContainer(root) && SplitPath(path) != [] && Get(root, SplitPath(path)) != Undefined
    ensures SetByPath(root, path, Get(root, SplitPath(path))) == Done(root)
  {
    var p := SplitPath(path);
    WholePath(p);
    SetFromPutsBack(root, p[..|p| - 1], 0, p[|p| - 1]);
  }

  // ---- exactly when set throws ------------------------------------------------------------------

  function Segment(parts: Path, last: string, j: nat): string
    requires j <= |parts|
  {
    if j < |parts| then parts[j] else last
  }

  /** The container that takes segment `j`: the existing one, or the one the walk creates there. */
  function ContainerAt(cur: Json, parts: Path, i: nat, j: nat): Json
    requires i <= j <= |parts|
  {
    if j == i || IsContainer(Get(cur, parts[i..j])) then Get(cur, parts[i..j])
    else NextContainer(parts, IndexOfPart(parts, parts[j - 1]))
  }

  /** Some array on the way is addressed by a segment that is no index. */
  ghost predicate Blocked(cur: Json, parts: Path, i: nat, last: string)
    requires i <= |parts|
  {
    exists j :: i <= j <= |parts| && !Takes(ContainerAt(cur, parts, i, j), Segment(parts, last, j))
  }

  lemma EnteredIsNextContainerAt(cur: Json, parts: Path, i: nat, j: nat)
    requires i < j <= |parts|
    ensures ContainerAt(Entered(cur, parts, parts[i]), parts, i + 1, j) == ContainerAt(cur, parts, i, j)
  {
    var target := Entered(cur, parts, parts[i]);
    assert parts[i..j][0] == parts[i] && parts[i..j][1..] == parts[i + 1..j];
    assert Get(cur, parts[i..j]) == Get(Child(cur, parts[i]), parts[i + 1..j]);
    if j == i + 1 {
      assert parts[i + 1..j] == [];
    } else if !IsContainer(Child(cur, parts[i])) {
      NothingInside(target, parts[i + 1..j]);
      NothingInside(Child(cur, parts[i]), parts[i + 1..j]);
    }
  }

  lemma {:induction false} SetFromThrowsIffBlocked(cur: Json, parts: Path, i: nat, last: string, v: Json)
    requires IsContainer(cur) && i <= |parts|
    ensures SetFrom(cur, parts, i, last, v).Threw? <==> Blocked(cur, parts, i, last)
    decreases |parts| - i
  {
    assert parts[i..i] == [] && ContainerAt(cur, parts, i, i) == cur;
    if i < |parts| && Takes(cur, parts[i]) {
      var target := Entered(cur, parts, parts[i]);
      SetFromThrowsIffBlocked(target, parts, i + 1, last, v);
      forall j | i < j <= |parts|
        ensures ContainerAt(target, parts, i + 1, j) == ContainerAt(cur, parts, i, j)
      {
        EnteredIsNextContainerAt(cur, parts, i, j);
      }
      if Blocked(cur, parts, i, last) {
        var j :| i <= j <= |parts| && !Takes(ContainerAt(cur, parts, i, j), Segment(parts, last, j));
        assert !Takes(ContainerAt(target, parts, i + 1, j), Segment(parts, last, j));
      }
      if Blocked(target, parts, i + 1, last) {
        var j :| i + 1 <= j <= |parts| && !Takes(ContainerAt(target, parts, i + 1, j), Segment(parts, last, j));
        assert !Takes(ContainerAt(cur, parts, i, j), Segment(parts, last, j));
      }
    }
  }

  /** Set throws on the empty path and on a blocked one, and on no other. */
  lemma SetThrowsIff(root: Json, path: Path, v: Json)
    requires IsContainer(root)
    ensures Set(root, path, v).Threw?
       <==> path == [] || Blocked(root, path[..|path| - 1], 0, path[|path| - 1])
  {
    if path != [] {
      SetFromThrowsIffBlocked(root, path[..|path| - 1], 0, path[|path| - 1], v);
    }
  }

  lemma {:induction false} IndexOfDistinct(parts: Path, k: nat)
    requires Distinct(parts) && k < |parts|
    ensures IndexOfPart(parts, parts[k]) == k
  {
    if k > 0 {
      assert parts[1..][k - 1] == parts[k];
      IndexOfDistinct(parts[1..], k - 1);
    }
  }

  /** An array that is there already is addressed by a segment that is no index. */
  ghost predicate BlockedByExisting(root: Json, path: Path) {
    exists j :: 0 <= j < |path| && Get(root, path[..j]).Arr? && !IsNumeral(path[j])
  }

  lemma OnlyExistingBlocks(root: Json, parts: Path, last: string, j: nat)
    requires IsContainer(root) && Distinct(parts) && j <= |parts|
    ensures Takes(ContainerAt(root, parts, 0, j), Segment(parts, last, j))
       <==> !(Get(root, parts[..j]).Arr? && !IsNumeral(Segment(parts, last, j)))
  {
    assert parts[0..j] == parts[..j];
    if j > 0 { IndexOfDistinct(parts, j - 1); }
  }

  lemma {:induction false} SegmentsOfPath(path: Path, j: nat)
    requires j < |path|
    ensures Segment(path[..|path| - 1], path[|path| - 1], j) == path[j] && path[..|path| - 1][..j] == path[..j]
  {
  }

  /** When no intermediate segment repeats, the containers set creates never make it throw. */
  lemma SetThrowsOnlyOnExistingArrays(root: Json, path: Path, v: Json)
    requires IsContainer(root) && path != [] && Distinct(path[..|path| - 1])
    ensures Set(root, path, v).Threw? <==> BlockedByExisting(root, path)
  {
    var parts, last := path[..|path| - 1], path[|path| - 1];
    SetThrowsIff(root, path, v);
    forall j | 0 <= j < |path|
      ensures Takes(ContainerAt(root, parts, 0, j), Segment(parts, last, j))
         <==> !(Get(root, path[..j]).Arr? && !IsNumeral(path[j]))
    {
      OnlyExistingBlocks(root, parts, last, j);
      SegmentsOfPath(path, j);
    }
    hide ContainerAt;
    hide Takes;
    hide Get;
    hide SetFrom;
  }

  lemma {:induction false} KindAfterSet(cur: Json, parts: Path, i: nat, last: string, v: Json, j: nat)
    requires IsContainer(cur) && i <= j <= |parts| && SetFrom(cur, parts, i, last, v).Done?
    ensures IsContainer(ContainerAt(cur, parts, i, j))
    ensures IsContainer(Get(SetFrom(cur, parts, i, last, v).tree, parts[i..j]))
    ensures Get(SetFrom(cur, parts, i, last, v).tree, parts[i..j]).Arr? <==> ContainerAt(cur, parts, i, j).Arr?
    decreases |parts| - i
  {
    if i == j {
      assert parts[i..j] == [];
    } else {
      var target := Entered(cur, parts, parts[i]);
      SetFromUnfolds(cur, parts, i, last, v);
      hide SetFrom, Assign, Takes;
      var inner := SetFrom(target, parts, i + 1, last, v).tree;
      KindAfterSet(target, parts, i + 1, last, v, j);
      EnteredIsNextContainerAt(cur, parts, i, j);
      ChildOfAssign(cur, parts[i], inner, parts[i]);
      hide ContainerAt, Child;
      assert parts[i..j][0] == parts[i] && parts[i..j][1..] == parts[i + 1..j];
    }
  }

  /**
   What kind of container stands on the way after a set: the one that was there, and in place of anything
   else an array exactly when the segment behind it is a numeral and not the last one.
   */
  lemma KindOnTheWay(root: Json, path: Path, v: Json, j: nat)
    requires IsContainer(root) && j < |path| && Distinct(path[..|path| - 1]) && Set(root, path, v).Done?
    ensures var was, now := Get(root, path[..j]), Get(Set(root, path, v).tree, path[..j]);
            && (now.Arr? || now.Obj?)
            && (now.Arr? <==> if was.Arr? || was.Obj? then was.Arr? else j < |path| - 1 && IsNumeral(path[j]))
  {
    var parts, last := path[..|path| - 1], path[|path| - 1];
    KindAfterSet(root, parts, 0, last, v, j);
    SegmentsOfPath(path, j);
    assert parts[0..j] == path[..j];
    if j > 0 { IndexOfDistinct(parts, j - 1); }
    hide SetFrom, Get, IsNumeral;
  }

  /** A repeated segment takes the container kind of its first occurrence, which can make set throw. */
  lemma RepeatedSegmentThrows(v: Json)
    ensures Set(Obj([]), ["x", "0", "x", "y", "z"], v).Threw?
    ensures Set(Obj([]), ["x", "0", "w", "y", "z"], v).Done?
  {
    var path := ["x", "0", "x", "y", "z"];
    var parts := path[..4];
    assert parts == ["x", "0", "x", "y"];
    SetThrowsIff(Obj([]), path, v);
    NothingInside(Obj([]), parts[0..3]);
    assert parts[1] == "0" && IsNumeral("0") && "y"[0] == 'y';
    assert ContainerAt(Obj([]), parts, 0, 3) == NextContainer(parts, IndexOfPart(parts, "x")) == Arr([]);
    assert !Takes(ContainerAt(Obj([]), parts, 0, 3), Segment(parts, "z", 3));

    var plain := ["x", "0", "w", "y", "z"];
    assert plain[..4] == ["x", "0", "w", "y"];
    SetThrowsOnlyOnExistingArrays(Obj([]), plain, v);
    forall j | 0 <= j < |plain| ensures !Get(Obj([]), plain[..j]).Arr? {
      if j > 0 { NothingInside(Obj([]), plain[..j]); }
    }
  }

  /** The kind of a new container goes by the segment after it, but the last segment is never looked at. */
  lemma TrailingIndexMakesAnObject(v: Json)
    ensures Set(Obj([]), ["foo", "0", "bar"], v) == Done(Obj([Field("foo", Arr([Obj([Field("bar", v)])]))]))
    ensures Set(Obj([]), ["foo", "0"], v) == Done(Obj([Field("foo", Obj([Field("0", v)]))]))
  {
    assert ["foo", "0", "bar"][..2] == ["foo", "0"] && ["foo", "0"][..1] == ["foo"];
    assert IsNumeral("0") && "0"[..0] == "" && Value("0") == 0;
    var parts := ["foo", "0"];
    assert "foo" != "0" by { assert |"foo"| == 3; }
    assert parts[0] == "foo" && parts[1] == "0" && parts[1..] == ["0"];
    assert IndexOfPart(["0"], "0") == 0;
    assert IndexOfPart(parts, "0") == 1;
    assert SetFrom(Obj([]), parts, 2, "bar", v) == Done(Obj([Field("bar", v)]));
    var made := Obj([Field("bar", v)]);
    assert Entered(Arr([]), parts, "0") == Obj([]);
    assert PutAt([], 0, made) == [made];
    assert SetFrom(Arr([]), parts, 1, "bar", v) == Done(Arr([made]));
    assert SetFrom(Obj([]), ["foo"], 1, "0", v) == Done(Obj([Field("0", v)]));
  }

  // ---- unset ------------------------------------------------------------------------------------

  /** A property read by its name; an array index has one name only. */
  function Property(j: Json, seg: string): Json {
    if j.Arr? && IsNumeral(seg) && seg != Decimal(Value(seg)) then Undefined else Child(j, seg)
  }

  predicate HasSlot(c: Json, seg: string) {
    match c
    case Arr(items) => IsNumeral(seg) && Value(seg) < |items|
    case Obj(fields) => HasKey(fields, seg)
    case _ => false
  }

  /** `splice(i, 1)` or `delete`. */
  function Drop(c: Json, seg: string): Json
    requires HasSlot(c, seg)
  {
    match c
    case Arr(items) => Arr(items[..Value(seg)] + items[Value(seg) + 1..])
    case Obj(fields) => Obj(Remove(fields, seg))
  }

  /** `None` stands for the result `false`, which leaves the tree alone. */
  datatype Removal = Nothing | Removed(tree: Json)

  function UnsetFrom(cur: Json, parts: Path, last: string): Removal
    decreases |parts|
  {
    if !IsContainer(cur) then Nothing
    else if parts == [] then
      if HasSlot(cur, last) then Removed(Drop(cur, last)) else Nothing
    else
      var r := UnsetFrom(Property(cur, parts[0]), parts[1..], last);
      if r.Nothing? || !Takes(cur, parts[0]) then Nothing else Removed(Assign(cur, parts[0], r.tree))
  }

  function Unset(root: Json, path: Path): Removal {
    if path == [] then Nothing else UnsetFrom(root, path[..|path| - 1], path[|path| - 1])
  }

  function Walk(j: Json, parts: Path): Json
    decreases |parts|
  {
    if parts == [] then j else Walk(Property(j, parts[0]), parts[1..])
  }

  lemma {:induction false} WalkOutside(j: Json, parts: Path)
    requires parts != [] && !IsContainer(j)
    ensures Walk(j, parts) == Undefined
    decreases |parts|
  {
    if |parts| > 1 { WalkOutside(Undefined, parts[1..]); }
  }

  /** Unset reports success exactly when the slot is there. */
  lemma {:induction false} UnsetIffPresent(cur: Json, parts: Path, last: string)
    ensures UnsetFrom(cur, parts, last).Removed?
       <==> var parent := Walk(cur, parts);
            || (parent.Arr? && IsNumeral(last) && Value(last) < |parent.items|)
            || (parent.Obj? && HasKey(parent.fields, last))
    decreases |parts|
  {
    if parts != [] {
      if IsContainer(cur) {
        UnsetIffPresent(Property(cur, parts[0]), parts[1..], last);
        if !Takes(cur, parts[0]) && |parts| > 1 { WalkOutside(Undefined, parts[1..]); }
      } else {
        WalkOutside(cur, parts);
      }
    }
  }

  lemma TakesProperty(c: Json, seg: string)
    requires Property(c, seg) != Undefined
    ensures IsContainer(c) && Takes(c, seg) && Property(c, seg) == Child(c, seg)
  {
  }

  /** What a success leaves at the parent: the slot is gone, and everything else is as it was. */
  lemma {:induction false} UnsetDropsTheSlot(cur: Json, parts: Path, last: string)
    requires UnsetFrom(cur, parts, last).Removed?
    ensures HasSlot(Walk(cur, parts), last)
    ensures Walk(UnsetFrom(cur, parts, last).tree, parts) == Drop(Walk(cur, parts), last)
    decreases |parts|
  {
    if parts != [] {
      var inner := UnsetFrom(Property(cur, parts[0]), parts[1..], last);
      TakesProperty(cur, parts[0]);
      UnsetDropsTheSlot(Property(cur, parts[0]), parts[1..], last);
      ChildOfAssign(cur, parts[0], inner.tree, parts[0]);
    }
  }

  /** The two paths part at some slot of the tree. */
  ghost predicate Apart(cur: Json, p: Path, q: Path)
    decreases |p|
  {
    p != [] && q != [] && (!SameSlot(cur, p[0], q[0]) || Apart(Child(cur, p[0]), p[1..], q[1..]))
  }

  lemma {:induction false} UnsetFrames(cur: Json, parts: Path, last: string, q: Path)
    requires UnsetFrom(cur, parts, last).Removed? && Apart(cur, parts, q)
    ensures Get(UnsetFrom(cur, parts, last).tree, q) == Get(cur, q)
    decreases |parts|
  {
    var inner := UnsetFrom(Property(cur, parts[0]), parts[1..], last);
    TakesProperty(cur, parts[0]);
    ChildOfAssign(cur, parts[0], inner.tree, q[0]);
    if SameSlot(cur, parts[0], q[0]) {
      SameSlotReadsTheSame(cur, parts[0], q[0]);
      UnsetFrames(Property(cur, parts[0]), parts[1..], last, q[1..]);
    }
  }

  lemma {:induction false} LookupOfRemove(fields: seq<Field>, key: string, other: string)
    requires DistinctKeys(fields)
    ensures Lookup(Remove(fields, key), other) == if other == key then Undefined else Lookup(fields, other)
  {
    LookupFinds(fields, key);
    if fields != [] {
      if fields[0].key == key {
        LookupFinds(fields[1..], key);
        assert !HasKey(fields[1..], key) by {
          assert forall k :: 0 <= k < |fields[1..]| ==> fields[1..][k] == fields[k + 1];
        }
      } else {
        LookupOfRemove(fields[1..], key, other);
      }
    }
  }

  /** The other keys keep their order. */
  lemma {:induction false} KeysOfRemove(a: seq<Field>, f: Field, b: seq<Field>)
    requires !HasKey(a, f.key)
    ensures Remove(a + [f] + b, f.key) == a + b
  {
    HasKeyNext(a, f.key);
    var fields := a + [f] + b;
    if a == [] {
      assert fields[0] == f && fields[1..] == b && a + b == b;
    } else {
      assert fields[0] == a[0] && fields[1..] == a[1..] + [f] + b;
      KeysOfRemove(a[1..], f, b);
      assert [a[0]] + (a[1..] + b) == a + b;
    }
  }

  /** In an object the key reads as undefined afterwards and every other key as before. */
  lemma DropKey(c: Json, key: string, other: string)
    requires c.Obj? && DistinctKeys(c.fields) && HasSlot(c, key)
    ensures Child(Drop(c, key), other) == if other == key then Undefined else Child(c, other)
  {
    LookupOfRemove(c.fields, key, other);
  }

  /** In an array the elements after the removed one move down by one. */
  lemma DropIndex(c: Json, seg: string, j: nat)
    requires c.Arr? && HasSlot(c, seg)
    ensures |Drop(c, seg).items| == |c.items| - 1
    ensures Child(Drop(c, seg), Decimal(j)) == Child(c, Decimal(if j < Value(seg) then j else j + 1))
  {
    ValueOfDecimal(j);
    ValueOfDecimal(j + 1);
  }

  /** Where unset's walk arrives at something, get arrives at the same. */
  lemma {:induction false} WalkIsGet(j: Json, parts: Path)
    requires Walk(j, parts) != Undefined
    ensures Get(j, parts) == Walk(j, parts)
    decreases |parts|
  {
    if parts != [] {
      if Property(j, parts[0]) == Undefined && |parts| > 1 { WalkOutside(Undefined, parts[1..]); }
      TakesProperty(j, parts[0]);
      WalkIsGet(Property(j, parts[0]), parts[1..]);
    }
  }

  /** It arrives there whenever indices are written as numbers are printed; another spelling finds nothing. */
  lemma {:induction false} CanonicalWalkIsGet(j: Json, parts: Path)
    ensures (forall k :: 0 <= k < |parts| && IsNumeral(parts[k]) ==> parts[k] == Decimal(Value(parts[k]))) ==>
              Walk(j, parts) == Get(j, parts)
    ensures j.Arr? && parts != [] && IsNumeral(parts[0]) && parts[0] != Decimal(Value(parts[0])) ==>
              Walk(j, parts) == Undefined
    decreases |parts|
  {
    hide Value, Decimal, IsNumeral, Child;
    if parts != [] {
      assert forall k :: 0 <= k < |parts| - 1 ==> parts[1..][k] == parts[k + 1];
      CanonicalWalkIsGet(Child(j, parts[0]), parts[1..]);
      if |parts| > 1 { WalkOutside(Undefined, parts[1..]); }
    }
  }

  lemma {:induction false} GetBelow(j: Json, parts: Path, seg: string, rest: Path)
    ensures Get(j, parts + [seg] + rest) == Get(Child(Get(j, parts), seg), rest)
    decreases |parts|
  {
    var q := parts + [seg] + rest;
    if parts == [] {
      assert q[0] == seg && q[1..] == rest;
    } else {
      assert q[0] == parts[0] && q[1..] == parts[1..] + [seg] + rest;
      GetBelow(Child(j, parts[0]), parts[1..], seg, rest);
    }
  }

  /** What get finds at the parent before and after a removal. */
  lemma ParentOfRemoved(root: Json, parts: Path, last: string)
    requires UnsetFrom(root, parts, last).Removed?
    ensures HasSlot(Get(root, parts), last)
    ensures Get(UnsetFrom(root, parts, last).tree, parts) == Drop(Get(root, parts), last)
  {
    UnsetDropsTheSlot(root, parts, last);
    WalkIsGet(root, parts);
    WalkIsGet(UnsetFrom(root, parts, last).tree, parts);
  }

  /** Unset of a key, by paths: the key and all below it are gone, and paths through other keys read as before. */
  lemma UnsetKey(root: Json, path: Path, other: string, rest: Path)
    requires path != [] && Unset(root, path).Removed?
    requires var parent := Get(root, path[..|path| - 1]); parent.Obj? && DistinctKeys(parent.fields)
    ensures var q := path[..|path| - 1] + [other] + rest;
            Get(Unset(root, path).tree, q) == if other == path[|path| - 1] then Undefined else Get(root, q)
  {
    var parts, last := path[..|path| - 1], path[|path| - 1];
    ParentOfRemoved(root, parts, last);
    GetBelow(root, parts, other, rest);
    GetBelow(Unset(root, path).tree, parts, other, rest);
    DropKey(Get(root, parts), last, other);
    GetUndefined(rest);
  }

  /** Unset of an element, by paths: from the removed index on every path reads what the next index read. */
  lemma UnsetElement(root: Json, path: Path, j: nat, rest: Path)
    requires path != [] && Unset(root, path).Removed? && Get(root, path[..|path| - 1]).Arr?
    ensures IsNumeral(path[|path| - 1])
    ensures var parts, i := path[..|path| - 1], Value(path[|path| - 1]);
            && Get(Unset(root, path).tree, parts).Arr?
            && |Get(Unset(root, path).tree, parts).items| == |Get(root, parts).items| - 1
            && Get(Unset(root, path).tree, parts + [Decimal(j)] + rest)
               == Get(root, parts + [Decimal(if j < i then j else j + 1)] + rest)
  {
    var parts, last := path[..|path| - 1], path[|path| - 1];
    ParentOfRemoved(root, parts, last);
    var k := if j < Value(last) then j else j + 1;
    GetBelow(root, parts, Decimal(k), rest);
    GetBelow(Unset(root, path).tree, parts, Decimal(j), rest);
    DropIndex(Get(root, parts), last, j);
  }

  lemma {:induction false} RemoveOfPut(fields: seq<Field>, key: string, v: Json)
    requires !HasKey(fields, key)
    ensures HasKey(Put(fields, key, v), key) && Remove(Put(fields, key, v), key) == fields
  {
    HasKeyNext(fields, key);
    HasKeyNext(Put(fields, key, v), key);
    if fields != [] {
      hide HasKey;
      RemoveOfPut(fields[1..], key, v);
      assert Put(fields, key, v)[1..] == Put(fields[1..], key, v);
    }
  }

  lemma HasKeyNext(fields: seq<Field>, key: string)
    ensures HasKey(fields, key) <==> fields != [] && (fields[0].key == key || HasKey(fields[1..], key))
  {
    if fields != [] {
      assert forall k :: 0 <= k < |fields| - 1 ==> fields[1..][k] == fields[k + 1];
      if HasKey(fields[1..], key) {
        var k :| 0 <= k < |fields[1..]| && fields[1..][k].key == key;
        assert fields[k + 1].key == key;
      }
    }
  }

  /** Unset takes back a set that added a new key to an existing object. */
  lemma {:induction false} UnsetUndoesSet(cur: Json, parts: Path, i: nat, last: string, v: Json)
    requires IsContainer(cur) && i <= |parts|
    requires Walk(cur, parts[i..]).Obj? && !HasKey(Walk(cur, parts[i..]).fields, last)
    ensures SetFrom(cur, parts, i, last, v).Done?
    ensures UnsetFrom(SetFrom(cur, parts, i, last, v).tree, parts[i..], last) == Removed(cur)
    decreases |parts| - i
  {
    if i == |parts| {
      RemoveOfPut(cur.fields, last, v);
    } else {
      assert parts[i..][1..] == parts[i + 1..];
      var next := Property(cur, parts[i]);
      if !IsContainer(next) && i + 1 < |parts| { WalkOutside(next, parts[i + 1..]); }
      TakesProperty(cur, parts[i]);
      UnsetUndoesSet(next, parts, i + 1, last, v);
      var inner := SetFrom(next, parts, i + 1, last, v).tree;
      ChildOfAssign(cur, parts[i], inner, parts[i]);
      AssignTwice(cur, parts[i], inner, next);
      AssignBack(cur, parts[i]);
    }
  }

  // ---- path syntax ------------------------------------------------------------------------------

  ghost predicate PlainPath(p: Path) {
    p != [] && forall k :: 0 <= k < |p| ==> p[k] != "" && '.' !in p[k] && '[' !in p[k]
  }

  /** A path written with indices in brackets wherever a numeral follows another segment. */
  function Bracketed(p: Path): string {
    if |p| == 0 then ""
    else if |p| == 1 then p[0]
    else
      var front, last := Bracketed(p[..|p| - 1]), p[|p| - 1];
      if IsNumeral(last) then front + "[" + last + "]" else front + "." + last
  }

  lemma {:induction false} UnBracketPlain(a: string, b: string)
    requires '[' !in a
    ensures UnBracket(a + b) == a + UnBracket(b)
  {
    if a == "" {
      assert a + b == b;
    } else {
      assert (a + b)[1..] == a[1..] + b;
      UnBracketPlain(a[1..], b);
    }
  }

  lemma {:induction false} DigitRunOf(d: string, rest: string)
    requires (forall k :: 0 <= k < |d| ==> IsDigit(d[k])) && (rest != "" ==> !IsDigit(rest[0]))
    ensures DigitRun(d + rest) == |d|
  {
    if d == "" {
      assert d + rest == rest;
    } else {
      assert (d + rest)[1..] == d[1..] + rest;
      DigitRunOf(d[1..], rest);
    }
  }

  lemma UnBracketIndex(d: string, b: string)
    requires IsNumeral(d)
    ensures UnBracket("[" + d + "]" + b) == "." + d + UnBracket(b)
  {
    var s := "[" + d + "]" + b;
    assert s[1..] == d + ("]" + b);
    DigitRunOf(d, "]" + b);
    assert s[1 + |d|] == ']' && BracketLength(s) == |d| + 2;
    assert s[1..|d| + 1] == d && s[|d| + 2..] == b;
  }

  /** The last segment as `Bracketed` writes it, with its dot or brackets. */
  function Suffix(last: string): string { if IsNumeral(last) then "[" + last + "]" else "." + last }

  lemma UnBracketSuffix(last: string, b: string)
    requires '[' !in last
    ensures UnBracket(Suffix(last) + b) == "." + last + UnBracket(b)
  {
    hide UnBracket;
    if IsNumeral(last) {
      UnBracketIndex(last, b);
    } else {
      UnBracketPlain("." + last, b);
    }
  }

  lemma BracketedNext(front: Path, last: string)
    requires front != []
    ensures Bracketed(front + [last]) == Bracketed(front) + Suffix(last)
    ensures Join(front + [last], ".") == Join(front, ".") + ("." + last)
  {
    assert (front + [last])[..|front|] == front;
    JoinOfAppend(front, [last], ".");
    hide IsNumeral;
    var x, y := Bracketed(front), Join(front, ".");
    assert x + "[" + last + "]" == x + ("[" + last + "]") && x + "." + last == x + ("." + last);
    assert y + "." + last == y + ("." + last);
  }

  lemma {:induction false} UnBracketBracketed(p: Path, b: string)
    requires PlainPath(p)
    ensures UnBracket(Bracketed(p) + b) == Join(p, ".") + UnBracket(b)
    decreases |p|
  {
    hide UnBracket, Suffix;
    if |p| == 1 {
      UnBracketPlain(p[0], b);
    } else {
      hide Bracketed, Join;
      var front, last := p[..|p| - 1], p[|p| - 1];
      assert p == front + [last];
      BracketedNext(front, last);
      assert Bracketed(p) + b == Bracketed(front) + (Suffix(last) + b);
      UnBracketBracketed(front, Suffix(last) + b);
      UnBracketSuffix(last, b);
      var y, z := Join(front, "."), UnBracket(b);
      assert y + ("." + last + z) == y + ("." + last) + z;
    }
  }

  lemma {:induction false} NonEmptyOfPlain(p: Path)
    requires forall k :: 0 <= k < |p| ==> p[k] != ""
    ensures NonEmpty(p) == p
  {
    if p != [] { NonEmptyOfPlain(p[1..]); }
  }

  /** Dotted and bracketed spellings both split into the segments they were made from. */
  lemma SplitPathReadsBothSpellings(p: Path)
    requires PlainPath(p)
    ensures SplitPath(Bracketed(p)) == p && SplitPath(Join(p, ".")) == p
  {
    UnBracketBracketed(p, "");
    assert Bracketed(p) + "" == Bracketed(p) && UnBracket("") == "";
    SplitOfJoin(p, '.');
    NonEmptyOfPlain(p);
    JoinHasNoBracket(p);
    UnBracketPlain(Join(p, "."), "");
    assert Join(p, ".") + "" == Join(p, ".");
  }

  lemma {:induction false} JoinHasNoBracket(p: Path)
    requires forall k :: 0 <= k < |p| ==> '[' !in p[k]
    ensures '[' !in Join(p, ".")
  {
    if |p| > 1 { JoinHasNoBracket(p[1..]); }
  }

  lemma {:induction false} NonEmptyOfAppend(a: seq<string>, b: seq<string>)
    ensures NonEmpty(a + b) == NonEmpty(a) + NonEmpty(b)
    ensures "" !in NonEmpty(a)
  {
    if a == [] {
      assert a + b == b;
    } else {
      assert (a + b)[1..] == a[1..] + b;
      NonEmptyOfAppend(a[1..], b);
    }
  }

  lemma PlainSplits(p: Path)
    requires p != [] && forall k :: 0 <= k < |p| ==> '.' !in p[k] && '[' !in p[k]
    ensures SplitPath(Join(p, ".")) == NonEmpty(p)
  {
    JoinHasNoBracket(p);
    UnBracketPlain(Join(p, "."), "");
    assert Join(p, ".") + "" == Join(p, ".") && UnBracket("") == "";
    SplitOfJoin(p, '.');
  }

  /** Empty segments do not count, wherever they stand: no path has one. */
  lemma EmptySegmentsDrop(a: Path, b: Path)
    requires forall p :: p in a + [""] + b ==> '.' !in p && '[' !in p
    ensures a + b != [] ==> SplitPath(Join(a + [""] + b, ".")) == SplitPath(Join(a + b, "."))
    ensures "" !in SplitPath(Join(a + [""] + b, "."))
  {
    hide SplitPath, Join, NonEmpty;
    PlainSplits(a + [""] + b);
    if a + b != [] {
      PlainSplits(a + b);
    }
    NonEmptyDropsEmpty(a, b);
  }

  lemma NonEmptyDropsEmpty(a: Path, b: Path)
    ensures NonEmpty(a + [""] + b) == NonEmpty(a + b) && "" !in NonEmpty(a + b)
  {
    NonEmptyOfAppend(a + [""], b);
    NonEmptyOfAppend(a, [""]);
    NonEmptyOfAppend(a, b);
    NonEmptyOfAppend(a + b, []);
    assert NonEmpty([""]) == [];
    hide NonEmpty;
    assert NonEmpty(a) + [] == NonEmpty(a);
  }

  lemma {:induction false} DigitRunIsDigits(s: string)
    ensures forall k :: 0 <= k < DigitRun(s) ==> IsDigit(s[k])
  {
    if s != "" && IsDigit(s[0]) {
      DigitRunIsDigits(s[1..]);
      assert forall k :: 0 < k < |s| ==> s[k] == s[1..][k - 1];
    }
  }

  lemma BracketHoldsNumeral(x: string) returns (d: string, b: string)
    requires BracketLength("[" + x) > 0
    ensures IsNumeral(d) && x == d + "]" + b
  {
    var n := BracketLength("[" + x);
    assert ("[" + x)[1..] == x;
    DigitRunIsDigits(x);
    d, b := x[..n - 2], x[n - 1..];
  }

  /** A bracket that does not hold a numeral is left in its segment. */
  lemma OtherBracketStays(x: string)
    requires forall d, b :: IsNumeral(d) ==> x != d + "]" + b
    ensures UnBracket("[" + x) == "[" + UnBracket(x)
  {
    assert ("[" + x)[1..] == x;
    if BracketLength("[" + x) > 0 {
      var d, b := BracketHoldsNumeral(x);
    }
  }
}
