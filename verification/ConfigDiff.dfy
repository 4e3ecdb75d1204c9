/** The structural diff behind the config reloader, and what its dotted paths say. */
module ConfigDiff {
  import opened Text
  import opened ConfigTree

  // ---- the diff as the source computes it -------------------------------------------------------

  /** One key or index that the diff visits, with what both sides hold there. */
  datatype Slot = Slot(seg: string, before: Json, after: Json)

  function NewKeys(fields: seq<Field>, seen: seq<string>): seq<string>
    decreases |fields|
  {
    if fields == [] then []
    else if fields[0].key in seen then NewKeys(fields[1..], seen)
    else [fields[0].key] + NewKeys(fields[1..], seen + [fields[0].key])
  }

  /** The set of both key lists in insertion order. */
  function UnionKeys(before: seq<Field>, after: seq<Field>): seq<string> {
    NewKeys(before + after, [])
  }

  predicate SameKind(before: Json, after: Json) {
    (before.Obj? && after.Obj?) || (before.Arr? && after.Arr?)
  }

  function Slots(before: Json, after: Json): seq<Slot>
    requires SameKind(before, after)
  {
    if before.Obj? then
      var keys := UnionKeys(before.fields, after.fields);
      seq(|keys|, i requires 0 <= i < |keys| =>
        Slot(keys[i], Lookup(before.fields, keys[i]), Lookup(after.fields, keys[i])))
    else
      var n := if |before.items| < |after.items| then |after.items| else |before.items|;
      seq(n, i requires 0 <= i < n => Slot(Decimal(i), At(before.items, i), At(after.items, i)))
  }

  ghost predicate Below(slots: seq<Slot>, bound: nat) {
    forall k :: 0 <= k < |slots| ==> Height(slots[k].before) + Height(slots[k].after) < bound
  }

  lemma SlotsBelow(before: Json, after: Json)
    requires SameKind(before, after)
    ensures Below(Slots(before, after), Height(before) + Height(after))
  {
    var slots := Slots(before, after);
    forall k | 0 <= k < |slots|
      ensures Height(slots[k].before) < Height(before) && Height(slots[k].after) < Height(after)
    {
      if before.Obj? {
        LookupFinds(before.fields, slots[k].seg);
        LookupFinds(after.fields, slots[k].seg);
      }
    }
  }

  /** An object's keys hang directly under an empty prefix, an array's indices always follow a dot. */
  function Stem(before: Json, prefix: string): string {
    if before.Obj? && prefix == "" then "" else prefix + "."
  }

  function Diff(before: Json, after: Json, prefix: string): seq<string>
    decreases Height(before) + Height(after) + 1, 0
  {
    if SameKind(before, after) then
      SlotsBelow(before, after);
      DiffSlots(Slots(before, after), Stem(before, prefix), Height(before) + Height(after))
    else if before == after then []
    else [if prefix == "" then "(root)" else prefix]
  }

  function DiffSlots(slots: seq<Slot>, stem: string, ghost bound: nat): seq<string>
    requires Below(slots, bound)
    decreases bound, |slots|
  {
    if slots == [] then []
    else Diff(slots[0].before, slots[0].after, stem + slots[0].seg) + DiffSlots(slots[1..], stem, bound)
  }

  method DiffConfigPaths(before: Json, after: Json, prefix: string) returns (out: seq<string>)
    ensures out == Diff(before, after, prefix)
    decreases Height(before) + Height(after), 1
  {
    if before.Obj? && after.Obj? {
      out := DiffObjects(before, after, prefix);
    } else if before.Arr? && after.Arr? {
      out := DiffArrays(before, after, prefix);
    } else if before == after {
      out := [];
    } else {
      out := [if prefix == "" then "(root)" else prefix];
    }
  }

  /** What is left to report from slot `i` on, for two values of one kind. */
  ghost function DiffFrom(before: Json, after: Json, prefix: string, i: nat): seq<string>
    requires SameKind(before, after) && i <= |Slots(before, after)|
  {
    SlotsBelow(before, after);
    DiffSlots(Slots(before, after)[i..], Stem(before, prefix), Height(before) + Height(after))
  }

  lemma DiffFromEnds(before: Json, after: Json, prefix: string)
    requires SameKind(before, after)
    ensures DiffFrom(before, after, prefix, 0) == Diff(before, after, prefix)
    ensures DiffFrom(before, after, prefix, |Slots(before, after)|) == []
  {
    assert Slots(before, after)[0..] == Slots(before, after);
  }

  lemma DiffFromStep(before: Json, after: Json, prefix: string, i: nat)
    requires SameKind(before, after) && i < |Slots(before, after)|
    ensures var s := Slots(before, after)[i];
            && Height(s.before) + Height(s.after) < Height(before) + Height(after)
            && DiffFrom(before, after, prefix, i)
            == Diff(s.before, s.after, Stem(before, prefix) + s.seg) + DiffFrom(before, after, prefix, i + 1)
  {
    SlotsBelow(before, after);
    assert Slots(before, after)[i..][1..] == Slots(before, after)[i + 1..];
  }

  lemma ObjectSlot(before: Json, after: Json, prefix: string, i: nat)
    requires before.Obj? && after.Obj? && i < |UnionKeys(before.fields, after.fields)|
    ensures |Slots(before, after)| == |UnionKeys(before.fields, after.fields)|
    ensures var k := UnionKeys(before.fields, after.fields)[i];
            && Slots(before, after)[i] == Slot(k, Lookup(before.fields, k), Lookup(after.fields, k))
            && (if prefix != "" then prefix + "." + k else k) == Stem(before, prefix) + k
  {
  }

  lemma ObjectSlots(before: Json, after: Json)
    requires before.Obj? && after.Obj?
    ensures SameKind(before, after) && |Slots(before, after)| == |UnionKeys(before.fields, after.fields)|
  {
  }

  method DiffObjects(before: Json, after: Json, prefix: string) returns (out: seq<string>)
    requires before.Obj? && after.Obj?
    ensures out == Diff(before, after, prefix)
    decreases Height(before) + Height(after), 0
  {
    hide *;
    var keys := UnionKeys(before.fields, after.fields);
    ObjectSlots(before, after);
    DiffFromEnds(before, after, prefix);
    out := [];
    for i := 0 to |keys|
      invariant out + DiffFrom(before, after, prefix, i) == Diff(before, after, prefix)
    {
      var k := keys[i];
      ObjectSlot(before, after, prefix, i);
      DiffFromStep(before, after, prefix, i);
      var sub := DiffConfigPaths(Lookup(before.fields, k), Lookup(after.fields, k),
                                 if prefix != "" then prefix + "." + k else k);
      out := out + sub;
    }
  }

  lemma ArraySlot(before: Json, after: Json, prefix: string, i: nat)
    requires before.Arr? && after.Arr? && i < |Slots(before, after)|
    ensures Slots(before, after)[i] == Slot(Decimal(i), At(before.items, i), At(after.items, i))
    ensures prefix + "." + Decimal(i) == Stem(before, prefix) + Decimal(i)
  {
  }

  lemma ArraySlots(before: Json, after: Json)
    requires before.Arr? && after.Arr?
    ensures SameKind(before, after)
    ensures |Slots(before, after)| == if |before.items| < |after.items| then |after.items| else |before.items|
  {
  }

  method DiffArrays(before: Json, after: Json, prefix: string) returns (out: seq<string>)
    requires before.Arr? && after.Arr?
    ensures out == Diff(before, after, prefix)
    decreases Height(before) + Height(after), 0
  {
    hide *;
    var max := if |before.items| < |after.items| then |after.items| else |before.items|;
    ArraySlots(before, after);
    DiffFromEnds(before, after, prefix);
    out := [];
    for i := 0 to max
      invariant out + DiffFrom(before, after, prefix, i) == Diff(before, after, prefix)
    {
      ArraySlot(before, after, prefix, i);
      DiffFromStep(before, after, prefix, i);
      var sub := DiffConfigPaths(At(before.items, i), At(after.items, i), prefix + "." + Decimal(i));
      out := out + sub;
    }
  }

  method GetByPath(obj: Json, path: string) returns (r: Json)
    ensures r == Get(obj, Split(path, '.'))
  {
    var parts := Split(path, '.');
    r := obj;
    for i := 0 to |parts|
      invariant Get(r, parts[i..]) == Get(obj, parts)
    {
      assert parts[i..][1..] == parts[i + 1..];
      if r.Undefined? || r.Null? {
        GetUndefined(parts[i + 1..]);
        return Undefined;
      }
      if r.Arr? {
        r := if IsNumeral(parts[i]) then At(r.items, Value(parts[i])) else Undefined;
      } else if r.Obj? {
        r := Lookup(r.fields, parts[i]);
      } else {
        GetUndefined(parts[i + 1..]);
        return Undefined;
      }
    }
  }

  // ---- the reference notions --------------------------------------------------------------------

  /** A JSON-like tree: nothing undefined inside, keys distinct, non-empty and free of dots. */
  ghost predicate IsConfig(j: Json) {
    match j
    case Undefined => false
    case Arr(items) => forall k :: 0 <= k < |items| ==> IsConfig(items[k])
    case Obj(fields) =>
      && DistinctKeys(fields)
      && forall k :: 0 <= k < |fields| ==>
           fields[k].key != "" && '.' !in fields[k].key && IsConfig(fields[k].value)
    case _ => true
  }

  ghost predicate MaybeConfig(j: Json) { j == Undefined || IsConfig(j) }

  /** Structural equality; the order of an object's keys does not matter. */
  ghost predicate Same(a: Json, b: Json)
    decreases a
  {
    if a.Arr? && b.Arr? then
      |a.items| == |b.items| && forall k :: 0 <= k < |a.items| ==> Same(a.items[k], b.items[k])
    else if a.Obj? && b.Obj? then
      && (forall k :: 0 <= k < |a.fields| ==>
            HasKey(b.fields, a.fields[k].key) && Same(a.fields[k].value, Lookup(b.fields, a.fields[k].key)))
      && (forall k :: 0 <= k < |b.fields| ==> HasKey(a.fields, b.fields[k].key))
    else a == b
  }

  /** Wherever the path indexes an array it does so in the way numbers are printed. */
  ghost predicate ReadsCanonically(j: Json, path: Path)
    decreases |path|
  {
    path == [] || (
      && (j.Arr? && IsNumeral(path[0]) ==> path[0] == Decimal(Value(path[0])))
      && ReadsCanonically(Child(j, path[0]), path[1..]))
  }

  // ---- the diff on segment lists ----------------------------------------------------------------

  function Under(seg: string, paths: seq<Path>): seq<Path> {
    seq(|paths|, i requires 0 <= i < |paths| => [seg] + paths[i])
  }

  /** The diff with its paths as lists of segments relative to the two values. */
  function Paths(before: Json, after: Json): seq<Path>
    decreases Height(before) + Height(after) + 1, 0
  {
    if SameKind(before, after) then
      SlotsBelow(before, after);
      PathsOfSlots(Slots(before, after), Height(before) + Height(after))
    else if before == after then []
    else [[]]
  }

  function PathsOfSlots(slots: seq<Slot>, ghost bound: nat): seq<Path>
    requires Below(slots, bound)
    decreases bound, |slots|
  {
    if slots == [] then []
    else Under(slots[0].seg, Paths(slots[0].before, slots[0].after)) + PathsOfSlots(slots[1..], bound)
  }

  // ---- facts about slots ------------------------------------------------------------------------

  ghost predicate FirstKeys(keys: seq<string>, fields: seq<Field>, seen: seq<string>) {
    && (forall i, j :: 0 <= i < j < |keys| ==> keys[i] != keys[j])
    && (forall i :: 0 <= i < |keys| ==> keys[i] !in seen && HasKey(fields, keys[i]))
    && (forall k :: 0 <= k < |fields| ==> fields[k].key in seen || fields[k].key in keys)
  }

  lemma HasKeyInTail(fields: seq<Field>, key: string)
    requires fields != [] && HasKey(fields[1..], key)
    ensures HasKey(fields, key)
  {
    var k :| 0 <= k < |fields[1..]| && fields[1..][k].key == key;
    assert fields[k + 1].key == key;
  }

  lemma {:induction false} NewKeysDistinct(fields: seq<Field>, seen: seq<string>)
    ensures FirstKeys(NewKeys(fields, seen), fields, seen)
    decreases |fields|
  {
    if fields != [] {
      var k0 := fields[0].key;
      assert forall k :: 0 < k < |fields| ==> fields[k] == fields[1..][k - 1];
      if k0 in seen {
        NewKeysDistinct(fields[1..], seen);
        var rest := NewKeys(fields[1..], seen);
        forall i | 0 <= i < |rest| ensures HasKey(fields, rest[i]) { HasKeyInTail(fields, rest[i]); }
      } else {
        var more := seen + [k0];
        NewKeysDistinct(fields[1..], more);
        var rest := NewKeys(fields[1..], more);
        assert forall x :: x in more <==> x in seen || x == k0;
        var keys := [k0] + rest;
        forall i | 0 <= i < |keys| ensures HasKey(fields, keys[i]) && keys[i] !in seen && (i > 0 ==> keys[i] != k0) {
          if i > 0 {
            assert rest[i - 1] !in more;
            HasKeyInTail(fields, keys[i]);
          }
        }
        assert forall x :: x in keys <==> x == k0 || x in rest;
      }
    }
  }

  /** What the slots of two values are: distinct segments, read from both sides, and all there is. */
  ghost predicate SlotsOf(before: Json, after: Json, slots: seq<Slot>) {
    && (forall i, j :: 0 <= i < j < |slots| ==> slots[i].seg != slots[j].seg)
    && (forall i :: 0 <= i < |slots| ==>
          && slots[i].before == Child(before, slots[i].seg) && slots[i].after == Child(after, slots[i].seg)
          && slots[i].seg != "" && '.' !in slots[i].seg
          && MaybeConfig(slots[i].before) && MaybeConfig(slots[i].after))
  }

  lemma SlotsAreChildren(before: Json, after: Json)
    requires SameKind(before, after) && MaybeConfig(before) && MaybeConfig(after)
    ensures SlotsOf(before, after, Slots(before, after))
  {
    var slots := Slots(before, after);
    if before.Obj? {
      NewKeysDistinct(before.fields + after.fields, []);
      forall i | 0 <= i < |slots|
        ensures slots[i].seg != "" && '.' !in slots[i].seg
        ensures MaybeConfig(slots[i].before) && MaybeConfig(slots[i].after)
      {
        var k :| 0 <= k < |before.fields + after.fields| && (before.fields + after.fields)[k].key == slots[i].seg;
        LookupFinds(before.fields, slots[i].seg);
        LookupFinds(after.fields, slots[i].seg);
      }
    } else {
      forall i | 0 <= i < |slots| ensures IsNumeral(slots[i].seg) && Value(slots[i].seg) == i {
        ValueOfDecimal(i);
      }
    }
  }

  /** A canonical segment that reads as something on either side has its slot. */
  lemma SlotFor(before: Json, after: Json, seg: string) returns (i: nat)
    requires SameKind(before, after)
    requires before.Arr? && IsNumeral(seg) ==> seg == Decimal(Value(seg))
    requires Child(before, seg) != Undefined || Child(after, seg) != Undefined
    ensures i < |Slots(before, after)| && Slots(before, after)[i].seg == seg
  {
    if before.Obj? {
      var all := before.fields + after.fields;
      NewKeysDistinct(all, []);
      LookupFinds(before.fields, seg);
      LookupFinds(after.fields, seg);
      var keys := UnionKeys(before.fields, after.fields);
      assert HasKey(all, seg) by {
        if k :| 0 <= k < |before.fields| && before.fields[k].key == seg {
          assert all[k].key == seg;
        } else {
          var k :| 0 <= k < |after.fields| && after.fields[k].key == seg;
          assert all[|before.fields| + k].key == seg;
        }
      }
      assert seg in keys;
      i :| 0 <= i < |keys| && keys[i] == seg;
    } else {
      i := Value(seg);
    }
  }

  ghost predicate AllSame(slots: seq<Slot>) {
    forall i :: 0 <= i < |slots| ==> Same(slots[i].before, slots[i].after)
  }

  ghost predicate NoneUndefined(fields: seq<Field>) {
    DistinctKeys(fields) && forall k :: 0 <= k < |fields| ==> fields[k].value != Undefined
  }

  lemma ConfigHasNoneUndefined(j: Json)
    requires MaybeConfig(j)
    ensures j.Obj? ==> NoneUndefined(j.fields)
    ensures j.Arr? ==> forall k :: 0 <= k < |j.items| ==> j.items[k] != Undefined
  {
    if j.Obj? {
      forall k | 0 <= k < |j.fields| ensures j.fields[k].value != Undefined { ConfigIsDefined(j.fields[k].value); }
    } else if j.Arr? {
      forall k | 0 <= k < |j.items| ensures j.items[k] != Undefined { ConfigIsDefined(j.items[k]); }
    }
  }

  lemma ConfigIsDefined(j: Json)
    requires IsConfig(j)
    ensures j != Undefined
  {
  }

  lemma SameBySlots(before: Json, after: Json)
    requires SameKind(before, after) && MaybeConfig(before) && MaybeConfig(after)
    ensures Same(before, after) <==> AllSame(Slots(before, after))
  {
    assert (before.Obj? <==> after.Obj?) && (before.Arr? <==> after.Arr?);
    hide *;
    ConfigHasNoneUndefined(before);
    ConfigHasNoneUndefined(after);
    SameBySlotsCases(before, after);
  }

  lemma SameBySlotsCases(before: Json, after: Json)
    requires SameKind(before, after)
    requires before.Obj? ==> NoneUndefined(before.fields) && NoneUndefined(after.fields)
    requires before.Arr? ==> forall k :: 0 <= k < |before.items| ==> before.items[k] != Undefined
    requires after.Arr? ==> forall k :: 0 <= k < |after.items| ==> after.items[k] != Undefined
    ensures Same(before, after) <==> AllSame(Slots(before, after))
  {
    if before.Arr? {
      SameBySlotsOfArray(before, after);
    } else if Same(before, after) {
      SameObjectsSlots(before, after);
    } else if AllSame(Slots(before, after)) {
      SlotsSameObjects(before, after);
    }
  }

  lemma SameBySlotsOfArray(before: Json, after: Json)
    requires before.Arr? && forall k :: 0 <= k < |before.items| ==> before.items[k] != Undefined
    requires after.Arr? && forall k :: 0 <= k < |after.items| ==> after.items[k] != Undefined
    ensures Same(before, after) <==> AllSame(Slots(before, after))
  {
    var b, a := before.items, after.items;
    var slots := Slots(before, after);
    if |b| != |a| {
      var i := if |b| < |a| then |b| else |a|;
      assert !Same(slots[i].before, slots[i].after);
    } else {
      assert forall k :: 0 <= k < |b| ==> slots[k].before == b[k] && slots[k].after == a[k];
    }
  }

  lemma SameObjectsSlots(before: Json, after: Json)
    requires before.Obj? && after.Obj? && NoneUndefined(before.fields) && NoneUndefined(after.fields)
    requires Same(before, after)
    ensures AllSame(Slots(before, after))
  {
    var bf, af := before.fields, after.fields;
    var slots, keys := Slots(before, after), UnionKeys(bf, af);
    NewKeysDistinct(bf + af, []);
    forall i | 0 <= i < |slots| ensures Same(slots[i].before, slots[i].after) {
      var k :| 0 <= k < |bf + af| && (bf + af)[k].key == keys[i];
      if k >= |bf| { assert HasKey(bf, af[k - |bf|].key); }
      assert HasKey(bf, keys[i]);
      LookupFinds(bf, keys[i]);
      var m :| 0 <= m < |bf| && bf[m] == Field(keys[i], Lookup(bf, keys[i]));
      assert Same(bf[m].value, Lookup(af, bf[m].key));
    }
  }

  lemma SlotsSameObjects(before: Json, after: Json)
    requires before.Obj? && after.Obj? && NoneUndefined(before.fields) && NoneUndefined(after.fields)
    requires AllSame(Slots(before, after))
    ensures Same(before, after)
  {
    var bf, af := before.fields, after.fields;
    forall k | 0 <= k < |bf|
      ensures HasKey(af, bf[k].key) && Same(bf[k].value, Lookup(af, bf[k].key))
    {
      LookupAt(bf, k);
      var i := SlotFor(before, after, bf[k].key);
      assert Same(Slots(before, after)[i].before, Slots(before, after)[i].after);
      assert Same(bf[k].value, Lookup(af, bf[k].key));
      LookupFinds(af, bf[k].key);
    }
    forall k | 0 <= k < |af| ensures HasKey(bf, af[k].key) {
      LookupAt(af, k);
      var i := SlotFor(before, after, af[k].key);
      assert Same(Slots(before, after)[i].before, Slots(before, after)[i].after);
      assert Same(Lookup(bf, af[k].key), af[k].value);
      LookupFinds(bf, af[k].key);
    }
  }

  // ---- the diff on segment lists is exact -------------------------------------------------------

  ghost predicate NonePaths(slots: seq<Slot>) {
    forall i :: 0 <= i < |slots| ==> Paths(slots[i].before, slots[i].after) == []
  }

  lemma {:induction false} NoPathsInSlots(slots: seq<Slot>, bound: nat)
    requires Below(slots, bound)
    ensures PathsOfSlots(slots, bound) == [] <==> NonePaths(slots)
  {
    if slots != [] {
      NoPathsInSlots(slots[1..], bound);
      assert forall i :: 0 < i < |slots| ==> slots[i] == slots[1..][i - 1];
      assert |Under(slots[0].seg, Paths(slots[0].before, slots[0].after))|
          == |Paths(slots[0].before, slots[0].after)|;
    }
  }

  lemma PathsOfContainers(before: Json, after: Json)
    requires SameKind(before, after)
    ensures Below(Slots(before, after), Height(before) + Height(after))
    ensures Paths(before, after) == PathsOfSlots(Slots(before, after), Height(before) + Height(after))
  {
    SlotsBelow(before, after);
    hide Below;
    hide Height;
    hide Slots;
  }

  lemma LeafPaths(before: Json, after: Json)
    requires !SameKind(before, after)
    ensures Paths(before, after) == (if before == after then [] else [[]])
    ensures before != after ==> [] in Paths(before, after)
    ensures Same(before, after) <==> before == after
  {
  }

  lemma {:induction false} NoPathsIffSame(before: Json, after: Json)
    requires MaybeConfig(before) && MaybeConfig(after)
    ensures Paths(before, after) == [] <==> Same(before, after)
    decreases Height(before) + Height(after), 1
  {
    hide *;
    if SameKind(before, after) {
      PathsOfContainers(before, after);
      SlotsAreMaybeConfigs(before, after);
      SlotsHaveNoPathsIffSame(Slots(before, after), Height(before) + Height(after));
      NoPathsInSlots(Slots(before, after), Height(before) + Height(after));
      SameBySlots(before, after);
    } else {
      LeafPaths(before, after);
    }
  }

  lemma SlotsAreMaybeConfigs(before: Json, after: Json)
    requires SameKind(before, after) && MaybeConfig(before) && MaybeConfig(after)
    ensures forall i :: 0 <= i < |Slots(before, after)| ==>
      MaybeConfig(Slots(before, after)[i].before) && MaybeConfig(Slots(before, after)[i].after)
  {
    SlotsAreChildren(before, after);
  }

  lemma {:induction false} SlotsHaveNoPathsIffSame(slots: seq<Slot>, bound: nat)
    requires Below(slots, bound)
    requires forall i :: 0 <= i < |slots| ==> MaybeConfig(slots[i].before) && MaybeConfig(slots[i].after)
    ensures NonePaths(slots) <==> AllSame(slots)
    decreases bound, 0
  {
    forall i | 0 <= i < |slots|
      ensures Paths(slots[i].before, slots[i].after) == [] <==> Same(slots[i].before, slots[i].after)
    {
      NoPathsIffSame(slots[i].before, slots[i].after);
    }
  }

  lemma {:induction false} PathInSlots(slots: seq<Slot>, bound: nat, p: Path) returns (i: nat)
    requires Below(slots, bound) && p in PathsOfSlots(slots, bound)
    ensures i < |slots| && p != [] && p[0] == slots[i].seg
    ensures p[1..] in Paths(slots[i].before, slots[i].after)
  {
    var head := Paths(slots[0].before, slots[0].after);
    var here := Under(slots[0].seg, head);
    if p in here {
      var k :| 0 <= k < |here| && here[k] == p;
      assert p[1..] == head[k];
      i := 0;
    } else {
      i := PathInSlots(slots[1..], bound, p);
      i := i + 1;
    }
  }

  lemma {:induction false} SlotPathIsPath(slots: seq<Slot>, bound: nat, i: nat, p: Path)
    requires Below(slots, bound) && i < |slots| && p in Paths(slots[i].before, slots[i].after)
    ensures [slots[i].seg] + p in PathsOfSlots(slots, bound)
  {
    if i == 0 {
      var head := Paths(slots[0].before, slots[0].after);
      var k :| 0 <= k < |head| && head[k] == p;
      assert Under(slots[0].seg, head)[k] == [slots[0].seg] + p;
    } else {
      SlotPathIsPath(slots[1..], bound, i - 1, p);
    }
  }

  /** A non-empty path of a difference goes through one slot, that is, one child on both sides. */
  lemma PathInChild(before: Json, after: Json, p: Path) returns (i: nat)
    requires MaybeConfig(before) && MaybeConfig(after) && p != [] && p in Paths(before, after)
    ensures SameKind(before, after) && i < |Slots(before, after)|
    ensures var s := Slots(before, after)[i];
            && s.seg == p[0] && s.seg != "" && '.' !in s.seg && p[1..] in Paths(s.before, s.after)
            && s.before == Child(before, p[0]) && s.after == Child(after, p[0])
            && MaybeConfig(s.before) && MaybeConfig(s.after)
  {
    if !SameKind(before, after) { LeafPaths(before, after); }
    hide *;
    PathsOfContainers(before, after);
    i := PathInSlots(Slots(before, after), Height(before) + Height(after), p);
    SlotIsChild(before, after, i);
  }

  lemma SlotIsChild(before: Json, after: Json, i: nat)
    requires SameKind(before, after) && MaybeConfig(before) && MaybeConfig(after) && i < |Slots(before, after)|
    ensures var s := Slots(before, after)[i];
            && s.seg != "" && '.' !in s.seg && s.before == Child(before, s.seg) && s.after == Child(after, s.seg)
            && MaybeConfig(s.before) && MaybeConfig(s.after)
  {
    SlotsAreChildren(before, after);
  }

  /** Every point on the way to a returned path has the rest of it as a difference. */
  lemma {:induction false} RestOfPath(before: Json, after: Json, p: Path, q: Path)
    requires MaybeConfig(before) && MaybeConfig(after) && p in Paths(before, after) && q <= p
    ensures MaybeConfig(Get(before, q)) && MaybeConfig(Get(after, q))
    ensures p[|q|..] in Paths(Get(before, q), Get(after, q))
    decreases |q|
  {
    if q != [] {
      var i := PathInChild(before, after, p);
      hide Paths, Slots, MaybeConfig, Child;
      var s := Slots(before, after)[i];
      assert q[0] == p[0] && q[1..] <= p[1..];
      RestOfPath(s.before, s.after, p[1..], q[1..]);
      assert p[1..][|q[1..]|..] == p[|q|..];
    } else {
      assert p[0..] == p;
    }
  }

  ghost predicate PairwiseIncomparable(ps: seq<Path>) {
    forall i, j :: 0 <= i < j < |ps| ==> Incomparable(ps[i], ps[j])
  }

  lemma {:induction false} SlotPathsIncomparable(slots: seq<Slot>, bound: nat)
    requires Below(slots, bound)
    requires forall i, j :: 0 <= i < j < |slots| ==> slots[i].seg != slots[j].seg
    requires forall i :: 0 <= i < |slots| ==> PairwiseIncomparable(Paths(slots[i].before, slots[i].after))
    ensures PairwiseIncomparable(PathsOfSlots(slots, bound))
  {
    if slots != [] {
      SlotPathsIncomparable(slots[1..], bound);
      var head, rest := Paths(slots[0].before, slots[0].after), PathsOfSlots(slots[1..], bound);
      var here := Under(slots[0].seg, head);
      forall i, j | 0 <= i < j < |here + rest|
        ensures Incomparable((here + rest)[i], (here + rest)[j])
      {
        if j < |here| {
          assert Incomparable(head[i], head[j]);
          assert here[i][1..] == head[i] && here[j][1..] == head[j];
        } else if i < |here| {
          var m := PathInSlots(slots[1..], bound, rest[j - |here|]);
          assert slots[1..][m] == slots[m + 1];
          assert here[i][0] == slots[0].seg;
        }
      }
    }
  }

  lemma {:induction false} PathsIncomparable(before: Json, after: Json)
    requires MaybeConfig(before) && MaybeConfig(after)
    ensures PairwiseIncomparable(Paths(before, after))
    decreases Height(before) + Height(after)
  {
    if SameKind(before, after) {
      var slots := Slots(before, after);
      SlotsBelow(before, after);
      SlotsAreChildren(before, after);
      forall i | 0 <= i < |slots|
        ensures PairwiseIncomparable(Paths(slots[i].before, slots[i].after))
      {
        PathsIncomparable(slots[i].before, slots[i].after);
      }
      SlotPathsIncomparable(slots, Height(before) + Height(after));
    }
  }

  lemma {:induction false} UnchangedElsewhere(before: Json, after: Json, q: Path)
    requires MaybeConfig(before) && MaybeConfig(after) && ReadsCanonically(before, q)
    requires forall p :: p in Paths(before, after) ==> Incomparable(p, q)
    ensures Same(Get(before, q), Get(after, q))
    decreases |q|
  {
    if q == [] {
      SomethingIsIn(Paths(before, after));
      NoPathsIffSame(before, after);
    } else if Child(before, q[0]) == Undefined && Child(after, q[0]) == Undefined {
      GetUndefined(q[1..]);
    } else if SameKind(before, after) {
      var i := IncomparableInSlot(before, after, q);
      UnchangedElsewhere(Slots(before, after)[i].before, Slots(before, after)[i].after, q[1..]);
    } else {
      LeafPaths(before, after);
    }
  }

  lemma SomethingIsIn(ps: seq<Path>)
    ensures ps != [] ==> exists p :: p in ps
  {
    if ps != [] { assert ps[0] in ps; }
  }

  lemma IncomparableInSlot(before: Json, after: Json, q: Path) returns (i: nat)
    requires SameKind(before, after) && MaybeConfig(before) && MaybeConfig(after)
    requires q != [] && ReadsCanonically(before, q)
    requires Child(before, q[0]) != Undefined || Child(after, q[0]) != Undefined
    requires forall p :: p in Paths(before, after) ==> Incomparable(p, q)
    ensures i < |Slots(before, after)|
    ensures var s := Slots(before, after)[i];
            && s.before == Child(before, q[0]) && s.after == Child(after, q[0])
            && MaybeConfig(s.before) && MaybeConfig(s.after)
            && forall p :: p in Paths(s.before, s.after) ==> Incomparable(p, q[1..])
  {
    i := SlotFor(before, after, q[0]);
    hide *;
    SlotIsChild(before, after, i);
    forall p | p in Paths(Slots(before, after)[i].before, Slots(before, after)[i].after)
      ensures Incomparable(p, q[1..])
    {
      IncomparableBelow(before, after, i, p, q[1..]);
      assert q == [q[0]] + q[1..];
    }
  }

  lemma IncomparableBelow(before: Json, after: Json, i: nat, p: Path, tail: Path)
    requires SameKind(before, after) && i < |Slots(before, after)|
    requires p in Paths(Slots(before, after)[i].before, Slots(before, after)[i].after)
    ensures var full := [Slots(before, after)[i].seg] + p;
            && full in Paths(before, after)
            && (Incomparable(full, [Slots(before, after)[i].seg] + tail) <==> Incomparable(p, tail))
  {
    hide *;
    PathsOfContainers(before, after);
    SlotPathIsPath(Slots(before, after), Height(before) + Height(after), i, p);
    IncomparableTails(Slots(before, after)[i].seg, p, tail);
  }

  lemma IncomparableTails(seg: string, p: Path, q: Path)
    ensures Incomparable([seg] + p, [seg] + q) <==> Incomparable(p, q)
  {
    assert ([seg] + p)[1..] == p && ([seg] + q)[1..] == q;
    assert p <= q <==> [seg] + p <= [seg] + q;
    assert q <= p <==> [seg] + q <= [seg] + p;
  }

  // ---- dotted strings stand for segment lists ---------------------------------------------------

  ghost predicate PlainSegments(p: Path) {
    forall k :: 0 <= k < |p| ==> p[k] != "" && '.' !in p[k]
  }

  lemma {:induction false} PathsArePlain(before: Json, after: Json, p: Path)
    requires MaybeConfig(before) && MaybeConfig(after) && p in Paths(before, after)
    ensures PlainSegments(p)
    decreases |p|
  {
    if p != [] {
      var i := PathInChild(before, after, p);
      PathsArePlain(Slots(before, after)[i].before, Slots(before, after)[i].after, p[1..]);
      assert forall k :: 0 < k < |p| ==> p[k] == p[1..][k - 1];
    }
  }

  ghost predicate Renders(texts: seq<string>, stem: Path, paths: seq<Path>) {
    |texts| == |paths| && forall k :: 0 <= k < |texts| ==> texts[k] == Join(stem + paths[k], ".")
  }

  lemma RendersConcat(t1: seq<string>, t2: seq<string>, stem: Path, p1: seq<Path>, p2: seq<Path>)
    requires Renders(t1, stem, p1) && Renders(t2, stem, p2)
    ensures Renders(t1 + t2, stem, p1 + p2)
  {
  }

  lemma RendersUnder(texts: seq<string>, stem: Path, seg: string, paths: seq<Path>)
    requires Renders(texts, stem + [seg], paths)
    ensures Renders(texts, stem, Under(seg, paths))
  {
    assert forall k :: 0 <= k < |paths| ==> stem + Under(seg, paths)[k] == stem + [seg] + paths[k];
  }

  lemma JoinSnoc(p: Path, seg: string)
    ensures Join(p + [seg], ".") == (if p == [] then "" else Join(p, ".") + ".") + seg
  {
    if p != [] { JoinOfAppend(p, [seg], "."); }
  }

  lemma JoinNotEmpty(p: Path)
    requires p != [] && p[0] != ""
    ensures Join(p, ".") != ""
  {
  }

  lemma DiffOfContainers(before: Json, after: Json, prefix: string)
    requires SameKind(before, after)
    ensures Below(Slots(before, after), Height(before) + Height(after))
    ensures Diff(before, after, prefix)
         == DiffSlots(Slots(before, after), Stem(before, prefix), Height(before) + Height(after))
  {
    SlotsBelow(before, after);
    hide Below;
    hide Height;
    hide Slots;
  }

  lemma {:induction false} DiffRendersPaths(before: Json, after: Json, stem: Path)
    requires MaybeConfig(before) && MaybeConfig(after) && PlainSegments(stem)
    requires stem == [] ==> before.Obj? && after.Obj?
    ensures Renders(Diff(before, after, Join(stem, ".")), stem, Paths(before, after))
    decreases Height(before) + Height(after) + 1, 0
  {
    hide *;
    if SameKind(before, after) {
      StemOf(before, stem);
      DiffOfContainers(before, after, Join(stem, "."));
      PathsOfContainers(before, after);
      forall i | 0 <= i < |Slots(before, after)|
        ensures var s := Slots(before, after)[i];
                s.seg != "" && '.' !in s.seg && MaybeConfig(s.before) && MaybeConfig(s.after)
      {
        SlotIsChild(before, after, i);
      }
      DiffSlotsRenderPaths(Slots(before, after), stem, Height(before) + Height(after));
    } else {
      LeafRenders(before, after, stem);
    }
  }

  lemma StemOf(before: Json, stem: Path)
    requires PlainSegments(stem) && (stem == [] ==> before.Obj?)
    ensures Stem(before, Join(stem, ".")) == if stem == [] then "" else Join(stem, ".") + "."
  {
    if stem != [] { JoinNotEmpty(stem); }
  }

  lemma LeafRenders(before: Json, after: Json, stem: Path)
    requires !SameKind(before, after) && PlainSegments(stem)
    requires stem == [] ==> before.Obj? && after.Obj?
    ensures Renders(Diff(before, after, Join(stem, ".")), stem, Paths(before, after))
  {
    JoinNotEmpty(stem);
    LeafPaths(before, after);
    hide Join, Slots, Height, MaybeConfig;
    assert stem + [] == stem;
  }

  lemma {:induction false} DiffSlotsRenderPaths(slots: seq<Slot>, stem: Path, bound: nat)
    requires Below(slots, bound) && PlainSegments(stem)
    requires forall i :: 0 <= i < |slots| ==>
      var s := slots[i]; s.seg != "" && '.' !in s.seg && MaybeConfig(s.before) && MaybeConfig(s.after)
    ensures Renders(DiffSlots(slots, if stem == [] then "" else Join(stem, ".") + ".", bound),
                    stem, PathsOfSlots(slots, bound))
    decreases bound, |slots|
  {
    if slots != [] {
      var s := slots[0];
      var text := if stem == [] then "" else Join(stem, ".") + ".";
      JoinSnoc(stem, s.seg);
      DiffRendersPaths(s.before, s.after, stem + [s.seg]);
      DiffSlotsRenderPaths(slots[1..], stem, bound);
      var here, rest := Diff(s.before, s.after, text + s.seg), DiffSlots(slots[1..], text, bound);
      var head, tail := Paths(s.before, s.after), PathsOfSlots(slots[1..], bound);
      RendersUnder(here, stem, s.seg, head);
      RendersConcat(here, rest, stem, Under(s.seg, head), tail);
    }
  }

  // ---- main results -----------------------------------------------------------------------------

  ghost predicate IsRoot(j: Json) { j.Obj? && IsConfig(j) }

  lemma PathsOfRootsNotEmpty(before: Json, after: Json, p: Path)
    requires IsRoot(before) && IsRoot(after) && p in Paths(before, after)
    ensures p != [] && Split(Join(p, "."), '.') == p
  {
    SlotsBelow(before, after);
    var m := PathInSlots(Slots(before, after), Height(before) + Height(after), p);
    PathsArePlain(before, after, p);
    SplitOfJoin(p, '.');
  }

  lemma DiffAsPaths(before: Json, after: Json, i: nat)
    requires IsRoot(before) && IsRoot(after) && i < |Diff(before, after, "")|
    ensures |Diff(before, after, "")| == |Paths(before, after)|
    ensures Split(Diff(before, after, "")[i], '.') == Paths(before, after)[i]
  {
    DiffRendersPaths(before, after, []);
    var p := Paths(before, after)[i];
    assert [] + p == p;
    PathsOfRootsNotEmpty(before, after, p);
  }

  /** No difference is reported exactly when the two configs are structurally equal. */
  lemma DiffEmptyIffSame(before: Json, after: Json)
    requires IsRoot(before) && IsRoot(after)
    ensures Diff(before, after, "") == [] <==> Same(before, after)
  {
    DiffRendersPaths(before, after, []);
    NoPathsIffSame(before, after);
  }

  /** Two returned paths are different and neither is a dotted prefix of the other. */
  lemma DiffPathsIncomparable(before: Json, after: Json, i: nat, j: nat)
    requires IsRoot(before) && IsRoot(after) && i < j < |Diff(before, after, "")|
    ensures var d := Diff(before, after, "");
            d[i] != d[j] && Incomparable(Split(d[i], '.'), Split(d[j], '.'))
  {
    DiffAsPaths(before, after, i);
    DiffAsPaths(before, after, j);
    PathsIncomparable(before, after);
  }

  /** A value has no difference from itself, so the source's early exit on identical references loses nothing. */
  lemma {:induction false} NothingDiffersFromItself(v: Json, prefix: string)
    ensures Diff(v, v, prefix) == []
    decreases Height(v), 1, 0
  {
    if v.Arr? || v.Obj? {
      SlotsBelow(v, v);
      SelfSlotsDifferNowhere(Slots(v, v), Stem(v, prefix), Height(v));
    }
  }

  lemma {:induction false} SelfSlotsDifferNowhere(slots: seq<Slot>, stem: string, height: nat)
    requires Below(slots, 2 * height) && forall i :: 0 <= i < |slots| ==> slots[i].before == slots[i].after
    ensures DiffSlots(slots, stem, 2 * height) == []
    decreases height, 0, |slots|
  {
    if slots != [] {
      NothingDiffersFromItself(slots[0].before, stem + slots[0].seg);
      SelfSlotsDifferNowhere(slots[1..], stem, height);
    }
  }

  /** A returned path, and every dotted prefix of one, reads differently on the two sides. */
  lemma DiffPathsDiffer(before: Json, after: Json, i: nat, path: string)
    requires IsRoot(before) && IsRoot(after) && i < |Diff(before, after, "")|
    requires Split(path, '.') <= Split(Diff(before, after, "")[i], '.')
    ensures !Same(Get(before, Split(path, '.')), Get(after, Split(path, '.')))
  {
    DiffAsPaths(before, after, i);
    var p, q := Paths(before, after)[i], Split(path, '.');
    RestOfPath(before, after, p, q);
    NoPathsIffSame(Get(before, q), Get(after, q));
  }

  /** A path that is incomparable with all returned ones reads the same on both sides. */
  lemma OutsideDiffUnchanged(before: Json, after: Json, path: string)
    requires IsRoot(before) && IsRoot(after) && ReadsCanonically(before, Split(path, '.'))
    requires forall i :: 0 <= i < |Diff(before, after, "")| ==>
      Incomparable(Split(Diff(before, after, "")[i], '.'), Split(path, '.'))
    ensures Same(Get(before, Split(path, '.')), Get(after, Split(path, '.')))
  {
    var q := Split(path, '.');
    forall p | p in Paths(before, after) ensures Incomparable(p, q) {
      var i :| 0 <= i < |Paths(before, after)| && Paths(before, after)[i] == p;
      DiffRendersPaths(before, after, []);
      DiffAsPaths(before, after, i);
    }
    UnchangedElsewhere(before, after, q);
  }

  // ---- which paths, and in which order ----------------------------------------------------------

  /** Both sides are objects, or both are arrays. */
  predicate BothOpen(before: Json, after: Json) {
    (before.Obj? && after.Obj?) || (before.Arr? && after.Arr?)
  }

  /** The two sides are of one kind all the way to `p`, and part there. */
  ghost predicate PartAt(before: Json, after: Json, p: Path) {
    && (forall n :: 0 <= n < |p| ==> BothOpen(Get(before, p[..n]), Get(after, p[..n])))
    && !BothOpen(Get(before, p), Get(after, p)) && !Same(Get(before, p), Get(after, p))
  }

  lemma GetStep(j: Json, p: Path)
    requires p != []
    ensures Get(j, []) == j && Get(j, p) == Get(Child(j, p[0]), p[1..])
    ensures forall n :: 0 <= n < |p| - 1 ==> Get(j, p[..n + 1]) == Get(Child(j, p[0]), p[1..][..n])
  {
    hide Child;
    forall n | 0 <= n < |p| - 1 ensures Get(j, p[..n + 1]) == Get(Child(j, p[0]), p[1..][..n]) {
      assert p[..n + 1][1..] == p[1..][..n];
    }
  }

  lemma PartBelow(before: Json, after: Json, p: Path)
    requires p != []
    ensures PartAt(before, after, p)
       <==> BothOpen(before, after) && PartAt(Child(before, p[0]), Child(after, p[0]), p[1..])
  {
    var b, a, q := Child(before, p[0]), Child(after, p[0]), p[1..];
    assert p[..0] == [];
    assert forall n :: 0 <= n < |q| ==> p[..n + 1][1..] == q[..n];
    GetStep(before, p);
    GetStep(after, p);
    hide Child, BothOpen, Same, Get;
    if PartAt(before, after, p) {
      forall n | 0 <= n < |q| ensures BothOpen(Get(b, q[..n]), Get(a, q[..n])) {
        assert BothOpen(Get(before, p[..n + 1]), Get(after, p[..n + 1]));
      }
      assert BothOpen(Get(before, p[..0]), Get(after, p[..0]));
    }
    if BothOpen(before, after) && PartAt(b, a, q) {
      forall n | 0 <= n < |p| ensures BothOpen(Get(before, p[..n]), Get(after, p[..n])) {
        if n > 0 {
          assert BothOpen(Get(b, q[..n - 1]), Get(a, q[..n - 1]));
        }
      }
    }
  }

  lemma SlotIsCanonical(before: Json, after: Json, i: nat)
    requires SameKind(before, after) && i < |Slots(before, after)|
    ensures var seg := Slots(before, after)[i].seg;
            before.Arr? ==> IsNumeral(seg) && Value(seg) == i && seg == Decimal(Value(seg))
  {
    if before.Arr? {
      ValueOfDecimal(i);
    }
  }

  lemma RootPath(before: Json, after: Json)
    ensures [] in Paths(before, after) <==> PartAt(before, after, []) && ReadsCanonically(before, [])
  {
    hide Slots, Same, Height;
    if SameKind(before, after) {
      if [] in Paths(before, after) {
        PathsOfContainers(before, after);
        var i := PathInSlots(Slots(before, after), Height(before) + Height(after), []);
      }
    } else {
      LeafPaths(before, after);
    }
  }

  /** Going one step down keeps the way of an index that is printed as numbers are. */
  lemma CanonicalBelow(before: Json, after: Json, p: Path, i: nat)
    requires p != [] && SameKind(before, after) && i < |Slots(before, after)| && Slots(before, after)[i].seg == p[0]
    ensures ReadsCanonically(before, p) <==> ReadsCanonically(Child(before, p[0]), p[1..])
  {
    SlotIsCanonical(before, after, i);
    hide Slots, Child, Value, Decimal;
  }

  lemma {:induction false} PathsAreWherePart(before: Json, after: Json, p: Path)
    requires MaybeConfig(before) && MaybeConfig(after)
    ensures p in Paths(before, after) <==> PartAt(before, after, p) && ReadsCanonically(before, p)
    decreases |p|
  {
    hide *;
    if p == [] {
      RootPath(before, after);
    } else {
      PartBelow(before, after, p);
      if p in Paths(before, after) {
        var i := PathInChild(before, after, p);
        CanonicalBelow(before, after, p, i);
        PathsAreWherePart(Slots(before, after)[i].before, Slots(before, after)[i].after, p[1..]);
        OpenIsSameKind(before, after);
      }
      if PartAt(before, after, p) && ReadsCanonically(before, p) {
        var i := PartedIsInASlot(before, after, p);
        SlotIsChild(before, after, i);
        CanonicalBelow(before, after, p, i);
        PathsAreWherePart(Slots(before, after)[i].before, Slots(before, after)[i].after, p[1..]);
        PathsOfContainers(before, after);
        SlotPathIsPath(Slots(before, after), Height(before) + Height(after), i, p[1..]);
        assert [p[0]] + p[1..] == p;
      }
    }
  }

  lemma OpenIsSameKind(before: Json, after: Json)
    ensures BothOpen(before, after) <==> SameKind(before, after)
  {
  }

  lemma PartedIsInASlot(before: Json, after: Json, p: Path) returns (i: nat)
    requires p != [] && PartAt(before, after, p) && ReadsCanonically(before, p)
    ensures SameKind(before, after) && i < |Slots(before, after)| && Slots(before, after)[i].seg == p[0]
  {
    PartBelow(before, after, p);
    if Child(before, p[0]) == Undefined && Child(after, p[0]) == Undefined {
      GetUndefined(p[1..]);
    }
    hide Child, Slots, Get;
    i := SlotFor(before, after, p[0]);
  }

  /**
   Which paths are returned: exactly those on the way to which both sides are objects or both are arrays,
   and at which they are not and differ.  Array indices on the way are written as numbers are printed.
   */
  lemma DiffPathsAreWherePart(before: Json, after: Json, path: string)
    requires IsRoot(before) && IsRoot(after)
    ensures path in Diff(before, after, "")
       <==> PartAt(before, after, Split(path, '.')) && ReadsCanonically(before, Split(path, '.'))
  {
    hide PartAt, ReadsCanonically, Slots, Diff, Paths, Split, Join;
    var d, ps, q := Diff(before, after, ""), Paths(before, after), Split(path, '.');
    DiffRendersPaths(before, after, []);
    PathsAreWherePart(before, after, q);
    assert Join([], ".") == "" by { JoinOfNone(); }
    if path in d {
      var i :| 0 <= i < |d| && d[i] == path;
      DiffAsPaths(before, after, i);
    }
    if q in ps {
      var i :| 0 <= i < |ps| && ps[i] == q;
      JoinOfSplit(path, '.');
      assert [] + ps[i] == ps[i] && d[i] == Join([] + ps[i], ".");
    }
  }

  lemma JoinOfNone()
    ensures Join([], ".") == ""
  {
  }

  /** One key is visited before another: it is listed first, old keys before new ones; indices in order. */
  ghost predicate VisitedFirst(before: Json, after: Json, first: string, second: string) {
    if before.Obj? && after.Obj? then
      var keys := before.fields + after.fields;
      exists x :: 0 <= x < |keys| && keys[x].key == first && forall y :: 0 <= y <= x ==> keys[y].key != second
    else IsNumeral(first) && IsNumeral(second) && Value(first) < Value(second)
  }

  lemma {:induction false} NewKeysInOrder(fields: seq<Field>, seen: seq<string>, i: nat, j: nat) returns (x: nat)
    requires i < j < |NewKeys(fields, seen)|
    ensures x < |fields| && fields[x].key == NewKeys(fields, seen)[i]
    ensures forall y :: 0 <= y <= x ==> fields[y].key != NewKeys(fields, seen)[j]
    decreases |fields|
  {
    var k0, rest := fields[0].key, fields[1..];
    var keys := NewKeys(fields, seen);
    NewKeysDistinct(fields, seen);
    assert keys[i] != keys[j] && keys[j] !in seen;
    assert k0 !in seen ==> keys[0] == k0 && keys[0] != keys[j];
    if k0 !in seen && i == 0 {
      x := 0;
    } else {
      if k0 in seen {
        x := NewKeysInOrder(rest, seen, i, j);
      } else {
        x := NewKeysInOrder(rest, seen + [k0], i - 1, j - 1);
      }
      assert forall y :: 0 < y < |fields| ==> fields[y] == rest[y - 1];
      x := x + 1;
    }
  }

  lemma SlotsInOrder(before: Json, after: Json, i: nat, j: nat)
    requires SameKind(before, after) && i < j < |Slots(before, after)|
    ensures VisitedFirst(before, after, Slots(before, after)[i].seg, Slots(before, after)[j].seg)
  {
    if before.Obj? {
      var x := NewKeysInOrder(before.fields + after.fields, [], i, j);
      hide NewKeys;
      KeyOfSlot(before, after, i);
      KeyOfSlot(before, after, j);
      hide Slots;
    } else {
      SlotIsCanonical(before, after, i);
      SlotIsCanonical(before, after, j);
      hide Slots, Value, Decimal;
    }
  }

  lemma KeyOfSlot(before: Json, after: Json, i: nat)
    requires before.Obj? && after.Obj? && i < |Slots(before, after)|
    ensures var keys := NewKeys(before.fields + after.fields, []); i < |keys| && Slots(before, after)[i].seg == keys[i]
  {
  }

  /** Two paths of a difference come from the same slot, or from two in the same order. */
  lemma {:induction false} SlotsOfPaths(slots: seq<Slot>, bound: nat, i: nat, j: nat)
    returns (a: nat, b: nat, i': nat, j': nat)
    requires Below(slots, bound) && i < j < |PathsOfSlots(slots, bound)|
    ensures a <= b < |slots|
    ensures i' < |Paths(slots[a].before, slots[a].after)| && j' < |Paths(slots[b].before, slots[b].after)|
    ensures PathsOfSlots(slots, bound)[i] == [slots[a].seg] + Paths(slots[a].before, slots[a].after)[i']
    ensures PathsOfSlots(slots, bound)[j] == [slots[b].seg] + Paths(slots[b].before, slots[b].after)[j']
    ensures a == b ==> i' < j'
  {
    hide Paths, Height, Slots;
    var n := |Paths(slots[0].before, slots[0].after)|;
    assert |Under(slots[0].seg, Paths(slots[0].before, slots[0].after))| == n;
    if j < n {
      a, b, i', j' := 0, 0, i, j;
    } else if n <= i {
      a, b, i', j' := SlotsOfPaths(slots[1..], bound, i - n, j - n);
      a, b := a + 1, b + 1;
    } else {
      b, j' := SlotOfPath(slots[1..], bound, j - n);
      a, b, i' := 0, b + 1, i;
    }
  }

  lemma {:induction false} SlotOfPath(slots: seq<Slot>, bound: nat, j: nat) returns (b: nat, j': nat)
    requires Below(slots, bound) && j < |PathsOfSlots(slots, bound)|
    ensures b < |slots| && j' < |Paths(slots[b].before, slots[b].after)|
    ensures PathsOfSlots(slots, bound)[j] == [slots[b].seg] + Paths(slots[b].before, slots[b].after)[j']
  {
    hide Paths, Height, Slots;
    var n := |Paths(slots[0].before, slots[0].after)|;
    assert |Under(slots[0].seg, Paths(slots[0].before, slots[0].after))| == n;
    if j < n {
      b, j' := 0, j;
    } else {
      b, j' := SlotOfPath(slots[1..], bound, j - n);
      b := b + 1;
    }
  }

  /** Where two paths part, the first takes the slot that is visited first. */
  ghost predicate PartsInOrder(before: Json, after: Json, p: Path, q: Path, n: nat) {
    && n < |p| && n < |q| && p[..n] == q[..n]
    && VisitedFirst(Get(before, p[..n]), Get(after, p[..n]), p[n], q[n])
  }

  lemma PartsBelow(before: Json, after: Json, seg: string, p: Path, q: Path, n: nat)
    requires PartsInOrder(Child(before, seg), Child(after, seg), p, q, n)
    ensures PartsInOrder(before, after, [seg] + p, [seg] + q, n + 1)
  {
    hide VisitedFirst, Child;
    var x, y := [seg] + p, [seg] + q;
    assert x[..n + 1] == [seg] + p[..n] && y[..n + 1] == [seg] + q[..n];
    assert x[..n + 1][1..] == p[..n];
  }

  lemma {:induction false} PathsInOrder(before: Json, after: Json, i: nat, j: nat) returns (n: nat)
    requires MaybeConfig(before) && MaybeConfig(after) && i < j < |Paths(before, after)|
    ensures PartsInOrder(before, after, Paths(before, after)[i], Paths(before, after)[j], n)
    decreases Height(before) + Height(after)
  {
    hide VisitedFirst, Slots, MaybeConfig, Height;
    if !SameKind(before, after) {
      LeafPaths(before, after);
    }
    hide Paths;
    PathsOfContainers(before, after);
    var slots := Slots(before, after);
    var a, b, i', j' := SlotsOfPaths(slots, Height(before) + Height(after), i, j);
    if a == b {
      SlotIsChild(before, after, a);
      assert Below(slots, Height(before) + Height(after));
      n := PathsInOrder(slots[a].before, slots[a].after, i', j');
      var ps := Paths(slots[a].before, slots[a].after);
      hide *;
      PartsBelow(before, after, slots[a].seg, ps[i'], ps[j'], n);
      n := n + 1;
    } else {
      n := 0;
      SlotsInOrder(before, after, a, b);
    }
  }

  /** The paths come in the order in which the trees list their keys, old keys first, at every depth. */
  lemma DiffInKeyOrder(before: Json, after: Json, i: nat, j: nat) returns (n: nat)
    requires IsRoot(before) && IsRoot(after) && i < j < |Diff(before, after, "")|
    ensures var p, q := Split(Diff(before, after, "")[i], '.'), Split(Diff(before, after, "")[j], '.');
            && n < |p| && n < |q| && p[..n] == q[..n]
            && VisitedFirst(Get(before, p[..n]), Get(after, p[..n]), p[n], q[n])
  {
    hide Slots, VisitedFirst, Diff, Paths;
    DiffAsPaths(before, after, i);
    DiffAsPaths(before, after, j);
    n := PathsInOrder(before, after, i, j);
  }
}
