/** Go values as they lie in memory: what is mutable is behind a reference. */
module GoHeap {
  import opened Memory
  import opened NativeValue
  import opened GoInputs

  /** A Go value in an interface. Numbers and strings are immutable and stand for themselves. */
  datatype Ref =
    | RNil
    | RBool(b: bool)
    | RInt(i: int)
    | RUint(u: nat)
    | RFloat(bits: nat)
    | RString(text: seq<byte>)
    | RBytes(addr: nat)
    | RFloats(addr: nat)
    | RAnys(addr: nat)
    | RMap(addr: nat)
    | RNamed(under: Ref)
    | RNilPointer
    | RPointer(addr: nat)
    | RByteKinds(fixed: bool, defined: bool, addr: nat)
    | RFloatKinds(fixed: bool, addr: nat)
    | RElements(fixed: bool, addr: nat)
    | RMapOf(stringKeys: bool, addr: nat)
    | ROpaque

  datatype Object =
    | ByteSlice(raw: seq<byte>)
    | FloatSlice(floats: seq<nat>)
    | AnySlice(items: seq<Ref>)
    | Table(entries: map<seq<byte>, Ref>)
    | Target(ref: Ref)

  type Objects = map<nat, Object>

  class GoMem {
    var objects: Objects
    var next: nat

    ghost predicate Valid()
      reads this
    {
      forall a | a in objects :: a < next
    }

    constructor ()
      ensures Valid() && objects == map[]
    {
      objects, next := map[], 0;
    }

    /** `make` and `append(nil, ...)`: an object nobody else refers to. */
    method New(o: Object) returns (a: nat)
      requires Valid()
      modifies this
      ensures Valid() && a !in old(objects) && objects == old(objects)[a := o]
    {
      a := next;
      objects, next := objects[a := o], next + 1;
    }

    method SetItem(a: nat, i: nat, r: Ref)
      requires Valid() && a in objects && objects[a].AnySlice? && i < |objects[a].items|
      modifies this
      ensures Valid() && objects == old(objects)[a := AnySlice(old(objects)[a].items[i := r])]
    {
      objects := objects[a := AnySlice(objects[a].items[i := r])];
    }

    method SetEntry(a: nat, key: seq<byte>, r: Ref)
      requires Valid() && a in objects && objects[a].Table?
      modifies this
      ensures Valid() && objects == old(objects)[a := Table(old(objects)[a].entries[key := r])]
    {
      objects := objects[a := Table(objects[a].entries[key := r])];
    }
  }

  ghost predicate Has(m: Objects, a: nat, o: Object) {
    a in m && m[a] == o
  }

  /** In memory `m`, the reference is the Go value `v`. */
  ghost predicate Points(m: Objects, r: Ref, v: GoInput)
    decreases v
  {
    match v
    case Nil => r == RNil
    case GBool(b) => r == RBool(b)
    case GInt(i) => r == RInt(i)
    case GUint(u) => r == RUint(u)
    case GFloat(bits) => r == RFloat(bits)
    case GString(text) => r == RString(text)
    case GBytes(raw) => r.RBytes? && Has(m, r.addr, ByteSlice(raw))
    case GFloats(floats) => r.RFloats? && Has(m, r.addr, FloatSlice(floats))
    case GAnys(items) => r.RAnys? && PointsItems(m, r.addr, items)
    case GMap(entries) => r.RMap? && r.addr in m && m[r.addr].Table? && PointsEntries(m, m[r.addr].entries, v)
    case Named(under) => r.RNamed? && Points(m, r.under, under)
    case NilPointer => r == RNilPointer
    case Pointer(target) => r.RPointer? && r.addr in m && m[r.addr].Target? && Points(m, m[r.addr].ref, target)
    case ByteKinds(fixed, defined, raw) =>
      r.RByteKinds? && r.fixed == fixed && r.defined == defined && Has(m, r.addr, ByteSlice(raw))
    case FloatKinds(fixed, floats) => r.RFloatKinds? && r.fixed == fixed && Has(m, r.addr, FloatSlice(floats))
    case Elements(fixed, items) => r.RElements? && r.fixed == fixed && PointsItems(m, r.addr, items)
    case MapOf(stringKeys, entries) =>
      && r.RMapOf? && r.stringKeys == stringKeys && r.addr in m && m[r.addr].Table?
      && PointsEntries(m, m[r.addr].entries, v)
    case Opaque => r == ROpaque
  }

  ghost predicate PointsItems(m: Objects, a: nat, items: seq<GoInput>)
    decreases items
  {
    && a in m && m[a].AnySlice? && |m[a].items| == |items|
    && forall i | 0 <= i < |items| :: Points(m, m[a].items[i], items[i])
  }

  ghost predicate PointsEntries(m: Objects, t: map<seq<byte>, Ref>, v: GoInput)
    requires v.GMap? || v.MapOf?
    decreases v, 0
  {
    t.Keys == v.entries.Keys && forall k | k in t :: Points(m, t[k], v.entries[k])
  }

  /** The reference is the normalised value `v`, and every buffer in it is outside `base`. */
  ghost predicate Copied(m: Objects, base: set<nat>, r: Ref, v: Value)
    decreases v
  {
    match v
    case Null => r == RNil
    case Bool(b) => r == RBool(b)
    case Int(i) => r == RInt(i)
    case Float(bits) => r == RFloat(bits)
    case Str(text) => r == RString(text)
    case Bytes(raw) => r.RBytes? && r.addr !in base && Has(m, r.addr, ByteSlice(raw))
    case Vector(floats) => r.RFloats? && r.addr !in base && Has(m, r.addr, FloatSlice(floats))
    case List(items) =>
      && r.RAnys? && r.addr !in base && r.addr in m && m[r.addr].AnySlice? && |m[r.addr].items| == |items|
      && forall i | 0 <= i < |items| :: Copied(m, base, m[r.addr].items[i], items[i])
    case Map(entries) =>
      && r.RMap? && r.addr !in base && r.addr in m && m[r.addr].Table? && m[r.addr].entries.Keys == entries.Keys
      && forall k | k in entries :: Copied(m, base, m[r.addr].entries[k], entries[k])
  }

  /** Nothing that was there has changed. */
  ghost predicate Grows(m: Objects, m': Objects) {
    forall a | a in m :: a in m' && m'[a] == m[a]
  }

  lemma {:induction false} PointsStays(m: Objects, m': Objects, r: Ref, v: GoInput)
    requires Points(m, r, v) && Grows(m, m')
    ensures Points(m', r, v)
    decreases v
  {
    match v
    case GAnys(items) =>
      forall i | 0 <= i < |items| ensures Points(m', m[r.addr].items[i], items[i]) {
        PointsStays(m, m', m[r.addr].items[i], items[i]);
      }
    case Elements(_, items) =>
      forall i | 0 <= i < |items| ensures Points(m', m[r.addr].items[i], items[i]) {
        PointsStays(m, m', m[r.addr].items[i], items[i]);
      }
    case GMap(entries) =>
      forall k | k in entries ensures Points(m', m[r.addr].entries[k], entries[k]) {
        PointsStays(m, m', m[r.addr].entries[k], entries[k]);
      }
    case MapOf(_, entries) =>
      forall k | k in entries ensures Points(m', m[r.addr].entries[k], entries[k]) {
        PointsStays(m, m', m[r.addr].entries[k], entries[k]);
      }
    case Named(under) => PointsStays(m, m', r.under, under);
    case Pointer(target) => PointsStays(m, m', m[r.addr].ref, target);
    case _ =>
  }

  /** A copy does not depend on anything in `base`: whatever is written there later, or no longer kept, the copy
      holds the same value. */
  lemma {:induction false} CopyIsIndependent(m: Objects, m': Objects, base: set<nat>, r: Ref, v: Value)
    requires Copied(m, base, r, v)
    requires forall a | a in m && a !in base :: a in m' && m'[a] == m[a]
    ensures Copied(m', base, r, v)
    decreases v
  {
    match v
    case List(items) =>
      forall i | 0 <= i < |items| ensures Copied(m', base, m[r.addr].items[i], items[i]) {
        CopyIsIndependent(m, m', base, m[r.addr].items[i], items[i]);
      }
    case Map(entries) =>
      forall k | k in entries ensures Copied(m', base, m[r.addr].entries[k], entries[k]) {
        CopyIsIndependent(m, m', base, m[r.addr].entries[k], entries[k]);
      }
    case _ =>
  }

  lemma {:induction false} CopiedFromLess(m: Objects, base: set<nat>, less: set<nat>, r: Ref, v: Value)
    requires Copied(m, base, r, v) && less <= base
    ensures Copied(m, less, r, v)
    decreases v
  {
    match v
    case List(items) =>
      forall i | 0 <= i < |items| ensures Copied(m, less, m[r.addr].items[i], items[i]) {
        CopiedFromLess(m, base, less, m[r.addr].items[i], items[i]);
      }
    case Map(entries) =>
      forall k | k in entries ensures Copied(m, less, m[r.addr].entries[k], entries[k]) {
        CopiedFromLess(m, base, less, m[r.addr].entries[k], entries[k]);
      }
    case _ =>
  }

  /** What a normalised copy holds, read back as its consumer reads it. */
  method Contents(g: GoMem, r: Ref, ghost base: set<nat>, ghost v: Value) returns (w: Value)
    requires Copied(g.objects, base, r, v)
    ensures w == v
    decreases v, 1
  {
    match r
    case RNil => w := Null;
    case RBool(b) => w := Bool(b);
    case RInt(i) => w := Int(i);
    case RFloat(bits) => w := Float(bits);
    case RString(text) => w := Str(text);
    case RBytes(addr) => w := Bytes(g.objects[addr].raw);
    case RFloats(addr) => w := Vector(g.objects[addr].floats);
    case RAnys(addr) => w := ContentsOfItems(g, addr, base, v);
    case RMap(addr) => w := ContentsOfEntries(g, addr, base, v);
  }

  method ContentsOfItems(g: GoMem, addr: nat, ghost base: set<nat>, ghost v: Value) returns (w: Value)
    requires v.List? && Copied(g.objects, base, RAnys(addr), v)
    ensures w == v
    decreases v, 0
  {
    var items: seq<Value> := [];
    for i := 0 to |g.objects[addr].items|
      invariant items == v.items[..i]
    {
      var item := Contents(g, g.objects[addr].items[i], base, v.items[i]);
      items := items + [item];
    }
    w := List(items);
  }

  method ContentsOfEntries(g: GoMem, addr: nat, ghost base: set<nat>, ghost v: Value) returns (w: Value)
    requires v.Map? && Copied(g.objects, base, RMap(addr), v)
    ensures w == v
    decreases v, 0
  {
    var entries: map<seq<byte>, Value> := map[];
    var rest := g.objects[addr].entries.Keys;
    while rest != {}
      invariant rest <= v.entries.Keys && entries.Keys == v.entries.Keys - rest
      invariant forall k | k in entries :: entries[k] == v.entries[k]
      decreases |rest|
    {
      var key :| key in rest;
      var entry := Contents(g, g.objects[addr].entries[key], base, v.entries[key]);
      entries := entries[key := entry];
      rest := rest - {key};
    }
    assert entries == v.entries;
    w := Map(entries);
  }
}
