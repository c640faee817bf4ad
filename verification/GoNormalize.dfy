/** `normalizeValue`: from any Go value to one of the nine shapes the encoder accepts
    (bindings/go/internal/cgo/value.go). */
module GoNormalize {
  import opened Options
  import opened Memory
  import opened NativeValue
  import opened NativeHeap
  import opened GoEncode
  import opened GoInputs
  import opened GoHeap

  /** The property value a Go value stands for; `None` when it has none. */
  function Denote(v: GoInput): Option<Value>
    decreases v, 0
  {
    match v
    case Nil => Some(Null)
    case GBool(b) => Some(Bool(b))
    case GInt(i) => Some(Int(i))
    case GUint(u) => if u < 0x8000_0000_0000_0000 then Some(Int(u)) else None
    case GFloat(bits) => Some(Float(bits))
    case GString(text) => Some(Str(text))
    case GBytes(raw) => Some(Bytes(raw))
    case GFloats(floats) => Some(Vector(floats))
    case GAnys(items) => if Storable(items) then Some(List(DenoteAll(items))) else None
    case GMap(entries) => if StorableEntries(v) then Some(Map(DenoteEntries(v))) else None
    case Named(under) => Denote(under)
    case NilPointer => Some(Null)
    case Pointer(target) => Denote(target)
    case ByteKinds(fixed, defined, raw) => if !fixed && defined then None else Some(Bytes(raw))
    case FloatKinds(_, floats) => Some(Vector(floats))
    case Elements(_, items) => if Storable(items) then Some(List(DenoteAll(items))) else None
    case MapOf(stringKeys, entries) =>
      if stringKeys && StorableEntries(v) then Some(Map(DenoteEntries(v))) else None
    case Opaque => None
  }

  predicate Storable(items: seq<GoInput>)
    decreases items, 1
  {
    forall i | 0 <= i < |items| :: Denote(items[i]).Some?
  }

  function DenoteAll(items: seq<GoInput>): (vs: seq<Value>)
    requires Storable(items)
    ensures |vs| == |items| && forall i | 0 <= i < |items| :: vs[i] == Denote(items[i]).value
    decreases items, 2
  {
    seq(|items|, i requires 0 <= i < |items| => Denote(items[i]).value)
  }

  predicate StorableEntries(v: GoInput)
    requires v.GMap? || v.MapOf?
    decreases v, 0, 1
  {
    forall k | k in v.entries :: Denote(v.entries[k]).Some?
  }

  function DenoteEntries(v: GoInput): (m: map<seq<byte>, Value>)
    requires v.GMap? || v.MapOf?
    requires StorableEntries(v)
    ensures m.Keys == v.entries.Keys && forall k | k in m :: m[k] == Denote(v.entries[k]).value
    decreases v, 0, 2
  {
    map k | k in v.entries :: Denote(v.entries[k]).value
  }

  // ------------------------------------------------------------------ what can go wrong

  /** How normalising can end. */
  datatype Verdict = Accepts | Rejects | Panics

  /** Under some enumeration of the maps, the first thing in the way is an error, or a panic: `reflect.Copy` wants
      equal element types, so it panics on a slice of a defined byte type. */
  ghost predicate May(v: GoInput, w: Verdict)
    decreases v, 0
  {
    match v
    case GUint(u) => w.Rejects? && u >= 0x8000_0000_0000_0000
    case ByteKinds(fixed, defined, _) => w.Panics? && !fixed && defined
    case GAnys(items) => MayItems(items, w)
    case Elements(_, items) => MayItems(items, w)
    case GMap(entries) => MayEntries(v, w)
    case MapOf(stringKeys, entries) => if stringKeys then MayEntries(v, w) else w.Rejects?
    case Named(under) => May(under, w)
    case Pointer(target) => May(target, w)
    case Opaque => w.Rejects?
    case _ => false
  }

  /** The items before the one in the way all have a value. */
  ghost predicate MayItems(items: seq<GoInput>, w: Verdict)
    decreases items, 1
  {
    exists i | 0 <= i < |items| :: May(items[i], w) && forall j | 0 <= j < i :: Denote(items[j]).Some?
  }

  /** Any key may come first. */
  ghost predicate MayEntries(v: GoInput, w: Verdict)
    requires v.GMap? || v.MapOf?
    decreases v, 0, 1
  {
    exists k | k in v.entries :: May(v.entries[k], w)
  }

  /** Which key of a map the runtime visits next, given those still to come. */
  type Order = (GoInput, set<seq<byte>>) -> seq<byte>

  ghost function NextKey(order: Order, v: GoInput, rest: set<seq<byte>>): (k: seq<byte>)
    requires rest != {}
    ensures k in rest
  {
    if order(v, rest) in rest then order(v, rest) else var k :| k in rest; k
  }

  /** How normalising ends when the maps are enumerated in a given order. */
  ghost function VerdictIn(v: GoInput, order: Order): Verdict
    decreases v, 0
  {
    match v
    case GUint(u) => if u < 0x8000_0000_0000_0000 then Accepts else Rejects
    case ByteKinds(fixed, defined, _) => if !fixed && defined then Panics else Accepts
    case GAnys(items) => ItemsVerdict(items, order)
    case Elements(_, items) => ItemsVerdict(items, order)
    case GMap(entries) => EntriesVerdict(v, order, entries.Keys)
    case MapOf(stringKeys, entries) => if stringKeys then EntriesVerdict(v, order, entries.Keys) else Rejects
    case Named(under) => VerdictIn(under, order)
    case Pointer(target) => VerdictIn(target, order)
    case Opaque => Rejects
    case _ => Accepts
  }

  ghost function ItemsVerdict(items: seq<GoInput>, order: Order): Verdict
    decreases items, 1
  {
    if items == [] then Accepts
    else
      var before := ItemsVerdict(items[..|items| - 1], order);
      if before.Accepts? then VerdictIn(items[|items| - 1], order) else before
  }

  ghost function EntriesVerdict(v: GoInput, order: Order, rest: set<seq<byte>>): Verdict
    requires (v.GMap? || v.MapOf?) && rest <= v.entries.Keys
    decreases v, 0, |rest|
  {
    if rest == {} then Accepts
    else
      var k := NextKey(order, v, rest);
      var first := VerdictIn(v.entries[k], order);
      if first.Accepts? then EntriesVerdict(v, order, rest - {k}) else first
  }

  /** Whatever the order: a value is accepted exactly when it denotes one, and nothing happens that may not. */
  lemma {:induction false} VerdictsMay(v: GoInput, order: Order)
    ensures VerdictIn(v, order).Accepts? <==> Denote(v).Some?
    ensures !VerdictIn(v, order).Accepts? ==> May(v, VerdictIn(v, order))
    decreases v, 0
  {
    match v
    case GAnys(items) => ItemVerdictsMay(items, order);
    case Elements(_, items) => ItemVerdictsMay(items, order);
    case GMap(entries) => EntryVerdictsMay(v, order, entries.Keys);
    case MapOf(_, entries) => EntryVerdictsMay(v, order, entries.Keys);
    case Named(under) => VerdictsMay(under, order);
    case Pointer(target) => VerdictsMay(target, order);
    case _ =>
  }

  lemma {:induction false} ItemVerdictsMay(items: seq<GoInput>, order: Order)
    ensures ItemsVerdict(items, order).Accepts? <==> Storable(items)
    ensures !ItemsVerdict(items, order).Accepts? ==> MayItems(items, ItemsVerdict(items, order))
    decreases items, 1
  {
    hide May, VerdictIn, Denote;
    if items != [] {
      var n := |items| - 1;
      var front, w := items[..n], ItemsVerdict(items, order);
      ItemVerdictsMay(front, order);
      VerdictsMay(items[n], order);
      assert forall i | 0 <= i < n :: front[i] == items[i];
      if ItemsVerdict(front, order).Accepts? {
        assert !w.Accepts? ==> May(items[n], w);
      } else {
        var i :| 0 <= i < n && May(front[i], w) && forall j | 0 <= j < i :: Denote(front[j]).Some?;
        assert May(items[i], w);
      }
    }
  }

  lemma {:induction false} EntryVerdictsMay(v: GoInput, order: Order, rest: set<seq<byte>>)
    requires (v.GMap? || v.MapOf?) && rest <= v.entries.Keys
    ensures EntriesVerdict(v, order, rest).Accepts? <==> forall k | k in rest :: Denote(v.entries[k]).Some?
    ensures !EntriesVerdict(v, order, rest).Accepts? ==> MayEntries(v, EntriesVerdict(v, order, rest))
    decreases v, 0, |rest|
  {
    hide May, VerdictIn, Denote;
    if rest != {} {
      var k := NextKey(order, v, rest);
      VerdictsMay(v.entries[k], order);
      EntryVerdictsMay(v, order, rest - {k});
      assert forall x | x in rest :: x == k || x in rest - {k};
    }
  }

  /** Orders that differ on one map alone agree on everything inside it. */
  lemma {:induction false} OrderElsewhere(u: GoInput, v: GoInput, o: Order, p: Order)
    requires u < v && forall x, rest | x != v :: o(x, rest) == p(x, rest)
    ensures VerdictIn(u, o) == VerdictIn(u, p)
    decreases u, 0
  {
    match u
    case GAnys(items) => OrderElsewhereItems(items, u, v, o, p);
    case Elements(_, items) => OrderElsewhereItems(items, u, v, o, p);
    case GMap(entries) => OrderElsewhereEntries(u, v, o, p, entries.Keys);
    case MapOf(_, entries) => OrderElsewhereEntries(u, v, o, p, entries.Keys);
    case Named(under) => OrderElsewhere(under, v, o, p);
    case Pointer(target) => OrderElsewhere(target, v, o, p);
    case _ =>
  }

  lemma {:induction false} OrderElsewhereItems(items: seq<GoInput>, u: GoInput, v: GoInput, o: Order, p: Order)
    requires u < v && (forall i | 0 <= i < |items| :: items[i] < u)
    requires forall x, rest | x != v :: o(x, rest) == p(x, rest)
    ensures ItemsVerdict(items, o) == ItemsVerdict(items, p)
    decreases items, 1
  {
    hide VerdictIn;
    if items != [] {
      var n := |items| - 1;
      OrderElsewhereItems(items[..n], u, v, o, p);
      OrderElsewhere(items[n], v, o, p);
    }
  }

  lemma {:induction false} OrderElsewhereEntries(u: GoInput, v: GoInput, o: Order, p: Order, rest: set<seq<byte>>)
    requires (u.GMap? || u.MapOf?) && rest <= u.entries.Keys && u < v
    requires forall x, r | x != v :: o(x, r) == p(x, r)
    ensures EntriesVerdict(u, o, rest) == EntriesVerdict(u, p, rest)
    decreases u, 0, |rest|
  {
    hide VerdictIn;
    if rest != {} {
      assert u != v;
      var k := NextKey(o, u, rest);
      assert NextKey(p, u, rest) == k;
      OrderElsewhere(u.entries[k], v, o, p);
      OrderElsewhereEntries(u, v, o, p, rest - {k});
    }
  }

  /** Whatever may happen does happen in some order. */
  lemma {:induction false} MayArises(v: GoInput, w: Verdict) returns (order: Order)
    requires May(v, w)
    ensures VerdictIn(v, order) == w
    decreases v, 0
  {
    order := (x, rest) => [];
    match v
    case GAnys(items) => order := MayItemsArise(items, w);
    case Elements(_, items) => order := MayItemsArise(items, w);
    case GMap(_) => order := MayEntriesArise(v, w);
    case MapOf(stringKeys, _) => if stringKeys { order := MayEntriesArise(v, w); }
    case Named(under) => order := MayArises(under, w);
    case Pointer(target) => order := MayArises(target, w);
    case _ =>
  }

  lemma {:induction false} MayItemsArise(items: seq<GoInput>, w: Verdict) returns (order: Order)
    requires MayItems(items, w)
    ensures ItemsVerdict(items, order) == w
    decreases items, 1
  {
    hide May, VerdictIn, Denote;
    var i :| 0 <= i < |items| && May(items[i], w) && forall j | 0 <= j < i :: Denote(items[j]).Some?;
    order := MayArises(items[i], w);
    var first := items[..i + 1];
    assert first[..i] == items[..i] && first[i] == items[i];
    ItemVerdictsMay(items[..i], order);
    NotAccepted(items[i], w);
    FirstDecides(items, order, i + 1);
  }

  lemma NotAccepted(v: GoInput, w: Verdict)
    requires May(v, w)
    ensures !w.Accepts?
    decreases v
  {
    match v
    case GAnys(items) => var i :| 0 <= i < |items| && May(items[i], w); NotAccepted(items[i], w);
    case Elements(_, items) => var i :| 0 <= i < |items| && May(items[i], w); NotAccepted(items[i], w);
    case GMap(entries) => var k :| k in entries && May(entries[k], w); NotAccepted(entries[k], w);
    case MapOf(stringKeys, entries) =>
      if stringKeys { var k :| k in entries && May(entries[k], w); NotAccepted(entries[k], w); }
    case Named(under) => NotAccepted(under, w);
    case Pointer(target) => NotAccepted(target, w);
    case _ =>
  }

  lemma {:induction false} FirstDecides(items: seq<GoInput>, order: Order, n: nat)
    requires n <= |items| && !ItemsVerdict(items[..n], order).Accepts?
    ensures ItemsVerdict(items, order) == ItemsVerdict(items[..n], order)
    decreases |items|
  {
    hide VerdictIn;
    if n < |items| {
      var front := items[..|items| - 1];
      assert front[..n] == items[..n];
      FirstDecides(front, order, n);
    } else {
      assert items[..n] == items;
    }
  }

  lemma {:induction false} MayEntriesArise(v: GoInput, w: Verdict) returns (order: Order)
    requires (v.GMap? || v.MapOf?) && MayEntries(v, w)
    ensures EntriesVerdict(v, order, v.entries.Keys) == w
    decreases v, 0, 1
  {
    hide May, VerdictIn, Denote;
    var k :| k in v.entries && May(v.entries[k], w);
    var inner := MayArises(v.entries[k], w);
    order := (x, rest) => if x == v then k else inner(x, rest);
    OrderElsewhere(v.entries[k], v, order, inner);
    NotAccepted(v.entries[k], w);
    assert NextKey(order, v, v.entries.Keys) == k;
  }

  /** What each part without a value ends in, and in a list the first such part decides. */
  lemma FirstBadItemDecides(items: seq<GoInput>, i: nat, order: Order)
    requires i < |items| && (forall j | 0 <= j < i :: Denote(items[j]).Some?)
    requires Denote(items[i]).None?
    ensures VerdictIn(GAnys(items), order) == VerdictIn(items[i], order) != Accepts
    ensures forall u: nat :: VerdictIn(GUint(u), order) == if u <= 0x7FFF_FFFF_FFFF_FFFF then Accepts else Rejects
    ensures VerdictIn(Opaque, order) == Rejects
    ensures forall entries :: VerdictIn(MapOf(false, entries), order) == Rejects
    ensures forall raw :: VerdictIn(ByteKinds(false, true, raw), order) == Panics
  {
    hide May, Denote;
    VerdictsMay(items[i], order);
    ItemVerdictsMay(items[..i], order);
    assert items[..i + 1][..i] == items[..i] && items[..i + 1][i] == items[i];
    FirstDecides(items, order, i + 1);
  }

  /** `[]B{1}` with `type B uint8` panics whatever the order, behind pointers and defined types too, while the array
      `[1]B{1}` is copied. */
  lemma DefinedBytesExample(order: Order)
    ensures VerdictIn(ByteKinds(false, true, [1]), order) == Panics
    ensures VerdictIn(Pointer(Named(ByteKinds(false, true, []))), order) == Panics
    ensures Denote(ByteKinds(false, true, [1])) == None
    ensures Denote(ByteKinds(true, true, [1])) == Some(Bytes([1]))
  {
  }

  // ------------------------------------------------------------------ the algorithm

  datatype Normal = Copy(ref: Ref) | Rejected | Panicked

  /** What normalising does to memory: nothing that was there changes, and the result, if there is one, is a copy
      of the value denoted that shares no buffer with anything that was there. */
  ghost predicate Normalized(before: Objects, after: Objects, out: Normal, denoted: Option<Value>) {
    && Grows(before, after)
    && (out.Copy? <==> denoted.Some?)
    && (out.Copy? ==> Copied(after, before.Keys, out.ref, denoted.value))
  }

  function VerdictOf(out: Normal): Verdict {
    match out
    case Copy(_) => Accepts
    case Rejected => Rejects
    case Panicked => Panics
  }

  /** First the exact types of the type switch, then `reflect` on what the pointers lead to. */
  method NormalizeValue(g: GoMem, r: Ref, ghost v: GoInput) returns (out: Normal)
    requires g.Valid() && Typed(v) && Points(g.objects, r, v)
    modifies g
    ensures g.Valid() && Normalized(old(g.objects), g.objects, out, Denote(v))
    ensures !out.Copy? ==> May(v, VerdictOf(out))
    decreases v, 3
  {
    if Scalar(r) {
      out := NormalizeScalar(g, r, v);
    } else if r.RBytes? {
      out := CopyBytes(g, r.addr);
    } else if r.RFloats? {
      out := CopyFloats(g, r.addr);
    } else if r.RAnys? {
      out := NormalizeItems(g, r.addr, v, v.items);
    } else if r.RMap? {
      out := NormalizeEntries(g, r.addr, v);
    } else {
      out := NormalizeReflected(g, r, v);
    }
  }

  predicate Scalar(r: Ref) {
    r.RNil? || r.RBool? || r.RInt? || r.RUint? || r.RFloat? || r.RString?
  }

  /** Values that are themselves, integers brought to `int64`. */
  method NormalizeScalar(g: GoMem, r: Ref, ghost v: GoInput) returns (out: Normal)
    requires g.Valid() && Typed(v) && Points(g.objects, r, v) && Scalar(r)
    ensures Normalized(g.objects, g.objects, out, Denote(v))
    ensures !out.Copy? ==> May(v, VerdictOf(out))
  {
    if r.RUint? {
      out := if r.u > 0x7FFF_FFFF_FFFF_FFFF then Rejected else Copy(RInt(r.u));
    } else {
      out := Copy(r);
    }
  }

  method CopyBytes(g: GoMem, addr: nat) returns (out: Normal)
    requires g.Valid() && addr in g.objects && g.objects[addr].ByteSlice?
    modifies g
    ensures g.Valid() && Normalized(old(g.objects), g.objects, out, Some(Bytes(old(g.objects)[addr].raw)))
  {
    var a := g.New(ByteSlice(g.objects[addr].raw));
    out := Copy(RBytes(a));
  }

  method CopyFloats(g: GoMem, addr: nat) returns (out: Normal)
    requires g.Valid() && addr in g.objects && g.objects[addr].FloatSlice?
    modifies g
    ensures g.Valid() && Normalized(old(g.objects), g.objects, out, Some(Vector(old(g.objects)[addr].floats)))
  {
    var a := g.New(FloatSlice(g.objects[addr].floats));
    out := Copy(RFloats(a));
  }

  /** Follow pointers and defined types down to a kind. */
  method NormalizeReflected(g: GoMem, r: Ref, ghost v: GoInput) returns (out: Normal)
    requires g.Valid() && Typed(v) && Points(g.objects, r, v)
    modifies g
    ensures g.Valid() && Normalized(old(g.objects), g.objects, out, Denote(v))
    ensures !out.Copy? ==> May(v, VerdictOf(out))
    decreases v, 2
  {
    var rv := r;
    ghost var u := v;
    while rv.RPointer? || rv.RNilPointer? || rv.RNamed?
      invariant g.objects == old(g.objects) && g.Valid() && Points(g.objects, rv, u)
      invariant Typed(u) && Denote(u) == Denote(v) && (forall w :: May(u, w) == May(v, w)) && (u == v || u < v)
      decreases u
    {
      if rv.RNilPointer? {
        return Copy(RNil);
      }
      rv, u := if rv.RPointer? then g.objects[rv.addr].ref else rv.under, if rv.RPointer? then u.target else u.under;
    }
    out := NormalizeKind(g, rv, u);
  }

  /** The `reflect` switch on kinds. */
  method NormalizeKind(g: GoMem, rv: Ref, ghost v: GoInput) returns (out: Normal)
    requires g.Valid() && Typed(v) && Points(g.objects, rv, v)
    requires !rv.RPointer? && !rv.RNilPointer? && !rv.RNamed?
    modifies g
    ensures g.Valid() && Normalized(old(g.objects), g.objects, out, Denote(v))
    ensures !out.Copy? ==> May(v, VerdictOf(out))
    decreases v, 1
  {
    match rv
    case RBytes(addr) => out := CopyBytes(g, addr);
    case RByteKinds(fixed, defined, addr) =>
      if !fixed && defined {
        return Panicked;  // reflect.Copy
      }
      out := CopyBytes(g, addr);
    case RFloats(addr) => out := CopyFloats(g, addr);
    case RFloatKinds(_, addr) => out := CopyFloats(g, addr);
    case RAnys(addr) => out := NormalizeItems(g, addr, v, v.items);
    case RElements(_, addr) => out := NormalizeItems(g, addr, v, v.items);
    case RMap(addr) => out := NormalizeEntries(g, addr, v);
    case RMapOf(stringKeys, addr) =>
      if !stringKeys {
        return Rejected;
      }
      out := NormalizeEntries(g, addr, v);
    case ROpaque => out := Rejected;
    case _ => out := NormalizeScalar(g, rv, v);
  }

  /** The slice under construction holds copies of the first `i` items, each apart from everything in `base`. */
  ghost predicate ItemsCopied(m: Objects, base: set<nat>, a: nat, items: seq<GoInput>, i: nat) {
    && a in m && m[a].AnySlice? && i <= |m[a].items| == |items|
    && forall j | 0 <= j < i :: Denote(items[j]).Some? && Copied(m, base, m[a].items[j], Denote(items[j]).value)
  }

  method NormalizeItems(g: GoMem, addr: nat, ghost v: GoInput, ghost items: seq<GoInput>) returns (out: Normal)
    requires g.Valid() && PointsItems(g.objects, addr, items)
    requires forall i | 0 <= i < |items| :: Typed(items[i]) && items[i] < v
    modifies g
    ensures g.Valid()
    ensures Normalized(old(g.objects), g.objects, out, if Storable(items) then Some(List(DenoteAll(items))) else None)
    ensures !out.Copy? ==> MayItems(items, VerdictOf(out))
    decreases v, 0
  {
    hide Denote, Typed, Points, Copied, May;
    ghost var before := g.objects;
    var n := |g.objects[addr].items|;
    var a := g.New(AnySlice(seq(n, _ => RNil)));
    ghost var base := before.Keys + {a};
    for i := 0 to n
      invariant g.Valid() && Grows(before, g.objects)
      invariant ItemsCopied(g.objects, base, a, items, i)
    {
      ghost var m := g.objects;
      PointsStays(before, m, before[addr].items[i], items[i]);
      var normalized := NormalizeValue(g, g.objects[addr].items[i], items[i]);
      if !normalized.Copy? {
        return normalized;
      }
      ghost var mid := g.objects;
      g.SetItem(a, i, normalized.ref);
      OneMoreItem(m, mid, g.objects, base, a, items, i, normalized.ref);
    }
    ItemsDone(g.objects, before.Keys, a, items);
    out := Copy(RAnys(a));
  }

  lemma OneMoreItem(m: Objects, mid: Objects, m': Objects, base: set<nat>, a: nat, items: seq<GoInput>, i: nat, r: Ref)
    requires ItemsCopied(m, base, a, items, i) && i < |items| && Denote(items[i]).Some? && a in base && base <= m.Keys
    requires Normalized(m, mid, Copy(r), Denote(items[i]))
    requires m' == mid[a := AnySlice(m[a].items[i := r])]
    ensures ItemsCopied(m', base, a, items, i + 1)
  {
    hide Denote, Copied;
    CopiedFromLess(mid, m.Keys, base, r, Denote(items[i]).value);
    CopyIsIndependent(mid, m', base, r, Denote(items[i]).value);
    forall j | 0 <= j < i
      ensures Copied(m', base, m'[a].items[j], Denote(items[j]).value)
    {
      CopyIsIndependent(m, m', base, m[a].items[j], Denote(items[j]).value);
    }
  }

  lemma ItemsDone(m: Objects, known: set<nat>, a: nat, items: seq<GoInput>)
    requires ItemsCopied(m, known + {a}, a, items, |items|) && a !in known
    ensures Storable(items) && Copied(m, known, RAnys(a), List(DenoteAll(items)))
  {
    hide Denote;
    forall j | 0 <= j < |items|
      ensures Denote(items[j]).Some? && Copied(m, known, m[a].items[j], Denote(items[j]).value)
    {
      CopiedFromLess(m, known + {a}, known, m[a].items[j], Denote(items[j]).value);
    }
  }

  lemma TypedEntry(v: GoInput, key: seq<byte>)
    requires Typed(v) && (v.GMap? || v.MapOf?) && key in v.entries
    ensures Typed(v.entries[key])
  {
  }

  /** The map under construction holds copies of the entries in `done`, each apart from everything in `base`. */
  ghost predicate EntriesCopied(m: Objects, base: set<nat>, a: nat, v: GoInput, done: set<seq<byte>>) {
    && (v.GMap? || v.MapOf?) && a in m && m[a].Table? && m[a].entries.Keys == done && done <= v.entries.Keys
    && forall k | k in done ::
         Denote(v.entries[k]).Some? && Copied(m, base, m[a].entries[k], Denote(v.entries[k]).value)
  }

  /** The runtime may enumerate the keys in any order. */
  method NormalizeEntries(g: GoMem, addr: nat, ghost v: GoInput) returns (out: Normal)
    requires g.Valid() && Typed(v) && (v.GMap? || v.MapOf?)
    requires addr in g.objects && g.objects[addr].Table? && PointsEntries(g.objects, g.objects[addr].entries, v)
    modifies g
    ensures g.Valid()
    ensures Normalized(old(g.objects), g.objects, out, if StorableEntries(v) then Some(Map(DenoteEntries(v))) else None)
    ensures !out.Copy? ==> MayEntries(v, VerdictOf(out))
    decreases v, 0, 1
  {
    hide Denote, Typed, Points, Copied, EntriesCopied, May;
    ghost var before := g.objects;
    var a := g.New(Table(map[]));
    ghost var base := before.Keys + {a};
    var rest := g.objects[addr].entries.Keys;
    NoEntriesYet(g.objects, base, a, v);
    assert v.entries.Keys - rest == {};
    while rest != {}
      invariant g.Valid() && Grows(before, g.objects) && rest <= v.entries.Keys && base <= g.objects.Keys
      invariant EntriesCopied(g.objects, base, a, v, v.entries.Keys - rest)
      decreases |rest|
    {
      var key :| key in rest;
      var normalized := NormalizeEntry(g, addr, a, key, v, before, v.entries.Keys - rest);
      if !normalized.Copy? {
        return normalized;
      }
      assert v.entries.Keys - rest + {key} == v.entries.Keys - (rest - {key});
      rest := rest - {key};
    }
    assert v.entries.Keys - {} == v.entries.Keys;
    EntriesDone(g.objects, before.Keys, a, v);
    out := Copy(RMap(a));
  }

  /** One entry of the map at `addr`, into the map under construction at `a`. */
  method NormalizeEntry(g: GoMem, addr: nat, a: nat, key: seq<byte>, ghost v: GoInput, ghost before: Objects,
                        ghost done: set<seq<byte>>) returns (normalized: Normal)
    requires g.Valid() && Typed(v) && (v.GMap? || v.MapOf?) && key in v.entries && a !in before
    requires addr in before && before[addr].Table? && PointsEntries(before, before[addr].entries, v)
    requires Grows(before, g.objects) && before.Keys + {a} <= g.objects.Keys
    requires EntriesCopied(g.objects, before.Keys + {a}, a, v, done)
    modifies g
    ensures g.Valid() && Grows(before, g.objects) && before.Keys + {a} <= g.objects.Keys
    ensures normalized.Copy? <==> Denote(v.entries[key]).Some?
    ensures !normalized.Copy? ==> May(v.entries[key], VerdictOf(normalized))
    ensures normalized.Copy? ==> EntriesCopied(g.objects, before.Keys + {a}, a, v, done + {key})
    decreases v, 0, 0
  {
    hide Denote, Typed, Points, Copied, May;
    ghost var m := g.objects;
    TypedEntry(v, key);
    PointsStays(before, m, before[addr].entries[key], v.entries[key]);
    normalized := NormalizeValue(g, g.objects[addr].entries[key], v.entries[key]);
    if normalized.Copy? {
      ghost var mid := g.objects;
      g.SetEntry(a, key, normalized.ref);
      OneMoreEntry(m, mid, g.objects, before.Keys + {a}, a, v, done, key, normalized.ref);
    }
  }

  lemma NoEntriesYet(m: Objects, base: set<nat>, a: nat, v: GoInput)
    requires (v.GMap? || v.MapOf?) && a in m && m[a] == Table(map[])
    ensures EntriesCopied(m, base, a, v, {})
  {
  }

  lemma OneMoreEntry(m: Objects, mid: Objects, m': Objects, base: set<nat>, a: nat, v: GoInput, done: set<seq<byte>>,
                     key: seq<byte>, r: Ref)
    requires EntriesCopied(m, base, a, v, done) && key in v.entries && Denote(v.entries[key]).Some?
    requires a in base && base <= m.Keys && Normalized(m, mid, Copy(r), Denote(v.entries[key]))
    requires m' == mid[a := Table(m[a].entries[key := r])]
    ensures EntriesCopied(m', base, a, v, done + {key})
  {
    hide Denote, Copied;
    CopiedFromLess(mid, m.Keys, base, r, Denote(v.entries[key]).value);
    CopyIsIndependent(mid, m', base, r, Denote(v.entries[key]).value);
    forall k | k in done
      ensures Copied(m', base, m[a].entries[k], Denote(v.entries[k]).value)
    {
      CopyIsIndependent(m, m', base, m[a].entries[k], Denote(v.entries[k]).value);
    }
  }

  lemma EntriesDone(m: Objects, known: set<nat>, a: nat, v: GoInput)
    requires (v.GMap? || v.MapOf?) && EntriesCopied(m, known + {a}, a, v, v.entries.Keys) && a !in known
    ensures StorableEntries(v) && Copied(m, known, RMap(a), Map(DenoteEntries(v)))
  {
    hide Denote;
    forall k | k in v.entries
      ensures Denote(v.entries[k]).Some? && Copied(m, known, m[a].entries[k], Denote(v.entries[k]).value)
    {
      CopiedFromLess(m, known + {a}, known, m[a].entries[k], Denote(v.entries[k]).value);
    }
  }

  // ------------------------------------------------------------------ properties

  /** A normalised value, seen as a Go value again. */
  function Embed(v: Value): GoInput
    decreases v
  {
    match v
    case Null => Nil
    case Bool(b) => GBool(b)
    case Int(i) => GInt(i)
    case Float(bits) => GFloat(bits)
    case Str(text) => GString(text)
    case Bytes(raw) => GBytes(raw)
    case Vector(floats) => GFloats(floats)
    case List(items) => GAnys(seq(|items|, i requires 0 <= i < |items| => Embed(items[i])))
    case Map(entries) => GMap(map k | k in entries :: Embed(entries[k]))
  }

  /** Normalising a normalised value changes nothing. */
  lemma {:induction false} NormalizeIdempotent(v: Value)
    ensures Denote(Embed(v)) == Some(v)
    decreases v
  {
    match v
    case List(items) =>
      var g := Embed(v);
      forall i | 0 <= i < |items|
        ensures Denote(g.items[i]) == Some(items[i])
      {
        NormalizeIdempotent(items[i]);
      }
      assert Storable(g.items) && DenoteAll(g.items) == items;
    case Map(entries) =>
      var g := Embed(v);
      forall k | k in entries
        ensures Denote(g.entries[k]) == Some(entries[k])
      {
        NormalizeIdempotent(entries[k]);
      }
      assert StorableEntries(g) && DenoteEntries(g) == entries;
    case _ =>
  }

  /** What a Go value is behind any pointers and defined types. */
  function Bare(v: GoInput): (u: GoInput)
    ensures !u.Named? && !u.Pointer?
    decreases v
  {
    match v
    case Named(under) => Bare(under)
    case Pointer(target) => Bare(target)
    case _ => v
  }

  /** The Go value holds the same data as the property value, read from the property value's side: nothing of a
      number, a text, a buffer, a list or a map is lost, added or changed. */
  ghost predicate SameData(v: GoInput, w: Value)
    decreases w
  {
    var u := Bare(v);
    match w
    case List(items) =>
      && (u.GAnys? || u.Elements?) && |u.items| == |items|
      && forall i | 0 <= i < |items| :: SameData(u.items[i], items[i])
    case Map(entries) =>
      && (u.GMap? || (u.MapOf? && u.stringKeys)) && u.entries.Keys == entries.Keys
      && forall k | k in entries :: SameData(u.entries[k], entries[k])
    case _ => SameLeaf(u, w)
  }

  ghost predicate SameLeaf(u: GoInput, w: Value)
    requires !w.List? && !w.Map?
  {
    match w
    case Null => u in {Nil, NilPointer}
    case Bool(b) => u == GBool(b)
    case Int(i) => u == GInt(i) || (u.GUint? && u.u == i && i <= 0x7FFF_FFFF_FFFF_FFFF)
    case Float(bits) => u == GFloat(bits)
    case Str(text) => u == GString(text)
    case Bytes(raw) =>
      || u == GBytes(raw)
      || (u.ByteKinds? && u.raw == raw && (u.fixed || !u.defined))
    case Vector(floats) => u == GFloats(floats) || (u.FloatKinds? && u.floats == floats)
  }

  lemma {:induction false} BareDenotes(v: GoInput)
    ensures Denote(v) == Denote(Bare(v)) && (Bare(v) == v || Bare(v) < v)
    decreases v
  {
    match v
    case Named(under) => BareDenotes(under);
    case Pointer(target) => BareDenotes(target);
    case _ =>
  }

  lemma LeafDenotes(u: GoInput, w: Value)
    requires !u.Named? && !u.Pointer? && !w.List? && !w.Map?
    ensures Denote(u) == Some(w) <==> SameLeaf(u, w)
  {
    hide Storable, StorableEntries;
  }

  lemma ListDenotes(u: GoInput, vs: seq<Value>)
    requires !u.Named? && !u.Pointer?
    ensures Denote(u) == Some(List(vs)) <==>
            && (u.GAnys? || u.Elements?) && |u.items| == |vs|
            && forall i | 0 <= i < |vs| :: Denote(u.items[i]) == Some(vs[i])
  {
    hide StorableEntries;
    if u.GAnys? || u.Elements? {
      ItemsDenote(u.items, vs);
    }
  }

  lemma ItemsDenote(items: seq<GoInput>, vs: seq<Value>)
    ensures Storable(items) && DenoteAll(items) == vs <==>
            |items| == |vs| && forall i | 0 <= i < |vs| :: Denote(items[i]) == Some(vs[i])
  {
    hide Denote;
  }

  lemma MapDenotes(u: GoInput, m: map<seq<byte>, Value>)
    requires !u.Named? && !u.Pointer?
    ensures Denote(u) == Some(Map(m)) <==>
            && (u.GMap? || (u.MapOf? && u.stringKeys)) && u.entries.Keys == m.Keys
            && forall k | k in m :: Denote(u.entries[k]) == Some(m[k])
  {
    hide Storable;
    if u.GMap? || u.MapOf? {
      EntriesDenote(u, m);
    }
  }

  lemma EntriesDenote(u: GoInput, m: map<seq<byte>, Value>)
    requires u.GMap? || u.MapOf?
    ensures StorableEntries(u) && DenoteEntries(u) == m <==>
            u.entries.Keys == m.Keys && forall k | k in m :: Denote(u.entries[k]) == Some(m[k])
  {
    hide Denote;
  }

  /** A Go value stands for exactly the property value that holds the same data. */
  lemma {:induction false} DenotesExactly(v: GoInput, w: Value)
    ensures Denote(v) == Some(w) <==> SameData(v, w)
    decreases w, 2
  {
    hide Denote, Bare, SameLeaf, SameData;
    match w
    case List(items) => ListExactly(v, items);
    case Map(entries) => MapExactly(v, entries);
    case _ => LeafExactly(v, w);
  }

  lemma LeafExactly(v: GoInput, w: Value)
    requires !w.List? && !w.Map?
    ensures Denote(v) == Some(w) <==> SameData(v, w)
  {
    hide Denote, Bare, SameLeaf;
    BareDenotes(v);
    LeafDenotes(Bare(v), w);
  }

  lemma {:induction false} ListExactly(v: GoInput, items: seq<Value>)
    ensures Denote(v) == Some(List(items)) <==> SameData(v, List(items))
    decreases List(items), 1
  {
    hide Denote, Bare;
    var u := Bare(v);
    BareDenotes(v);
    ListDenotes(u, items);
    if (u.GAnys? || u.Elements?) && |u.items| == |items| { ItemsSame(u.items, items); }
  }

  lemma {:induction false} MapExactly(v: GoInput, entries: map<seq<byte>, Value>)
    ensures Denote(v) == Some(Map(entries)) <==> SameData(v, Map(entries))
    decreases Map(entries), 1
  {
    hide Denote, Bare;
    var u := Bare(v);
    BareDenotes(v);
    MapDenotes(u, entries);
    if (u.GMap? || u.MapOf?) && u.entries.Keys == entries.Keys { EntriesSame(u.entries, entries); }
  }

  lemma {:induction false} ItemsSame(us: seq<GoInput>, items: seq<Value>)
    requires |us| == |items|
    ensures forall i | 0 <= i < |items| :: Denote(us[i]) == Some(items[i]) <==> SameData(us[i], items[i])
    decreases items, 0
  {
    hide Denote, SameData;
    forall i | 0 <= i < |items| { DenotesExactly(us[i], items[i]); }
  }

  lemma {:induction false} EntriesSame(us: map<seq<byte>, GoInput>, entries: map<seq<byte>, Value>)
    requires us.Keys == entries.Keys
    ensures forall k | k in entries :: Denote(us[k]) == Some(entries[k]) <==> SameData(us[k], entries[k])
    decreases Map(entries), 0
  {
    hide Denote, SameData;
    forall k | k in entries { DenotesExactly(us[k], entries[k]); }
  }

  /** Go values that hold the same data in different types are stored alike. */
  lemma ScalarsAlike(v: GoInput, u: nat, raw: seq<byte>, floats: seq<nat>, fixed: bool)
    ensures Denote(NilPointer) == Denote(Nil) == Some(Null)
    ensures Denote(Pointer(v)) == Denote(Named(v)) == Denote(v)
    ensures u <= 0x7FFF_FFFF_FFFF_FFFF ==> Denote(GUint(u)) == Denote(GInt(u)) == Some(Int(u))
    ensures Denote(ByteKinds(fixed, false, raw)) == Denote(ByteKinds(true, true, raw)) == Denote(GBytes(raw))
    ensures Denote(FloatKinds(fixed, floats)) == Denote(GFloats(floats)) == Some(Vector(floats))
  {
    hide Storable, StorableEntries;
    assert Denote(Pointer(v)) == Denote(v) && Denote(Named(v)) == Denote(v);
  }

  /** Lists and maps too. */
  lemma ContainersAlike(fixed: bool, items: seq<GoInput>, entries: map<seq<byte>, GoInput>)
    ensures Denote(GoInput.Elements(fixed, items)) == Denote(GAnys(items))
    ensures Denote(MapOf(true, entries)) == Denote(GMap(entries))
  {
    var (list, anys) := (GoInput.Elements(fixed, items), GAnys(items));
    var (other, table) := (MapOf(true, entries), GMap(entries));
    hide Storable, StorableEntries, DenoteEntries, DenoteAll;
    assert Denote(list) == Denote(anys);
    KindOfContainer(other);
    KindOfContainer(table);
    hide Denote;
    forall m
      ensures Denote(other) == Some(Map(m)) <==> Denote(table) == Some(Map(m))
    {
      MapDenotes(other, m);
      MapDenotes(table, m);
    }
    if Denote(table).Some? {
      assert Denote(other) == Some(Map(Denote(table).value.entries));
    }
  }

  lemma KindOfContainer(v: GoInput)
    requires v.GMap? || v.MapOf?
    ensures Denote(v).Some? ==> Denote(v).value.Map?
  {
  }

  /** Normalising is closed: what it returns is a value the encoder accepts, with integers in range. */
  lemma {:induction false} NormalizeClosed(v: GoInput)
    requires Typed(v) && Denote(v).Some?
    ensures GoValue(Denote(v).value)
    decreases v
  {
    match v
    case GAnys(items) =>
      forall i | 0 <= i < |items| ensures GoValue(Denote(items[i]).value) { NormalizeClosed(items[i]); }
    case Elements(_, items) =>
      forall i | 0 <= i < |items| ensures GoValue(Denote(items[i]).value) { NormalizeClosed(items[i]); }
    case GMap(entries) => EntriesClosed(v);
    case MapOf(_, entries) => EntriesClosed(v);
    case Named(under) => NormalizeClosed(under);
    case Pointer(target) => NormalizeClosed(target);
    case _ =>
  }

  lemma EntriesClosed(v: GoInput)
    requires Typed(v) && (v.GMap? || v.MapOf?) && StorableEntries(v)
    ensures GoValue(Map(DenoteEntries(v)))
    decreases v, 0
  {
    var m := DenoteEntries(v);
    assert |m| == |m.Keys| && |v.entries| == |v.entries.Keys|;
    forall k | k in m
      ensures |k| <= MAX_ALLOC && GoValue(m[k])
    {
      NormalizeClosed(v.entries[k]);
    }
  }

  /** When there is nothing to store: exactly when some part of the value, behind any pointers and
      defined types, is an unsigned integer above int64, a slice of a defined byte type, a map whose keys are not
      strings, or of a kind that has no native form. */
  predicate HasBadPart(v: GoInput)
    decreases v
  {
    match v
    case GUint(u) => u >= 0x8000_0000_0000_0000
    case ByteKinds(fixed, defined, _) => !fixed && defined
    case GAnys(items) => exists i | 0 <= i < |items| :: HasBadPart(items[i])
    case Elements(_, items) => exists i | 0 <= i < |items| :: HasBadPart(items[i])
    case GMap(entries) => exists k | k in entries :: HasBadPart(entries[k])
    case MapOf(stringKeys, entries) => !stringKeys || exists k | k in entries :: HasBadPart(entries[k])
    case Named(under) => HasBadPart(under)
    case Pointer(target) => HasBadPart(target)
    case Opaque => true
    case _ => false
  }

  lemma {:induction false} RefusedExactly(v: GoInput)
    ensures Denote(v).None? <==> HasBadPart(v)
    decreases v
  {
    match v
    case GAnys(items) => forall i | 0 <= i < |items| { RefusedExactly(items[i]); }
    case Elements(_, items) => forall i | 0 <= i < |items| { RefusedExactly(items[i]); }
    case GMap(entries) => forall k | k in entries { RefusedExactly(entries[k]); }
    case MapOf(_, entries) => forall k | k in entries { RefusedExactly(entries[k]); }
    case Named(under) => RefusedExactly(under);
    case Pointer(target) => RefusedExactly(target);
    case _ =>
  }

  /** Some enumeration of the maps makes normalising panic exactly when a slice of a defined byte type is met before
      any other part that has no value, where any entry of a map may be met first. */
  lemma PanicsExactly(v: GoInput)
    ensures (exists order :: VerdictIn(v, order) == Panics) <==> May(v, Panics)
  {
    if May(v, Panics) {
      var order := MayArises(v, Panics);
      assert VerdictIn(v, order) == Panics;
    } else {
      forall order
        ensures VerdictIn(v, order) != Panics
      {
        VerdictsMay(v, order);
      }
    }
  }

  /** Likewise for an error: the other parts without value. */
  lemma RejectedExactly(v: GoInput)
    ensures (exists order :: VerdictIn(v, order) == Rejects) <==> May(v, Rejects)
    ensures Denote(v).None? <==> May(v, Rejects) || May(v, Panics)
  {
    var any: Order := (x, rest) => [];
    VerdictsMay(v, any);
    if May(v, Rejects) {
      var order := MayArises(v, Rejects);
      assert VerdictIn(v, order) == Rejects;
      VerdictsMay(v, order);
    } else {
      forall order
        ensures VerdictIn(v, order) != Rejects
      {
        VerdictsMay(v, order);
      }
    }
    if May(v, Panics) {
      var order := MayArises(v, Panics);
      VerdictsMay(v, order);
    }
  }
}
