/** The Go binding's encoder, bindings/go/internal/cgo/value.go: `fillValue`. */
module GoEncode {
  import opened Memory
  import opened NativeValue
  import opened NativeHeap
  import opened NativeEncode

  /** The invariants of Go's own types: machine integers, float bits, bounded lengths. */
  ghost predicate GoValue(v: Value)
    decreases v
  {
    match v
    case Int(i) => IsInt64(i)
    case Float(bits) => bits < WORD
    case Str(text) => |text| <= MAX_ALLOC
    case Bytes(raw) => |raw| <= MAX_ALLOC
    case Vector(floats) => |floats| <= MAX_ALLOC && forall i | 0 <= i < |floats| :: floats[i] < 0x1_0000_0000
    case List(items) => |items| <= MAX_ALLOC && forall i | 0 <= i < |items| :: GoValue(items[i])
    case Map(entries) =>
      |entries| <= MAX_ALLOC && forall k | k in entries :: |k| <= MAX_ALLOC && GoValue(entries[k])
    case _ => true
  }

  // ------------------------------------------------------------------ lattice_go_value_set_*

  function CellBytes(tag: nat, payload: seq<byte>): (s: seq<byte>)
    requires |payload| <= 16
    ensures |s| == 24
  {
    Le(tag, 4) + seq(4, _ => 0) + payload + seq(16 - |payload|, _ => 0)
  }

  lemma CellParts(m: Mem, a: int, tag: nat, payload: seq<byte>)
    requires |payload| <= 16 && tag <= TAG_MAP && Holds(m, a, CellBytes(tag, payload))
    ensures U32(m, a, tag) && Holds(m, a + 8, payload)
  {
    var s := CellBytes(tag, payload);
    HoldsPart(m, a, s, 0, Le(tag, 4));
    HoldsPart(m, a, s, 8, payload);
  }

  /** Zero the cell, then set its tag and its union. */
  method SetCell(alloc: CAlloc, dst: nat, tag: nat, payload: seq<byte>)
    requires alloc.heap.Valid() && |payload| <= 16 && tag <= TAG_MAP
    requires Allocated(alloc.heap.live, dst, 24) && Unwritten(alloc.heap.mem, dst, 24)
    modifies alloc.heap`mem
    ensures alloc.heap.Valid()
    ensures U32(alloc.heap.mem, dst, tag) && Holds(alloc.heap.mem, dst + 8, payload)
    ensures Effect(old(alloc.Now()), alloc.Now(), dst, 24)
  {
    var s := CellBytes(tag, payload);
    StoreEffect(alloc.Now(), dst, s);
    StoreHolds(alloc.heap.mem, dst, s);
    alloc.heap.Write(dst, s);
    CellParts(alloc.heap.mem, dst, tag, payload);
  }

  /** Fill the cell at `dst` with `v`. On success the cell holds an encoding of `v` and the blocks
      acquired are exactly the pointers in it; on failure some blocks may have been acquired, all of
      them recorded. Either way nothing outside the cell that was live before is touched. */
  method FillValue(alloc: CAlloc, dst: nat, v: Value) returns (failed: bool, ghost img: Img)
    requires FreshCell(alloc.heap, dst) && GoValue(v)
    modifies alloc, alloc.heap
    ensures alloc.heap.Valid()
    ensures Effect(old(alloc.Now()), alloc.Now(), dst, 24)
    ensures !failed ==> At(alloc.heap.mem, dst, img) && Encodes(img, v)
    ensures !failed ==> alloc.ptrs == old(alloc.ptrs) + Pointers(img)
    decreases v, 4
  {
    match v
    case Null =>
      SetCell(alloc, dst, TAG_NULL, []);
      failed, img := false, INull;
    case Bool(b) =>
      SetCell(alloc, dst, TAG_BOOL, [if b then 1 else 0]);
      failed, img := false, IBool(b);
    case Int(i) =>
      SetCell(alloc, dst, TAG_INT, Le(ToBits64(i), 8));
      failed, img := false, IInt(ToBits64(i));
    case Float(bits) =>
      SetCell(alloc, dst, TAG_FLOAT, Le(bits, 8));
      failed, img := false, IFloat(bits);
    case Str(text) =>
      ghost var buf;
      failed, buf := FillBuffer(alloc, dst, TAG_STRING, text);
      img := IStr(buf);
    case Bytes(raw) =>
      ghost var buf;
      failed, buf := FillBuffer(alloc, dst, TAG_BYTES, raw);
      img := IBytes(buf);
    case Vector(floats) =>
      failed, img := FillVector(alloc, dst, floats);
    case List(items) =>
      failed, img := FillList(alloc, dst, v);
    case Map(entries) =>
      failed, img := FillMap(alloc, dst, v);
  }

  method FillBuffer(alloc: CAlloc, dst: nat, tag: nat, data: seq<byte>) returns (failed: bool, ghost buf: Buf)
    requires FreshCell(alloc.heap, dst) && |data| <= MAX_ALLOC && tag <= TAG_MAP
    modifies alloc, alloc.heap
    ensures alloc.heap.Valid()
    ensures Effect(old(alloc.Now()), alloc.Now(), dst, 24)
    ensures !failed ==> U32(alloc.heap.mem, dst, tag) && BufAt(alloc.heap.mem, dst + 8, buf)
    ensures !failed ==> BufOf(buf, data) && alloc.ptrs == old(alloc.ptrs) + NonNull(buf.ptr)
  {
    ghost var start := alloc.Now();
    var ptr;
    ptr, failed := alloc.Bytes(data);
    ghost var mid := alloc.Now();
    buf := Buf(ptr, |data|, data);
    EffectWiden(start, mid, dst, 24);
    if failed {
      return;
    }
    AllocatedStays(start, mid, 0, 0, dst, 24);
    UnwrittenStays(start, mid, 0, 0, dst, 24);
    SetCell(alloc, dst, tag, Le(ptr, 8) + Le(|data|, 8));
    TwoWords(alloc.heap.mem, dst + 8, ptr, |data|);
    EffectTrans(start, mid, alloc.Now(), dst, 24, dst, 24);
  }

  method FillVector(alloc: CAlloc, dst: nat, floats: seq<nat>) returns (failed: bool, ghost img: Img)
    requires FreshCell(alloc.heap, dst) && GoValue(Vector(floats))
    modifies alloc, alloc.heap
    ensures alloc.heap.Valid()
    ensures Effect(old(alloc.Now()), alloc.Now(), dst, 24)
    ensures !failed ==> At(alloc.heap.mem, dst, img) && Encodes(img, Vector(floats))
    ensures !failed ==> alloc.ptrs == old(alloc.ptrs) + Pointers(img)
  {
    ghost var start := alloc.Now();
    var ptr := 0;
    failed := false;
    if |floats| > 0 {
      ptr, failed := alloc.Bytes(FloatBytes(floats));
    }
    ghost var mid := alloc.Now();
    var dims := |floats| % 0x1_0000_0000;
    img := IVector(ptr, dims, floats[..dims]);
    EffectNone(start, 0, 0);
    EffectWiden(start, mid, dst, 24);
    if failed {
      return;
    }
    AllocatedStays(start, mid, 0, 0, dst, 24);
    UnwrittenStays(start, mid, 0, 0, dst, 24);
    SetCell(alloc, dst, TAG_VECTOR, Le(ptr, 8) + Le(dims, 4));
    EffectTrans(start, mid, alloc.Now(), dst, 24, dst, 24);
    VectorAt(mid.mem, alloc.heap.mem, dst, ptr, dims, floats);
  }

  method FillList(alloc: CAlloc, dst: nat, v: Value) returns (failed: bool, ghost img: Img)
    requires FreshCell(alloc.heap, dst) && GoValue(v) && v.List?
    modifies alloc, alloc.heap
    ensures alloc.heap.Valid()
    ensures Effect(old(alloc.Now()), alloc.Now(), dst, 24)
    ensures !failed ==> At(alloc.heap.mem, dst, img) && Encodes(img, v)
    ensures !failed ==> alloc.ptrs == old(alloc.ptrs) + Pointers(img)
    decreases v, 3
  {
    hide Effect, At, Encodes, Holds, Le, Extends, Owned, Allocated, Unwritten, Outside, CHeap.Valid;
    ghost var start := alloc.Now();
    var n := |v.items|;
    img := INull;
    var hdr;
    ghost var first, elems;
    hdr, failed, first, elems := FillListHeader(alloc, v);
    CellUntouched(start, alloc.Now(), dst);
    if failed {
      return;
    }
    ghost var mid := alloc.Now();
    SetCell(alloc, dst, TAG_LIST, Le(hdr, 8));
    EffectTrans(start, mid, alloc.Now(), dst, 24, dst, 24);
    EffectExtends(mid, alloc.Now(), dst, 24);
    img := IList(hdr, first, n, elems);
    ListAt(mid.mem, alloc.heap.mem, dst, hdr, first, elems, v.items);
  }

  /** The list struct and its items: `items` is set only when there are some, `len` always. */
  method FillListHeader(alloc: CAlloc, v: Value)
    returns (hdr: nat, failed: bool, ghost first: Field, ghost elems: seq<Img>)
    requires alloc.heap.Valid() && GoValue(v) && v.List?
    modifies alloc, alloc.heap
    ensures alloc.heap.Valid()
    ensures Effect(old(alloc.Now()), alloc.Now(), 0, 0)
    ensures !failed ==> 0 < hdr < WORD && HeaderAt(alloc.heap.mem, hdr, first, |v.items|, |elems|, 24)
    ensures !failed ==> ItemsAt(alloc.heap.mem, first.Ptr(), elems, v.items)
    ensures !failed ==> alloc.ptrs == old(alloc.ptrs) + NonNull(hdr) + NonNull(first.Ptr()) + ElemPointers(elems)
    decreases v, 2
  {
    hide Effect, At, Encodes, Holds, Le, Extends, Owned, Allocated, Unwritten, Outside, CHeap.Valid;
    ghost var start := alloc.Now();
    first, elems := Unset, [];
    hdr, failed := alloc.Malloc(16);
    if failed {
      return;
    }
    ghost var mid := alloc.Now();
    if |v.items| > 0 {
      var p;
      p, failed, elems := FillItems(alloc, v);
      EffectTrans(start, mid, alloc.Now(), 0, 0, 0, 0);
      if failed {
        return;
      }
      first := Set(p);
      AllocatedStays(mid, alloc.Now(), 0, 0, hdr, 16);
      UnwrittenStays(mid, alloc.Now(), 0, 0, hdr, 16);
      mid := alloc.Now();
      HeaderParts(start.live, mid, hdr);
      SetWord(alloc, hdr, p);
      EffectTrans(start, mid, alloc.Now(), 0, 0, hdr, 8);
      EffectExtends(mid, alloc.Now(), hdr, 8);
      ItemsAtExtends(mid.mem, alloc.heap.mem, p, elems, v.items);
      AllocatedStays(mid, alloc.Now(), hdr, 8, hdr + 8, 8);
      UnwrittenStays(mid, alloc.Now(), hdr, 8, hdr + 8, 8);
      mid := alloc.Now();
    } else {
      HeaderParts(start.live, mid, hdr);
    }
    SetWord(alloc, hdr + 8, |v.items|);
    EffectTrans(start, mid, alloc.Now(), 0, 0, hdr + 8, 8);
    EffectExtends(mid, alloc.Now(), hdr + 8, 8);
    ItemsAtExtends(mid.mem, alloc.heap.mem, first.Ptr(), elems, v.items);
    HeaderFieldExtends(mid.mem, alloc.heap.mem, hdr, first);
  }

  method FillItems(alloc: CAlloc, v: Value) returns (p: nat, failed: bool, ghost elems: seq<Img>)
    requires alloc.heap.Valid() && GoValue(v) && v.List? && v.items != []
    modifies alloc, alloc.heap
    ensures alloc.heap.Valid()
    ensures Effect(old(alloc.Now()), alloc.Now(), 0, 0)
    ensures !failed ==> 0 < p && p + 24 * |v.items| <= WORD && ItemsAt(alloc.heap.mem, p, elems, v.items)
    ensures !failed ==> alloc.ptrs == old(alloc.ptrs) + NonNull(p) + ElemPointers(elems)
    decreases v, 1
  {
    hide Effect, At, Encodes, Holds, Le, Extends, Owned, Allocated, Unwritten, Outside, CHeap.Valid;
    hide GoValue, ItemsAt, Pointers, ElemPointers;
    ghost var start := alloc.Now();
    var n := |v.items|;
    elems := [];
    p, failed := alloc.Malloc(24 * n);
    if failed {
      return;
    }
    ItemsAtNone(alloc.heap.mem, p, v.items);
    var i := 0;
    while i < n
      invariant 0 <= i <= n
      invariant alloc.heap.Valid() && Effect(start, alloc.Now(), 0, 0)
      invariant Allocated(alloc.heap.live, ItemAddr(p, i), 24 * (n - i))
      invariant Unwritten(alloc.heap.mem, ItemAddr(p, i), 24 * (n - i))
      invariant ItemsAt(alloc.heap.mem, p, elems, v.items[..i])
      invariant alloc.ptrs == old(alloc.ptrs) + NonNull(p) + ElemPointers(elems)
    {
      ghost var mid := alloc.Now();
      PartOfRange(start.live, mid.mem, p, 24 * n, ItemAddr(p, i), 24);
      ghost var ps;
      failed, elems, ps := FillItem(alloc, p, i, v, elems);
      EffectTrans(start, mid, alloc.Now(), 0, 0, ItemAddr(p, i), 24);
      if failed {
        return;
      }
      i := i + 1;
    }
    assert v.items[..n] == v.items;
  }

  /** Item `i`: only its own cell is written, so the items before it stay and those after stay fresh. */
  method FillItem(alloc: CAlloc, p: nat, i: nat, v: Value, ghost done: seq<Img>)
    returns (failed: bool, ghost elems: seq<Img>, ghost ps: seq<nat>)
    requires alloc.heap.Valid() && GoValue(v) && v.List? && i < |v.items|
    requires Allocated(alloc.heap.live, ItemAddr(p, i), 24 * (|v.items| - i))
    requires Unwritten(alloc.heap.mem, ItemAddr(p, i), 24 * (|v.items| - i))
    requires ItemsAt(alloc.heap.mem, p, done, v.items[..i])
    modifies alloc, alloc.heap
    ensures alloc.heap.Valid()
    ensures Effect(old(alloc.Now()), alloc.Now(), ItemAddr(p, i), 24)
    ensures !failed ==> Allocated(alloc.heap.live, ItemAddr(p, i + 1), 24 * (|v.items| - i - 1))
    ensures !failed ==> Unwritten(alloc.heap.mem, ItemAddr(p, i + 1), 24 * (|v.items| - i - 1))
    ensures !failed ==> ItemsAt(alloc.heap.mem, p, elems, v.items[..i + 1])
    ensures !failed ==> alloc.ptrs == old(alloc.ptrs) + ps && ElemPointers(elems) == ElemPointers(done) + ps
    decreases v, 0
  {
    hide Effect, At, Encodes, Holds, Le, Extends, Owned, Allocated, Unwritten, Outside, CHeap.Valid;
    ghost var mid := alloc.Now();
    var cell := ItemAddr(p, i);
    var rest := 24 * (|v.items| - i - 1);
    PartOfRange(mid.live, mid.mem, cell, 24 + rest, cell, 24);
    PartOfRange(mid.live, mid.mem, cell, 24 + rest, cell + 24, rest);
    ghost var img;
    failed, img := FillValue(alloc, cell, v.items[i]);
    elems, ps := done + [img], Pointers(img);
    if failed {
      return;
    }
    EffectExtends(mid, alloc.Now(), cell, 24);
    AllocatedStays(mid, alloc.Now(), cell, 24, cell + 24, rest);
    UnwrittenStays(mid, alloc.Now(), cell, 24, cell + 24, rest);
    ItemsAtExtends(mid.mem, alloc.heap.mem, p, done, v.items[..i]);
    ItemsAtPush(alloc.heap.mem, p, done, img, v.items, i);
  }

  // Maps are filled like lists, with a key before each value and in whatever order the runtime
  // enumerates the keys.

  method FillMap(alloc: CAlloc, dst: nat, v: Value) returns (failed: bool, ghost img: Img)
    requires FreshCell(alloc.heap, dst) && GoValue(v) && v.Map?
    modifies alloc, alloc.heap
    ensures alloc.heap.Valid()
    ensures Effect(old(alloc.Now()), alloc.Now(), dst, 24)
    ensures !failed ==> At(alloc.heap.mem, dst, img) && Encodes(img, v)
    ensures !failed ==> alloc.ptrs == old(alloc.ptrs) + Pointers(img)
    decreases v, 3
  {
    hide Effect, At, Encodes, Holds, Le, Extends, Owned, Allocated, Unwritten, Outside, CHeap.Valid;
    hide EntriesAt, GoValue, EntryPointers;
    ghost var start := alloc.Now();
    var n := |v.entries|;
    img := INull;
    var hdr;
    ghost var first, keys, vals;
    hdr, failed, first, keys, vals := FillMapHeader(alloc, v);
    CellUntouched(start, alloc.Now(), dst);
    if failed {
      return;
    }
    ghost var mid := alloc.Now();
    SetCell(alloc, dst, TAG_MAP, Le(hdr, 8));
    EffectTrans(start, mid, alloc.Now(), dst, 24, dst, 24);
    EffectExtends(mid, alloc.Now(), dst, 24);
    img := IMap(hdr, first, n, keys, vals);
    MapAt(mid.mem, alloc.heap.mem, dst, hdr, first, keys, vals, v.entries);
  }

  /** The map struct and its entries: `entries` is set only when there are some, `len` always. */
  method FillMapHeader(alloc: CAlloc, v: Value)
    returns (hdr: nat, failed: bool, ghost first: Field, ghost keys: seq<Buf>, ghost vals: seq<Img>)
    requires alloc.heap.Valid() && GoValue(v) && v.Map?
    modifies alloc, alloc.heap
    ensures alloc.heap.Valid()
    ensures Effect(old(alloc.Now()), alloc.Now(), 0, 0)
    ensures !failed ==> 0 < hdr < WORD && HeaderAt(alloc.heap.mem, hdr, first, |v.entries|, |keys|, 40)
    ensures !failed ==> EntriesAt(alloc.heap.mem, first.Ptr(), keys, vals, v.entries, v.entries.Keys)
    ensures !failed ==> |keys| == |v.entries|
    ensures !failed ==>
              alloc.ptrs == old(alloc.ptrs) + NonNull(hdr) + NonNull(first.Ptr()) + EntryPointers(keys, vals)
    decreases v, 2
  {
    hide Effect, At, Encodes, Holds, Le, Extends, Owned, Allocated, Unwritten, Outside, CHeap.Valid;
    hide EntriesAt, GoValue, Pointers, EntryPointers;
    ghost var start := alloc.Now();
    first, keys, vals := Unset, [], [];
    hdr, failed := alloc.Malloc(16);
    if failed {
      return;
    }
    ghost var mid := alloc.Now();
    if |v.entries| > 0 {
      var p;
      p, failed, keys, vals := FillEntries(alloc, v);
      EffectTrans(start, mid, alloc.Now(), 0, 0, 0, 0);
      if failed {
        return;
      }
      first := Set(p);
      AllocatedStays(mid, alloc.Now(), 0, 0, hdr, 16);
      UnwrittenStays(mid, alloc.Now(), 0, 0, hdr, 16);
      mid := alloc.Now();
      HeaderParts(start.live, mid, hdr);
      SetWord(alloc, hdr, p);
      EffectTrans(start, mid, alloc.Now(), 0, 0, hdr, 8);
      EffectExtends(mid, alloc.Now(), hdr, 8);
      EntriesAtExtends(mid.mem, alloc.heap.mem, p, keys, vals, v.entries, v.entries.Keys);
      AllocatedStays(mid, alloc.Now(), hdr, 8, hdr + 8, 8);
      UnwrittenStays(mid, alloc.Now(), hdr, 8, hdr + 8, 8);
      mid := alloc.Now();
    } else {
      HeaderParts(start.live, mid, hdr);
      EntriesAtNone(mid.mem, 0, v.entries);
      assert v.entries.Keys == {};
    }
    SetWord(alloc, hdr + 8, |v.entries|);
    EffectTrans(start, mid, alloc.Now(), 0, 0, hdr + 8, 8);
    EffectExtends(mid, alloc.Now(), hdr + 8, 8);
    EntriesAtExtends(mid.mem, alloc.heap.mem, first.Ptr(), keys, vals, v.entries, v.entries.Keys);
    HeaderFieldExtends(mid.mem, alloc.heap.mem, hdr, first);
  }

  method FillEntries(alloc: CAlloc, v: Value)
    returns (p: nat, failed: bool, ghost keys: seq<Buf>, ghost vals: seq<Img>)
    requires alloc.heap.Valid() && GoValue(v) && v.Map? && v.entries != map[]
    modifies alloc, alloc.heap
    ensures alloc.heap.Valid()
    ensures Effect(old(alloc.Now()), alloc.Now(), 0, 0)
    ensures !failed ==> 0 < p && p + 40 * |v.entries| <= WORD && |keys| == |v.entries|
    ensures !failed ==> EntriesAt(alloc.heap.mem, p, keys, vals, v.entries, v.entries.Keys)
    ensures !failed ==> alloc.ptrs == old(alloc.ptrs) + NonNull(p) + EntryPointers(keys, vals)
    decreases v, 1
  {
    hide Effect, At, Encodes, Holds, Le, Extends, Owned, Allocated, Unwritten, Outside, CHeap.Valid;
    hide GoValue, EntriesAt, EntryPointers;
    ghost var start := alloc.Now();
    var n := |v.entries|;
    keys, vals := [], [];
    p, failed := alloc.Malloc(40 * n);
    if failed {
      return;
    }
    EntriesAtNone(alloc.heap.mem, p, v.entries);
    var i, rest := 0, v.entries.Keys;
    assert v.entries.Keys - rest == {};
    while rest != {}
      invariant rest <= v.entries.Keys && i + |rest| == n && |keys| == i
      invariant alloc.heap.Valid() && Effect(start, alloc.Now(), 0, 0)
      invariant Allocated(alloc.heap.live, EntryAddr(p, i), 40 * (n - i))
      invariant Unwritten(alloc.heap.mem, EntryAddr(p, i), 40 * (n - i))
      invariant EntriesAt(alloc.heap.mem, p, keys, vals, v.entries, v.entries.Keys - rest)
      invariant alloc.ptrs == old(alloc.ptrs) + NonNull(p) + EntryPointers(keys, vals)
      decreases |rest|
    {
      var key :| key in rest;
      ghost var mid := alloc.Now();
      PartOfRange(start.live, mid.mem, p, 40 * n, EntryAddr(p, i), 40);
      ghost var ps;
      failed, keys, vals, ps := FillEntry(alloc, p, i, v, key, keys, vals, v.entries.Keys - rest);
      EffectTrans(start, mid, alloc.Now(), 0, 0, EntryAddr(p, i), 40);
      if failed {
        return;
      }
      assert v.entries.Keys - rest + {key} == v.entries.Keys - (rest - {key});
      i, rest := i + 1, rest - {key};
    }
    assert v.entries.Keys - {} == v.entries.Keys;
  }

  lemma GoEntry(v: Value, key: seq<byte>)
    requires GoValue(v) && v.Map? && key in v.entries
    ensures |key| <= MAX_ALLOC && GoValue(v.entries[key])
  {
  }

  /** Entry `i`: its key, then its value in the cell at offset 16. */
  method FillEntry(alloc: CAlloc, p: nat, i: nat, v: Value, key: seq<byte>,
                   ghost doneKeys: seq<Buf>, ghost doneVals: seq<Img>, ghost done: set<seq<byte>>)
    returns (failed: bool, ghost keys: seq<Buf>, ghost vals: seq<Img>, ghost ps: seq<nat>)
    requires alloc.heap.Valid() && GoValue(v) && v.Map? && i < |v.entries|
    requires key in v.entries && key !in done && |doneKeys| == i
    requires Allocated(alloc.heap.live, EntryAddr(p, i), 40 * (|v.entries| - i))
    requires Unwritten(alloc.heap.mem, EntryAddr(p, i), 40 * (|v.entries| - i))
    requires EntriesAt(alloc.heap.mem, p, doneKeys, doneVals, v.entries, done)
    modifies alloc, alloc.heap
    ensures alloc.heap.Valid()
    ensures Effect(old(alloc.Now()), alloc.Now(), EntryAddr(p, i), 40)
    ensures !failed ==> Allocated(alloc.heap.live, EntryAddr(p, i + 1), 40 * (|v.entries| - i - 1))
    ensures !failed ==> Unwritten(alloc.heap.mem, EntryAddr(p, i + 1), 40 * (|v.entries| - i - 1))
    ensures !failed ==> EntriesAt(alloc.heap.mem, p, keys, vals, v.entries, done + {key}) && |keys| == i + 1
    ensures !failed ==> alloc.ptrs == old(alloc.ptrs) + ps
    ensures !failed ==> EntryPointers(keys, vals) == EntryPointers(doneKeys, doneVals) + ps
    decreases v, 0, 1
  {
    hide Effect, At, Encodes, Holds, Le, Extends, Owned, Allocated, Unwritten, Outside, CHeap.Valid;
    hide EntriesAt, EntryPointers, Pointers, GoValue, BufAt, BufOf, NonNull, EntryCells, EntryKeys, EntryValues;
    ghost var start := alloc.Now();
    var at := EntryAddr(p, i);
    var rest := 40 * (|v.entries| - i - 1);
    keys, vals := doneKeys, doneVals;
    PartOfRange(start.live, start.mem, at, 40 + rest, at, 40);
    PartOfRange(start.live, start.mem, at, 40 + rest, at + 40, rest);
    ghost var buf, img;
    failed, buf, img, ps := FillPair(alloc, at, v, key);
    if failed {
      return;
    }
    EffectExtends(start, alloc.Now(), at, 40);
    AllocatedStays(start, alloc.Now(), at, 40, at + 40, rest);
    UnwrittenStays(start, alloc.Now(), at, 40, at + 40, rest);
    EntriesAtExtends(start.mem, alloc.heap.mem, p, doneKeys, doneVals, v.entries, done);
    EntriesAtPush(alloc.heap.mem, p, doneKeys, doneVals, v.entries, done, buf, img);
    keys, vals := doneKeys + [buf], doneVals + [img];
  }

  /** One key and its value, in the 40 bytes at `at`. */
  method FillPair(alloc: CAlloc, at: nat, v: Value, key: seq<byte>)
    returns (failed: bool, ghost buf: Buf, ghost img: Img, ghost ps: seq<nat>)
    requires alloc.heap.Valid() && GoValue(v) && v.Map? && key in v.entries
    requires Allocated(alloc.heap.live, at, 40) && Unwritten(alloc.heap.mem, at, 40)
    modifies alloc, alloc.heap
    ensures alloc.heap.Valid()
    ensures Effect(old(alloc.Now()), alloc.Now(), at, 40)
    ensures !failed ==> BufAt(alloc.heap.mem, at, buf) && BufOf(buf, key) && buf.data == key
    ensures !failed ==> At(alloc.heap.mem, at + 16, img) && Encodes(img, v.entries[key])
    ensures !failed ==> ps == NonNull(buf.ptr) + Pointers(img) && alloc.ptrs == old(alloc.ptrs) + ps
    decreases v, 0, 0
  {
    hide Effect, At, Encodes, Holds, Le, Extends, Owned, Allocated, Unwritten, Outside, CHeap.Valid;
    hide Pointers, GoValue, BufAt, BufOf, NonNull;
    GoEntry(v, key);
    ghost var start := alloc.Now();
    img, ps := INull, [];
    PartOfRange(start.live, start.mem, at, 40, at, 16);
    PartOfRange(start.live, start.mem, at, 40, at + 16, 24);
    failed, buf := FillKey(alloc, at, key);
    ghost var mid := alloc.Now();
    EffectNone(start, at, 40);
    EffectTrans(start, start, mid, at, 40, at, 16);
    if failed {
      return;
    }
    AllocatedStays(start, mid, at, 16, at + 16, 24);
    UnwrittenStays(start, mid, at, 16, at + 16, 24);
    failed, img := FillValue(alloc, at + 16, v.entries[key]);
    EffectTrans(start, mid, alloc.Now(), at, 40, at + 16, 24);
    if failed {
      return;
    }
    EffectExtends(mid, alloc.Now(), at + 16, 24);
    BufAtExtends(mid.mem, alloc.heap.mem, at, buf);
    ps := NonNull(buf.ptr) + Pointers(img);
  }
}
