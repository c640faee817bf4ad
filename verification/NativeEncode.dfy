/** What every encoder of property values writes: words, keys, and the layouts of floats, lists and maps. */
module NativeEncode {
  import opened Memory
  import opened NativeValue
  import opened NativeHeap

  function FloatBytes(floats: seq<nat>): (s: seq<byte>)
    ensures |s| == 4 * |floats|
  {
    if floats == [] then [] else FloatBytes(floats[..|floats| - 1]) + Le(floats[|floats| - 1], 4)
  }

  lemma {:induction false} FloatBytesAt(m: Mem, a: nat, floats: seq<nat>)
    requires Holds(m, a, FloatBytes(floats))
    requires forall i | 0 <= i < |floats| :: floats[i] < 0x1_0000_0000
    ensures FloatsAt(m, a, floats)
  {
    if floats != [] {
      var n := |floats| - 1;
      var init, last := FloatBytes(floats[..n]), Le(floats[n], 4);
      SplitHolds(m, a, init, last);
      FloatBytesAt(m, a, floats[..n]);
      forall i | 0 <= i < |floats|
        ensures U32(m, FloatAddr(a, i), floats[i])
      {
        if i < n {
          assert floats[..n][i] == floats[i];
          assert U32(m, FloatAddr(a, i), floats[..n][i]);
        } else {
          assert FloatAddr(a, i) == a + |init|;
        }
      }
    }
  }

  /** Write one 8-byte field that has not been written yet. */
  method SetWord(alloc: CAlloc, at: nat, word: nat)
    requires alloc.heap.Valid() && word < WORD
    requires Allocated(alloc.heap.live, at, 8) && Unwritten(alloc.heap.mem, at, 8)
    modifies alloc.heap`mem
    ensures alloc.heap.Valid()
    ensures U64(alloc.heap.mem, at, word)
    ensures Effect(old(alloc.Now()), alloc.Now(), at, 8)
  {
    StoreEffect(alloc.Now(), at, Le(word, 8));
    StoreHolds(alloc.heap.mem, at, Le(word, 8));
    alloc.heap.Write(at, Le(word, 8));
  }

  lemma TwoWords(m: Mem, a: int, x: nat, y: nat)
    requires x < WORD && y < WORD && Holds(m, a, Le(x, 8) + Le(y, 8))
    ensures U64(m, a, x) && U64(m, a + 8, y)
  {
    SplitHolds(m, a, Le(x, 8), Le(y, 8));
  }

  lemma FloatsPrefix(m: Mem, a: nat, floats: seq<nat>, n: nat)
    requires n <= |floats| && FloatsAt(m, a, floats)
    ensures FloatsAt(m, a, floats[..n])
  {
    forall i | 0 <= i < n
      ensures U32(m, FloatAddr(a, i), floats[..n][i])
    {
      assert U32(m, FloatAddr(a, i), floats[i]);
    }
  }

  lemma VectorAt(before: Mem, m: Mem, dst: nat, ptr: nat, dims: nat, floats: seq<nat>)
    requires forall i | 0 <= i < |floats| :: floats[i] < 0x1_0000_0000
    requires Extends(before, m) && ptr < WORD && dims <= |floats| && dims < 0x1_0000_0000
    requires ptr == 0 ==> dims == 0
    requires ptr != 0 ==> Holds(before, ptr, FloatBytes(floats))
    requires U32(m, dst, TAG_VECTOR) && Holds(m, dst + 8, Le(ptr, 8) + Le(dims, 4))
    ensures At(m, dst, IVector(ptr, dims, floats[..dims]))
  {
    SplitHolds(m, dst + 8, Le(ptr, 8), Le(dims, 4));
    if ptr != 0 {
      FloatBytesAt(before, ptr, floats);
      FloatsAtExtends(before, m, ptr, floats);
      FloatsPrefix(m, ptr, floats, dims);
    }
  }

  /** Run an effect on memory that `start` does not own before writing the cell itself. */
  lemma CellUntouched(start: Snapshot, now: Snapshot, dst: nat)
    requires Effect(start, now, 0, 0)
    requires Allocated(start.live, dst, 24) && Unwritten(start.mem, dst, 24)
    ensures Allocated(now.live, dst, 24) && Unwritten(now.mem, dst, 24)
    ensures Effect(start, now, dst, 24)
  {
    AllocatedStays(start, now, 0, 0, dst, 24);
    UnwrittenStays(start, now, 0, 0, dst, 24);
    EffectWiden(start, now, dst, 24);
  }

  lemma EffectExtends(s: Snapshot, t: Snapshot, a: int, n: nat)
    requires Effect(s, t, a, n)
    ensures Extends(s.mem, t.mem)
  {
  }

  lemma ListAt(before: Mem, m: Mem, dst: nat, hdr: nat, first: Field, elems: seq<Img>, items: seq<Value>)
    requires Extends(before, m) && 0 < hdr < WORD
    requires U32(m, dst, TAG_LIST) && Holds(m, dst + 8, Le(hdr, 8))
    requires HeaderAt(before, hdr, first, |items|, |elems|, 24) && ItemsAt(before, first.Ptr(), elems, items)
    ensures At(m, dst, IList(hdr, first, |items|, elems))
    ensures Encodes(IList(hdr, first, |items|, elems), List(items))
  {
    HeaderAtExtends(before, m, hdr, first, |items|, |elems|, 24);
    ItemsAtExtends(before, m, first.Ptr(), elems, items);
  }

  /** The two words of a 16-byte header block that is not part of `live`. */
  lemma HeaderParts(live: Blocks, now: Snapshot, hdr: nat)
    requires Outside(live, hdr, 16) && Allocated(now.live, hdr, 16) && Unwritten(now.mem, hdr, 16)
    ensures Outside(live, hdr, 8) && Allocated(now.live, hdr, 8) && Unwritten(now.mem, hdr, 8)
    ensures Outside(live, hdr + 8, 8) && Allocated(now.live, hdr + 8, 8) && Unwritten(now.mem, hdr + 8, 8)
  {
  }

  ghost predicate ItemsAt(m: Mem, first: nat, elems: seq<Img>, items: seq<Value>) {
    && |elems| == |items|
    && (forall i | 0 <= i < |elems| :: At(m, ItemAddr(first, i), elems[i]))
    && (forall i | 0 <= i < |elems| :: Encodes(elems[i], items[i]))
  }

  lemma ItemsAtExtends(m: Mem, m': Mem, first: nat, elems: seq<Img>, items: seq<Value>)
    requires ItemsAt(m, first, elems, items) && Extends(m, m')
    ensures ItemsAt(m', first, elems, items)
  {
    forall i | 0 <= i < |elems|
      ensures At(m', ItemAddr(first, i), elems[i])
    {
      AtExtends(m, m', ItemAddr(first, i), elems[i]);
    }
  }

  lemma HeaderFieldExtends(m: Mem, m': Mem, hdr: nat, first: Field)
    requires Extends(m, m') && (first.Set? ==> U64(m, hdr, first.ptr))
    ensures first.Set? ==> U64(m', hdr, first.ptr)
  {
  }

  lemma ItemsAtNone(m: Mem, first: nat, items: seq<Value>)
    ensures ItemsAt(m, first, [], items[..0]) && ElemPointers([]) == []
  {
  }

  lemma ItemsAtPush(m: Mem, first: nat, elems: seq<Img>, img: Img, items: seq<Value>, i: nat)
    requires i < |items| && ItemsAt(m, first, elems, items[..i])
    requires At(m, ItemAddr(first, i), img) && Encodes(img, items[i])
    ensures ItemsAt(m, first, elems + [img], items[..i + 1])
    ensures ElemPointers(elems + [img]) == ElemPointers(elems) + Pointers(img)
  {
    hide At, Encodes;
    assert (elems + [img])[..|elems|] == elems;
  }

  lemma MapAt(before: Mem, m: Mem, dst: nat, hdr: nat, first: Field, keys: seq<Buf>, vals: seq<Img>,
              entries: map<seq<byte>, Value>)
    requires Extends(before, m) && 0 < hdr < WORD
    requires U32(m, dst, TAG_MAP) && Holds(m, dst + 8, Le(hdr, 8))
    requires HeaderAt(before, hdr, first, |entries|, |keys|, 40)
    requires EntriesAt(before, first.Ptr(), keys, vals, entries, entries.Keys) && |keys| == |entries|
    ensures At(m, dst, IMap(hdr, first, |entries|, keys, vals))
    ensures Encodes(IMap(hdr, first, |entries|, keys, vals), Map(entries))
  {
    hide At, Encodes, Extends, HeaderAt, U32, Holds, Le;
    HeaderAtExtends(before, m, hdr, first, |entries|, |keys|, 40);
    EntriesAtExtends(before, m, first.Ptr(), keys, vals, entries, entries.Keys);
    MapIsAt(m, dst, hdr, first, keys, vals, entries);
    MapIsEncoded(before, m, hdr, first, keys, vals, entries);
  }

  lemma MapIsAt(m: Mem, dst: nat, hdr: nat, first: Field, keys: seq<Buf>, vals: seq<Img>,
                entries: map<seq<byte>, Value>)
    requires 0 < hdr < WORD && U32(m, dst, TAG_MAP) && Holds(m, dst + 8, Le(hdr, 8))
    requires HeaderAt(m, hdr, first, |entries|, |keys|, 40)
    requires EntriesAt(m, first.Ptr(), keys, vals, entries, entries.Keys)
    ensures At(m, dst, IMap(hdr, first, |entries|, keys, vals))
  {
    hide Encodes, HeaderAt, Le, BufAt, U32, Holds;
    assert U64(m, dst + 8, hdr);
  }

  lemma MapIsEncoded(before: Mem, m: Mem, hdr: nat, first: Field, keys: seq<Buf>, vals: seq<Img>,
                     entries: map<seq<byte>, Value>)
    requires 0 < hdr && HeaderAt(before, hdr, first, |entries|, |keys|, 40)
    requires EntriesAt(m, first.Ptr(), keys, vals, entries, entries.Keys) && |keys| == |entries|
    ensures Encodes(IMap(hdr, first, |entries|, keys, vals), Map(entries))
  {
    hide At, BufAt, U64;
  }

  /** Memory holds one entry for each key in `done`, in some order. */
  ghost predicate EntriesAt(m: Mem, first: nat, keys: seq<Buf>, vals: seq<Img>,
                            entries: map<seq<byte>, Value>, done: set<seq<byte>>) {
    && |keys| == |vals|
    && EntryCells(m, first, keys, vals)
    && EntryKeys(keys, done)
    && EntryValues(keys, vals, entries)
  }

  ghost predicate EntryCells(m: Mem, first: nat, keys: seq<Buf>, vals: seq<Img>) {
    && (forall i | 0 <= i < |keys| :: BufAt(m, EntryAddr(first, i), keys[i]))
    && (forall i | 0 <= i < |vals| :: At(m, EntryAddr(first, i) + 16, vals[i]))
  }

  ghost predicate EntryKeys(keys: seq<Buf>, done: set<seq<byte>>) {
    NoDuplicates(KeyData(keys)) && forall k :: k in KeyData(keys) <==> k in done
  }

  ghost predicate EntryValues(keys: seq<Buf>, vals: seq<Img>, entries: map<seq<byte>, Value>)
    requires |keys| == |vals|
  {
    forall i | 0 <= i < |vals| ::
      && BufOf(keys[i], keys[i].data)
      && keys[i].data in entries
      && Encodes(vals[i], entries[keys[i].data])
  }

  lemma EntriesAtExtends(m: Mem, m': Mem, first: nat, keys: seq<Buf>, vals: seq<Img>,
                         entries: map<seq<byte>, Value>, done: set<seq<byte>>)
    requires EntriesAt(m, first, keys, vals, entries, done) && Extends(m, m')
    ensures EntriesAt(m', first, keys, vals, entries, done)
  {
    hide Extends;
    forall i | 0 <= i < |keys|
      ensures BufAt(m', EntryAddr(first, i), keys[i])
    {
      BufAtExtends(m, m', EntryAddr(first, i), keys[i]);
    }
    forall i | 0 <= i < |vals|
      ensures At(m', EntryAddr(first, i) + 16, vals[i])
    {
      AtExtends(m, m', EntryAddr(first, i) + 16, vals[i]);
    }
  }

  lemma EntriesAtNone(m: Mem, first: nat, entries: map<seq<byte>, Value>)
    ensures EntriesAt(m, first, [], [], entries, {}) && EntryPointers([], []) == []
  {
  }

  lemma EntriesAtPush(m: Mem, first: nat, keys: seq<Buf>, vals: seq<Img>, entries: map<seq<byte>, Value>,
                      done: set<seq<byte>>, key: Buf, img: Img)
    requires EntriesAt(m, first, keys, vals, entries, done)
    requires key.data !in done && key.data in entries
    requires BufAt(m, EntryAddr(first, |keys|), key) && BufOf(key, key.data)
    requires At(m, EntryAddr(first, |keys|) + 16, img) && Encodes(img, entries[key.data])
    ensures EntriesAt(m, first, keys + [key], vals + [img], entries, done + {key.data})
    ensures EntryPointers(keys + [key], vals + [img])
         == EntryPointers(keys, vals) + NonNull(key.ptr) + Pointers(img)
  {
    hide At, Encodes, BufAt, EntryKeys, KeyData, Pointers;
    assert (keys + [key])[..|keys|] == keys && (vals + [img])[..|vals|] == vals;
    EntryKeysPush(keys, done, key);
  }

  lemma EntryKeysPush(keys: seq<Buf>, done: set<seq<byte>>, key: Buf)
    requires EntryKeys(keys, done) && key.data !in done
    ensures EntryKeys(keys + [key], done + {key.data})
  {
    assert KeyData(keys + [key]) == KeyData(keys) + [key.data];
    assert key.data !in KeyData(keys);
  }

  lemma KeyAt(m0: Mem, m1: Mem, m2: Mem, at: nat, ptr: nat, key: seq<byte>)
    requires Extends(m0, m1) && Extends(m1, m2)
    requires if ptr == 0 then key == [] else Holds(m0, ptr, key)
    requires U64(m1, at, ptr) && U64(m2, at + 8, |key|)
    ensures BufAt(m2, at, Buf(ptr, |key|, key))
  {
  }

  method FillKey(alloc: CAlloc, at: nat, key: seq<byte>) returns (failed: bool, ghost buf: Buf)
    requires alloc.heap.Valid() && |key| <= MAX_ALLOC
    requires Allocated(alloc.heap.live, at, 16) && Unwritten(alloc.heap.mem, at, 16)
    modifies alloc, alloc.heap
    ensures alloc.heap.Valid()
    ensures Effect(old(alloc.Now()), alloc.Now(), at, 16)
    ensures !failed ==> BufAt(alloc.heap.mem, at, buf) && BufOf(buf, key) && buf.data == key
    ensures !failed ==> alloc.ptrs == old(alloc.ptrs) + NonNull(buf.ptr)
  {
    hide Effect, Owned, Allocated, Unwritten, Outside, CHeap.Valid, Extends, Holds, U64, BufAt;
    ghost var start := alloc.Now();
    var ptr;
    ptr, failed := alloc.Bytes(key);
    ghost var mid := alloc.Now();
    buf := Buf(ptr, |key|, key);
    EffectWiden(start, mid, at, 16);
    if failed {
      return;
    }
    AllocatedStays(start, mid, 0, 0, at, 16);
    UnwrittenStays(start, mid, 0, 0, at, 16);
    PartOfRange(mid.live, mid.mem, at, 16, at, 8);
    PartOfRange(mid.live, mid.mem, at, 16, at + 8, 8);
    SetWord(alloc, at, ptr);
    ghost var keyed := alloc.Now();
    EffectTrans(start, mid, keyed, at, 16, at, 8);
    EffectExtends(mid, keyed, at, 8);
    AllocatedStays(mid, keyed, at, 8, at + 8, 8);
    UnwrittenStays(mid, keyed, at, 8, at + 8, 8);
    SetWord(alloc, at + 8, |key|);
    EffectTrans(start, keyed, alloc.Now(), at, 16, at + 8, 8);
    EffectExtends(keyed, alloc.Now(), at + 8, 8);
    KeyAt(mid.mem, keyed.mem, alloc.heap.mem, at, ptr, key);
  }
}
