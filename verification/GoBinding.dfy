/** `encodeValue` and what the bridge does with it: encode, hand the cell to the engine, clean up
    (bindings/go/internal/cgo/value.go and bridge.go). */
module GoBinding {
  import opened Memory
  import opened NativeValue
  import opened NativeHeap
  import opened GoEncode
  import opened GoInputs
  import opened GoHeap
  import opened GoNormalize
  import Dec = GoDecode
  import opened RoundTrip

  ghost function Heap(heap: CHeap): Snapshot
    reads heap
  {
    Snapshot(heap.live, heap.mem, [])
  }

  lemma EffectSince(start: Snapshot, mid: Snapshot, now: Snapshot, root: nat, heap: CHeap)
    requires heap.Valid() && now.live == heap.live && now.mem == heap.mem
    requires start.owned == [] && mid == Snapshot(start.live[root := 24], start.mem, [root])
    requires root !in start.live && Outside(start.live, root, 24)
    requires Effect(mid, now, root, 24)
    requires forall x | x in start.mem :: Owned(start.live, x)
    ensures Since(start, now)
  {
    MallocEffect(start, root, 24);
    assert start.owned + [root] == [root];
    EffectTrans(start, mid, now, 0, 0, root, 24);
    assert now.owned[0..] == now.owned;
  }

  lemma SinceKeys(start: Snapshot, now: Snapshot)
    requires Since(start, now)
    ensures NoDuplicates(now.owned)
    ensures now.live.Keys == start.live.Keys + (set p | p in now.owned)
  {
  }

  lemma HeapOwned(heap: CHeap)
    requires heap.Valid()
    ensures forall x | x in heap.mem :: Owned(heap.live, x)
  {
  }

  /** On success `root` holds an encoding of the normalised value, read from a copy that shares no buffer with
      anything that was there, and the tracker owns exactly the root and every block reachable from it. On an error
      or a panic the heap is as it was. */
  method EncodeValue(heap: CHeap, g: GoMem, ref: Ref, ghost value: GoInput)
    returns (end: Verdict, root: nat, alloc: CAlloc, ghost img: Img, ghost copy: Ref)
    requires heap.Valid() && g.Valid() && Typed(value) && Points(g.objects, ref, value)
    modifies heap, g
    ensures g.Valid() && Grows(old(g.objects), g.objects)
    ensures fresh(alloc) && alloc.heap == heap && heap.Valid()
    ensures !end.Accepts? ==> heap.live == old(heap.live) && heap.mem == old(heap.mem)
    ensures end.Panics? ==> May(value, Panics)
    ensures end.Accepts? ==> Denote(value).Some? && Encodes(img, Denote(value).value) && At(heap.mem, root, img)
    ensures end.Accepts? ==> Copied(g.objects, old(g.objects).Keys, copy, Denote(value).value)
    ensures end.Accepts? ==> root != 0 && alloc.ptrs == [root] + Pointers(img) && NoDuplicates(alloc.ptrs)
    ensures end.Accepts? ==> heap.live.Keys == old(heap.live.Keys) + (set p | p in alloc.ptrs)
    ensures end.Accepts? ==> Since(old(Heap(heap)), alloc.Now())
  {
    hide Since, Effect, At, Encodes, Denote, CHeap.Valid, Owned, Outside, Allocated, Unwritten, NoDuplicates, Typed;
    hide Pointers, GoValue, Points, Copied, GoMem.Valid, May;
    ghost var start, known := Heap(heap), g.objects.Keys;
    HeapOwned(heap);
    var normalized := NormalizeValue(g, ref, value);
    alloc := new CAlloc(heap);
    root, img, copy := 0, INull, RNil;
    if !normalized.Copy? {
      return VerdictOf(normalized), root, alloc, img, copy;
    }
    NormalizeClosed(value);
    copy := normalized.ref;
    var failed;
    root, failed := alloc.Malloc(24);
    if failed {
      return Rejects, root, alloc, img, copy;
    }
    ghost var mid := alloc.Now();
    var content := Contents(g, normalized.ref, known, Denote(value).value);
    failed, img := FillValue(alloc, root, content);
    EffectSince(start, mid, alloc.Now(), root, heap);
    if failed {
      alloc.FreeAll(start);
      return Rejects, root, alloc, img, copy;
    }
    end := Accepts;
    SinceKeys(start, alloc.Now());
  }

  /** `SetNodeProperty` and the other writers: whatever happens, every block is given back. The engine
      is handed a cell that reads, by the rules of the Go decoder, as the normalised value exactly when
      no text in it is longer than C's `int` and no vector is longer than 32 bits. */
  method StoreProperty(heap: CHeap, g: GoMem, ref: Ref, ghost value: GoInput)
    returns (end: Verdict, seen: Outcome<Value>)
    requires heap.Valid() && g.Valid() && Typed(value) && Points(g.objects, ref, value)
    modifies heap, g
    ensures g.Valid() && Grows(old(g.objects), g.objects)
    ensures heap.Valid() && heap.live == old(heap.live) && heap.mem == old(heap.mem)
    ensures end.Panics? ==> May(value, Panics)
    ensures end.Accepts? ==>
              Denote(value).Some? && (seen == Ok(Denote(value).value) <==> Survives(Go, Denote(value).value))
  {
    hide Since, At, Encodes, Denote, CHeap.Valid, GoMem.Valid, Typed, Pointers, Points, Copied, May, Interp, Survives;
    hide Effect, Owned, NoDuplicates;
    ghost var start := Heap(heap);
    seen := Fail(Crash);
    var root, alloc;
    ghost var img, copy;
    end, root, alloc, img, copy := EncodeValue(heap, g, ref, value);
    if !end.Accepts? {
      return;
    }
    seen := Dec.DecodeValue(heap.mem, root, img);
    DecodeEncoded(Go, img, Denote(value).value);
    alloc.FreeAll(start);
  }
}
