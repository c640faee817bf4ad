/** A Python property write and the value read back (bindings/python/src/latticedb/_bindings.py). */
module PyBinding {
  import opened Options
  import opened Memory
  import opened NativeValue
  import opened NativeHeap
  import opened PyEncode
  import Dec = PyDecode
  import opened RoundTrip

  /** `python_to_value`: fill a caller's cell and hand back the references to keep. When it succeeds, they
      are exactly the blocks acquired, one for every non-null pointer reachable from the cell. A cell that
      existed before keeps every byte; a `TypeError` means the object stands for no property value. */
  method PythonToValue(heap: CHeap, dst: nat, v: Py) returns (r: Status, refs: CAlloc, ghost img: Img)
    requires FreshCell(heap, dst) && Possible(v)
    modifies heap
    ensures fresh(refs) && refs.heap == heap && heap.Valid() && Extends(old(heap.mem), heap.mem)
    ensures r.Filled? ==> PyDenote(v).Some? && At(heap.mem, dst, img) && Encodes(img, PyDenote(v).value)
    ensures r.Filled? ==> refs.ptrs == Pointers(img) && NoDuplicates(refs.ptrs)
    ensures r.Filled? ==> forall b :: b in heap.live <==> b in old(heap.live) || b in refs.ptrs
    ensures r.Filled? ==> forall i | 0 <= i < |refs.ptrs| :: refs.ptrs[i] !in old(heap.live)
    ensures r.TypeError? ==> PyDenote(v).None?
  {
    hide At, Encodes, Pointers, PyDenote, Possible;
    ghost var before := heap.live;
    refs := new CAlloc(heap);
    ghost var start := refs.Now();
    r, img := FillObject(refs, dst, v);
    assert refs.ptrs == start.owned + refs.ptrs;
    assert refs.Now().owned[|start.owned|..] == refs.ptrs;
    assert Acquired(before, heap.live, refs.ptrs);
  }

  /** Written and read back, a Python form of a value (`True` of the bool, `1` of the integer, any dict with its keys)
      comes back as that value exactly when its integers fit in 64 bits, its arrays are under 2^32 long and its texts,
      bytes and keys under 2^31. Only an object that is a form of no value gives a `TypeError`. */
  method StoreAndLoad(heap: CHeap, dst: nat, v: Py) returns (r: Status, seen: Outcome<Value>)
    requires FreshCell(heap, dst) && Possible(v)
    modifies heap
    ensures r.Filled? ==> exists w :: Stands(v, w)
    ensures r.Filled? ==> forall w | Stands(v, w) :: seen == Ok(w) <==> Survives(Python, w)
    ensures r.TypeError? ==> forall w :: !Stands(v, w)
  {
    hide PyDenote, Possible, Stands, Survives, Encodes, At;
    forall w
      ensures PyDenote(v) == Some(w) <==> Stands(v, w)
    {
      StandsExactly(v, w);
    }
    seen := Fail(Crash);
    var refs;
    ghost var img;
    r, refs, img := PythonToValue(heap, dst, v);
    if r.Filled? {
      seen := Dec.ValueToPython(heap.mem, dst, img);
      DecodeEncoded(Python, img, PyDenote(v).value);
    }
  }
}
