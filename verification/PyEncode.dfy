/** The Python binding's encoder, bindings/python/src/latticedb/_bindings.py: `_python_to_value` with its
    `refs`. `refs` is a `CAlloc`: it records every buffer that must outlive the call. */
module PyEncode {
  import opened Options
  import opened Memory
  import opened NativeValue
  import opened NativeHeap
  import opened NativeEncode

  datatype PyKey = Text(text: seq<byte>) | NotText

  /** A Python object as the `isinstance` chain sees it. A dict is its keys and values in insertion order. */
  datatype Py =
    | PyNone
    | PyBool(b: bool)
    | PyInt(i: int)                            // unbounded
    | PyFloat(bits: nat)
    | PyStr(text: seq<byte>)                   // already in UTF-8
    | PyBytes(raw: seq<byte>)
    | PyArray(floats: seq<nat>)                // a one-dimensional float32 array
    | PyList(items: seq<Py>)
    | PyDict(keys: seq<PyKey>, vals: seq<Py>)
    | PyOther                                  // tuples, sets, anything else

  /** What Python guarantees: floats in 64 bits, sizes bounded by the address space, distinct dict keys. */
  ghost predicate Possible(v: Py)
    decreases v
  {
    match v
    case PyFloat(bits) => bits < WORD
    case PyStr(text) => |text| <= MAX_ALLOC
    case PyBytes(raw) => |raw| <= MAX_ALLOC
    case PyArray(floats) => |floats| <= MAX_ALLOC && forall i | 0 <= i < |floats| :: floats[i] < 0x1_0000_0000
    case PyList(items) => |items| <= MAX_ALLOC && forall i | 0 <= i < |items| :: Possible(items[i])
    case PyDict(keys, vals) =>
      && |keys| == |vals| <= MAX_ALLOC
      && (forall i | 0 <= i < |vals| :: Possible(vals[i]))
      && (forall i | 0 <= i < |keys| && keys[i].Text? :: |keys[i].text| <= MAX_ALLOC)
      && (forall i, j | 0 <= i < j < |keys| && keys[i].Text? :: keys[i] != keys[j])
    case _ => true
  }

  /** The property value a Python object stands for; `None` when some part of it stands for none. */
  function PyDenote(v: Py): Option<Value>
    decreases v, 0
  {
    match v
    case PyNone => Some(Null)
    case PyBool(b) => Some(Bool(b))
    case PyInt(i) => Some(Int(i))
    case PyFloat(bits) => Some(Float(bits))
    case PyStr(text) => Some(Str(text))
    case PyBytes(raw) => Some(Bytes(raw))
    case PyArray(floats) => Some(Vector(floats))
    case PyList(items) =>
      (match ItemsDenote(items)
       case Some(vs) => Some(List(vs))
       case None => None)
    case PyDict(keys, vals) =>
      (match PairsDenote(keys, vals)
       case Some(m) => Some(Map(m))
       case None => None)
    case PyOther => None
  }

  function ItemsDenote(items: seq<Py>): Option<seq<Value>>
    decreases items, 1
  {
    if items == [] then Some([])
    else AddItem(ItemsDenote(items[..|items| - 1]), PyDenote(items[|items| - 1]))
  }

  function AddItem(done: Option<seq<Value>>, last: Option<Value>): Option<seq<Value>> {
    if done.None? || last.None? then None else Some(done.value + [last.value])
  }

  function PairsDenote(keys: seq<PyKey>, vals: seq<Py>): Option<map<seq<byte>, Value>>
    decreases vals, 1
  {
    if keys == [] || vals == [] then Some(map[])
    else
      AddPair(PairsDenote(keys[..|keys| - 1], vals[..|vals| - 1]), keys[|keys| - 1], PyDenote(vals[|vals| - 1]))
  }

  function AddPair(done: Option<map<seq<byte>, Value>>, key: PyKey, last: Option<Value>)
    : Option<map<seq<byte>, Value>>
  {
    if done.None? || key.NotText? || last.None? then None else Some(done.value[key.text := last.value])
  }

  lemma ItemsStep(items: seq<Py>, i: nat)
    requires i < |items|
    ensures ItemsDenote(items[..i + 1]) == AddItem(ItemsDenote(items[..i]), PyDenote(items[i]))
  {
    assert items[..i + 1][..i] == items[..i];
  }

  lemma PairsStep(keys: seq<PyKey>, vals: seq<Py>, i: nat)
    requires i < |keys| == |vals|
    ensures PairsDenote(keys[..i + 1], vals[..i + 1])
         == AddPair(PairsDenote(keys[..i], vals[..i]), keys[i], PyDenote(vals[i]))
  {
    assert keys[..i + 1][..i] == keys[..i] && vals[..i + 1][..i] == vals[..i];
  }

  /** A part that stands for nothing spoils the whole. */
  lemma {:induction false} ItemsSpoil(items: seq<Py>, n: nat)
    requires n <= |items| && ItemsDenote(items[..n]).None?
    ensures ItemsDenote(items).None?
    decreases |items|
  {
    if n < |items| {
      assert items[..|items| - 1][..n] == items[..n];
      ItemsSpoil(items[..|items| - 1], n);
    } else {
      assert items[..n] == items;
    }
  }

  lemma {:induction false} PairsSpoil(keys: seq<PyKey>, vals: seq<Py>, n: nat)
    requires |keys| == |vals| && n <= |keys| && PairsDenote(keys[..n], vals[..n]).None?
    ensures PairsDenote(keys, vals).None?
    decreases |keys|
  {
    if n < |keys| {
      var k := |keys| - 1;
      assert keys[..k][..n] == keys[..n] && vals[..k][..n] == vals[..n];
      PairsSpoil(keys[..k], vals[..k], n);
    } else {
      assert keys[..n] == keys && vals[..n] == vals;
    }
  }

  // ------------------------------------------------------------------ which object stands for which value

  /** The object is a Python form of the value: a bool of a bool, an int of an integer, a list of Python forms, a
      dict that lists the keys in any order. */
  ghost predicate Stands(p: Py, v: Value)
    decreases v
  {
    match v
    case Null => p == PyNone
    case Bool(b) => p == PyBool(b)
    case Int(i) => p == PyInt(i)
    case Float(bits) => p == PyFloat(bits)
    case Str(text) => p == PyStr(text)
    case Bytes(raw) => p == PyBytes(raw)
    case Vector(floats) => p == PyArray(floats)
    case List(items) =>
      p.PyList? && |p.items| == |items| && forall i | 0 <= i < |items| :: Stands(p.items[i], items[i])
    case Map(entries) =>
      && p.PyDict? && |p.keys| == |p.vals| && Lists(p.keys, entries.Keys)
      && forall i | 0 <= i < |p.keys| && p.keys[i].Text? && p.keys[i].text in entries ::
           Stands(p.vals[i], entries[p.keys[i].text])
  }

  /** The dict's keys are texts, and these. */
  ghost predicate Lists(keys: seq<PyKey>, names: set<seq<byte>>) {
    && (forall i | 0 <= i < |keys| :: keys[i].Text? && keys[i].text in names)
    && (forall name | name in names :: Text(name) in keys)
  }

  ghost predicate Distinct(keys: seq<PyKey>) {
    forall i, j | 0 <= i < j < |keys| && keys[i].Text? :: keys[i] != keys[j]
  }

  lemma {:induction false} ItemsDenoteEach(items: seq<Py>)
    ensures ItemsDenote(items).Some? <==> forall i | 0 <= i < |items| :: PyDenote(items[i]).Some?
    ensures ItemsDenote(items).Some? ==>
        && |ItemsDenote(items).value| == |items|
        && forall i | 0 <= i < |items| :: PyDenote(items[i]) == Some(ItemsDenote(items).value[i])
    decreases |items|
  {
    hide PyDenote;
    if items != [] {
      var k := |items| - 1;
      ItemsDenoteEach(items[..k]);
      assert forall i | 0 <= i < k :: items[..k][i] == items[i];
    }
  }

  lemma {:induction false} PairsDenoteEach(keys: seq<PyKey>, vals: seq<Py>)
    requires |keys| == |vals| && Distinct(keys)
    ensures PairsDenote(keys, vals).Some? <==>
        forall i | 0 <= i < |keys| :: keys[i].Text? && PyDenote(vals[i]).Some?
    ensures PairsDenote(keys, vals).Some? ==> PairsHeld(keys, vals, PairsDenote(keys, vals).value)
    decreases |keys|
  {
    hide PyDenote, PairsHeld;
    if keys == [] {
      NoPairsHeld();
    } else {
      var k := |keys| - 1;
      PairsDenoteEach(keys[..k], vals[..k]);
      assert forall i | 0 <= i < k :: keys[..k][i] == keys[i] && vals[..k][i] == vals[i];
      if PairsDenote(keys, vals).Some? {
        OneMorePair(keys, vals, PairsDenote(keys[..k], vals[..k]).value);
      }
    }
  }

  /** The map has just these keys, each with what its object stands for. */
  ghost predicate PairsHeld(keys: seq<PyKey>, vals: seq<Py>, m: map<seq<byte>, Value>) {
    && |keys| == |vals| && Lists(keys, m.Keys)
    && forall i | 0 <= i < |keys| :: PyDenote(vals[i]) == Some(m[keys[i].text])
  }

  lemma NoPairsHeld()
    ensures PairsHeld([], [], map[])
  {
  }

  lemma OneMorePair(keys: seq<PyKey>, vals: seq<Py>, m: map<seq<byte>, Value>)
    requires 0 < |keys| == |vals| && Distinct(keys) && PairsHeld(keys[..|keys| - 1], vals[..|keys| - 1], m)
    requires keys[|keys| - 1].Text? && PyDenote(vals[|keys| - 1]).Some?
    ensures PairsHeld(keys, vals, m[keys[|keys| - 1].text := PyDenote(vals[|keys| - 1]).value])
  {
    hide PyDenote;
    var k := |keys| - 1;
    var front, m' := keys[..k], m[keys[k].text := PyDenote(vals[k]).value];
    assert keys == front + [keys[k]];
    forall i | 0 <= i < |keys|
      ensures keys[i].Text? && keys[i].text in m' && PyDenote(vals[i]) == Some(m'[keys[i].text])
    {
      if i < k {
        assert front[i] == keys[i] && vals[..k][i] == vals[i];
      }
    }
  }

  /** A Python object is stored as exactly the value it is a Python form of. */
  lemma {:induction false} StandsExactly(p: Py, v: Value)
    requires Possible(p)
    ensures PyDenote(p) == Some(v) <==> Stands(p, v)
    decreases v
  {
    match v
    case List(items) =>
      if p.PyList? && |p.items| == |items| {
        forall i | 0 <= i < |items|
          ensures PyDenote(p.items[i]) == Some(items[i]) <==> Stands(p.items[i], items[i])
        {
          StandsExactly(p.items[i], items[i]);
        }
        ItemsDenoteEach(p.items);
        assert ItemsDenote(p.items).Some? ==> (ItemsDenote(p.items).value == items <==>
            forall i | 0 <= i < |items| :: PyDenote(p.items[i]) == Some(items[i]));
      }
      if p.PyList? { ItemsDenoteEach(p.items); }
    case Map(entries) => if p.PyDict? { DictStands(p, entries); }
    case _ =>
  }

  lemma {:induction false} DictStands(p: Py, entries: map<seq<byte>, Value>)
    requires Possible(p) && p.PyDict?
    ensures PairsDenote(p.keys, p.vals) == Some(entries) <==> Stands(p, Map(entries))
    decreases Map(entries), 0
  {
    hide PyDenote, Possible, PairsDenote;
    PossibleDict(p);
    PairsDenoteEach(p.keys, p.vals);
    forall i | 0 <= i < |p.keys| && p.keys[i].Text? && p.keys[i].text in entries
      ensures PyDenote(p.vals[i]) == Some(entries[p.keys[i].text]) <==> Stands(p.vals[i], entries[p.keys[i].text])
    {
      StandsExactly(p.vals[i], entries[p.keys[i].text]);
    }
    if Stands(p, Map(entries)) {
      assert PairsHeld(p.keys, p.vals, entries);
      HeldOnce(p.keys, p.vals, entries, PairsDenote(p.keys, p.vals).value);
    }
  }

  lemma HeldOnce(keys: seq<PyKey>, vals: seq<Py>, m: map<seq<byte>, Value>, n: map<seq<byte>, Value>)
    requires PairsHeld(keys, vals, m) && PairsHeld(keys, vals, n)
    ensures m == n
  {
    hide PyDenote;
    SameKeys(keys, m.Keys, n.Keys);
    forall name | name in m
      ensures m[name] == n[name]
    {
      var i :| 0 <= i < |keys| && keys[i] == Text(name);
    }
  }

  lemma PossibleDict(p: Py)
    requires Possible(p) && p.PyDict?
    ensures |p.keys| == |p.vals| && Distinct(p.keys) && forall i | 0 <= i < |p.vals| :: Possible(p.vals[i])
  {
  }

  lemma SameKeys(keys: seq<PyKey>, names: set<seq<byte>>, others: set<seq<byte>>)
    requires Lists(keys, names) && Lists(keys, others)
    ensures names == others
  {
    forall name
      ensures name in names <==> name in others
    {
      if name in names {
        var i :| 0 <= i < |keys| && keys[i] == Text(name);
      }
      if name in others {
        var i :| 0 <= i < |keys| && keys[i] == Text(name);
      }
    }
  }

  /** Every property value has a Python form. */
  lemma {:induction false} PyForm(v: Value) returns (p: Py)
    ensures Stands(p, v)
    decreases v
  {
    match v
    case Null => p := PyNone;
    case Bool(b) => p := PyBool(b);
    case Int(i) => p := PyInt(i);
    case Float(bits) => p := PyFloat(bits);
    case Str(text) => p := PyStr(text);
    case Bytes(raw) => p := PyBytes(raw);
    case Vector(floats) => p := PyArray(floats);
    case List(items) =>
      var ps: seq<Py> := [];
      for k := 0 to |items|
        invariant |ps| == k && forall i | 0 <= i < k :: Stands(ps[i], items[i])
      {
        var item := PyForm(items[k]);
        ps := ps + [item];
      }
      p := PyList(ps);
    case Map(entries) => p := PyDictForm(entries);
  }

  lemma {:induction false} PyDictForm(entries: map<seq<byte>, Value>) returns (p: Py)
    ensures Stands(p, Map(entries))
    decreases Map(entries), 0
  {
    var keys: seq<PyKey>, vals: seq<Py>, rest := [], [], entries.Keys;
    while rest != {}
      invariant rest <= entries.Keys && |keys| == |vals| && Lists(keys, entries.Keys - rest)
      invariant forall i | 0 <= i < |keys| && keys[i].Text? && keys[i].text in entries ::
          Stands(vals[i], entries[keys[i].text])
      decreases |rest|
    {
      var name :| name in rest;
      var item := PyForm(entries[name]);
      keys, vals, rest := keys + [Text(name)], vals + [item], rest - {name};
    }
    assert entries.Keys - rest == entries.Keys;
    p := PyDict(keys, vals);
  }

  // ------------------------------------------------------------------ writing a cell field by field

  datatype Status = Filled | TypeError | OutOfMemory

  /** A cell whose tag is set and whose union is not. */
  ghost predicate Tagged(heap: CHeap, dst: nat, tag: nat)
    reads heap
  {
    && heap.Valid() && Allocated(heap.live, dst, 24)
    && U32(heap.mem, dst, tag) && Unwritten(heap.mem, dst + 8, 16)
  }

  method SetTag(refs: CAlloc, dst: nat, tag: nat)
    requires FreshCell(refs.heap, dst) && tag <= TAG_MAP
    modifies refs.heap`mem
    ensures Tagged(refs.heap, dst, tag)
    ensures Effect(old(refs.Now()), refs.Now(), dst, 24)
  {
    ghost var start := refs.Now();
    PartOfRange(start.live, start.mem, dst, 24, dst, 4);
    PartOfRange(start.live, start.mem, dst, 24, dst + 8, 16);
    StoreEffect(start, dst, Le(tag, 4));
    StoreHolds(start.mem, dst, Le(tag, 4));
    refs.heap.Write(dst, Le(tag, 4));
    EffectNone(start, dst, 24);
    EffectTrans(start, start, refs.Now(), dst, 24, dst, 4);
  }

  method SetUnion(refs: CAlloc, dst: nat, tag: nat, payload: seq<byte>)
    requires Tagged(refs.heap, dst, tag) && |payload| <= 16
    modifies refs.heap`mem
    ensures refs.heap.Valid()
    ensures U32(refs.heap.mem, dst, tag) && Holds(refs.heap.mem, dst + 8, payload)
    ensures Effect(old(refs.Now()), refs.Now(), dst, 24)
  {
    ghost var start := refs.Now();
    var n := |payload|;
    PartOfRange(start.live, start.mem, dst, 24, dst + 8, n);
    PartOfRange(start.live, start.mem, dst + 8, 16, dst + 8, n);
    StoreEffect(start, dst + 8, payload);
    StoreHolds(start.mem, dst + 8, payload);
    refs.heap.Write(dst + 8, payload);
    WordsExtend(start.mem, refs.heap.mem);
    EffectNone(start, dst, 24);
    EffectTrans(start, start, refs.Now(), dst, 24, dst + 8, n);
  }

  /** Memory acquired meanwhile leaves a tagged cell as it was. */
  lemma TaggedStays(start: Snapshot, now: Snapshot, heap: CHeap, dst: nat, tag: nat)
    requires heap.Valid() && now.live == heap.live && now.mem == heap.mem && Effect(start, now, 0, 0)
    requires Allocated(start.live, dst, 24) && U32(start.mem, dst, tag) && Unwritten(start.mem, dst + 8, 16)
    ensures Tagged(heap, dst, tag) && Effect(start, now, dst, 24)
  {
    PartOfRange(start.live, start.mem, dst, 24, dst + 8, 16);
    AllocatedStays(start, now, 0, 0, dst, 24);
    UnwrittenStays(start, now, 0, 0, dst + 8, 16);
    EffectWiden(start, now, dst, 24);
    WordsExtend(start.mem, now.mem);
  }

  // ------------------------------------------------------------------ _python_to_value

  /** Fill the cell at `dst` with `v`. On success it holds an encoding of the value `v` stands for, and
      `refs` has grown by exactly the non-null pointers in it. A `TypeError` means `v` stands for none. */
  method FillObject(refs: CAlloc, dst: nat, v: Py) returns (r: Status, ghost img: Img)
    requires FreshCell(refs.heap, dst) && Possible(v)
    modifies refs, refs.heap
    ensures refs.heap.Valid()
    ensures Effect(old(refs.Now()), refs.Now(), dst, 24)
    ensures r.Filled? ==> PyDenote(v).Some? && At(refs.heap.mem, dst, img) && Encodes(img, PyDenote(v).value)
    ensures r.Filled? ==> refs.ptrs == old(refs.ptrs) + Pointers(img)
    ensures r.TypeError? ==> PyDenote(v).None?
    decreases v, 4
  {
    r, img := Filled, INull;
    match v
    case PyNone =>
      SetTag(refs, dst, TAG_NULL);
    case PyBool(b) =>
      FillScalar(refs, dst, TAG_BOOL, [if b then 1 else 0]);
      img := IBool(b);
    case PyInt(i) =>
      FillScalar(refs, dst, TAG_INT, Le(ToBits64(i), 8));
      img := IInt(ToBits64(i));
    case PyFloat(bits) =>
      FillScalar(refs, dst, TAG_FLOAT, Le(bits, 8));
      img := IFloat(bits);
    case PyStr(text) =>
      ghost var buf;
      r, buf := FillData(refs, dst, TAG_STRING, text);
      img := IStr(buf);
    case PyBytes(raw) =>
      ghost var buf;
      r, buf := FillData(refs, dst, TAG_BYTES, raw);
      img := IBytes(buf);
    case PyArray(floats) =>
      r, img := FillArray(refs, dst, floats);
    case PyList(_) =>
      r, img := FillPyList(refs, dst, v);
    case PyDict(_, _) =>
      r, img := FillPyDict(refs, dst, v);
    case PyOther =>
      EffectNone(refs.Now(), dst, 24);
      r := TypeError;
  }

  method FillScalar(refs: CAlloc, dst: nat, tag: nat, payload: seq<byte>)
    requires FreshCell(refs.heap, dst) && tag <= TAG_MAP && |payload| <= 16
    modifies refs.heap`mem
    ensures refs.heap.Valid()
    ensures U32(refs.heap.mem, dst, tag) && Holds(refs.heap.mem, dst + 8, payload)
    ensures Effect(old(refs.Now()), refs.Now(), dst, 24)
  {
    ghost var start := refs.Now();
    SetTag(refs, dst, tag);
    ghost var mid := refs.Now();
    SetUnion(refs, dst, tag, payload);
    EffectTrans(start, mid, refs.Now(), dst, 24, dst, 24);
  }

  /** Strings and bytes: a buffer is made, and kept, only for data that is not empty. */
  method FillData(refs: CAlloc, dst: nat, tag: nat, data: seq<byte>) returns (r: Status, ghost buf: Buf)
    requires FreshCell(refs.heap, dst) && |data| <= MAX_ALLOC && tag <= TAG_MAP
    modifies refs, refs.heap
    ensures refs.heap.Valid() && !r.TypeError?
    ensures Effect(old(refs.Now()), refs.Now(), dst, 24)
    ensures r.Filled? ==> U32(refs.heap.mem, dst, tag) && BufAt(refs.heap.mem, dst + 8, buf)
    ensures r.Filled? ==> BufOf(buf, data) && refs.ptrs == old(refs.ptrs) + NonNull(buf.ptr)
  {
    hide Effect, Owned, Allocated, Unwritten, Outside, CHeap.Valid, Extends, U32;
    ghost var start := refs.Now();
    SetTag(refs, dst, tag);
    ghost var tagged := refs.Now();
    var ptr, failed := refs.Bytes(data);
    buf := Buf(ptr, |data|, data);
    ghost var mid := refs.Now();
    TaggedStays(tagged, mid, refs.heap, dst, tag);
    EffectTrans(start, tagged, mid, dst, 24, dst, 24);
    if failed {
      return OutOfMemory, buf;
    }
    SetUnion(refs, dst, tag, Le(ptr, 8) + Le(|data|, 8));
    TwoWords(refs.heap.mem, dst + 8, ptr, |data|);
    EffectExtends(mid, refs.Now(), dst, 24);
    EffectTrans(start, mid, refs.Now(), dst, 24, dst, 24);
    r := Filled;
    if ptr != 0 {
      WordsExtend(mid.mem, refs.heap.mem);
    }
  }

  /** An array's buffer is kept even when it is empty: numpy gives every array an address. */
  method FillArray(refs: CAlloc, dst: nat, floats: seq<nat>) returns (r: Status, ghost img: Img)
    requires FreshCell(refs.heap, dst) && Possible(PyArray(floats))
    modifies refs, refs.heap
    ensures refs.heap.Valid() && !r.TypeError?
    ensures Effect(old(refs.Now()), refs.Now(), dst, 24)
    ensures r.Filled? ==> At(refs.heap.mem, dst, img) && Encodes(img, Vector(floats))
    ensures r.Filled? ==> refs.ptrs == old(refs.ptrs) + Pointers(img)
  {
    hide Effect, Owned, Allocated, Unwritten, Outside, CHeap.Valid, Extends, U32, Holds, Le, FloatBytes, At;
    ghost var start := refs.Now();
    var dims := |floats| % 0x1_0000_0000;
    img := INull;
    var data := if floats == [] then [0] else FloatBytes(floats);
    var ptr, failed := refs.Bytes(data);
    CellUntouched(start, refs.Now(), dst);
    if failed {
      return OutOfMemory, img;
    }
    ghost var mid := refs.Now();
    FillScalar(refs, dst, TAG_VECTOR, Le(ptr, 8) + Le(dims, 4));
    EffectTrans(start, mid, refs.Now(), dst, 24, dst, 24);
    EffectExtends(mid, refs.Now(), dst, 24);
    r, img := Filled, IVector(ptr, dims, floats[..dims]);
    if floats == [] {
      EmptyArrayAt(refs.heap.mem, dst, ptr);
    } else {
      VectorAt(mid.mem, refs.heap.mem, dst, ptr, dims, floats);
    }
  }

  lemma EmptyArrayAt(m: Mem, dst: nat, ptr: nat)
    requires U32(m, dst, TAG_VECTOR) && Holds(m, dst + 8, Le(ptr, 8) + Le(0, 4))
    requires ptr < WORD
    ensures At(m, dst, IVector(ptr, 0, []))
  {
    SplitHolds(m, dst + 8, Le(ptr, 8), Le(0, 4));
  }

  method FillPyList(refs: CAlloc, dst: nat, v: Py) returns (r: Status, ghost img: Img)
    requires FreshCell(refs.heap, dst) && Possible(v) && v.PyList?
    modifies refs, refs.heap
    ensures refs.heap.Valid()
    ensures Effect(old(refs.Now()), refs.Now(), dst, 24)
    ensures r.Filled? ==> PyDenote(v).Some? && At(refs.heap.mem, dst, img) && Encodes(img, PyDenote(v).value)
    ensures r.Filled? ==> refs.ptrs == old(refs.ptrs) + Pointers(img)
    ensures r.TypeError? ==> PyDenote(v).None?
    decreases v, 3
  {
    hide Effect, At, Encodes, Holds, Le, Extends, Owned, Allocated, Unwritten, Outside, CHeap.Valid, U32, PyDenote,
      ItemsDenote, Possible, HeaderAt;
    ghost var start := refs.Now();
    img := INull;
    SetTag(refs, dst, TAG_LIST);
    ghost var tagged := refs.Now();
    var hdr;
    ghost var first, elems, vs;
    r, hdr, first, elems, vs := FillListStruct(refs, v);
    ghost var mid := refs.Now();
    TaggedStays(tagged, mid, refs.heap, dst, TAG_LIST);
    EffectTrans(start, tagged, mid, dst, 24, dst, 24);
    ListStandsFor(v);
    if !r.Filled? {
      return;
    }
    SetUnion(refs, dst, TAG_LIST, Le(hdr, 8));
    EffectTrans(start, mid, refs.Now(), dst, 24, dst, 24);
    EffectExtends(mid, refs.Now(), dst, 24);
    img := IList(hdr, first, |vs|, elems);
    ListAt(mid.mem, refs.heap.mem, dst, hdr, first, elems, vs);
  }

  lemma ListStandsFor(v: Py)
    requires v.PyList?
    ensures PyDenote(v) == match ItemsDenote(v.items) case Some(vs) => Some(List(vs)) case None => None
  {
  }

  /** Both words of a header are always written, a null pointer for an empty container. */
  method SetHeader(refs: CAlloc, hdr: nat, p: nat, n: nat, ghost start: Blocks)
    requires refs.heap.Valid() && p < WORD && n < WORD && Outside(start, hdr, 16)
    requires Allocated(refs.heap.live, hdr, 16) && Unwritten(refs.heap.mem, hdr, 16)
    modifies refs.heap`mem
    ensures refs.heap.Valid() && U64(refs.heap.mem, hdr, p) && U64(refs.heap.mem, hdr + 8, n)
    ensures Effect(old(refs.Now()), refs.Now(), hdr, 16)
  {
    hide Effect, Holds, Owned, CHeap.Valid, U64;
    ghost var before := refs.Now();
    HeaderParts(start, before, hdr);
    SetWord(refs, hdr, p);
    ghost var mid := refs.Now();
    EffectNone(before, hdr, 16);
    EffectTrans(before, before, mid, hdr, 16, hdr, 8);
    AllocatedStays(before, mid, hdr, 8, hdr + 8, 8);
    UnwrittenStays(before, mid, hdr, 8, hdr + 8, 8);
    SetWord(refs, hdr + 8, n);
    EffectTrans(before, mid, refs.Now(), hdr, 16, hdr + 8, 8);
    EffectExtends(mid, refs.Now(), hdr + 8, 8);
    WordsExtend(mid.mem, refs.heap.mem);
  }

  method FillListStruct(refs: CAlloc, v: Py)
    returns (r: Status, hdr: nat, ghost first: Field, ghost elems: seq<Img>, ghost vs: seq<Value>)
    requires refs.heap.Valid() && Possible(v) && v.PyList?
    modifies refs, refs.heap
    ensures refs.heap.Valid()
    ensures Effect(old(refs.Now()), refs.Now(), 0, 0)
    ensures r.Filled? ==> ItemsDenote(v.items) == Some(vs) && |vs| == |v.items|
    ensures r.Filled? ==> 0 < hdr < WORD && HeaderAt(refs.heap.mem, hdr, first, |vs|, |elems|, 24)
    ensures r.Filled? ==> ItemsAt(refs.heap.mem, first.Ptr(), elems, vs)
    ensures r.Filled? ==> refs.ptrs == old(refs.ptrs) + NonNull(hdr) + NonNull(first.Ptr()) + ElemPointers(elems)
    ensures r.TypeError? ==> ItemsDenote(v.items).None?
    decreases v, 2
  {
    hide Effect, At, Encodes, Holds, Le, Extends, Owned, Allocated, Unwritten, Outside, CHeap.Valid, U64;
    ghost var start := refs.Now();
    first, elems, vs := Set(0), [], [];
    var failed;
    hdr, failed := refs.Malloc(16);
    if failed {
      return OutOfMemory, hdr, first, elems, vs;
    }
    ghost var mid := refs.Now();
    r := Filled;
    var p := 0;
    if |v.items| > 0 {
      r, p, elems, vs := FillPyItems(refs, v);
      EffectTrans(start, mid, refs.Now(), 0, 0, 0, 0);
      if !r.Filled? {
        return;
      }
      first := Set(p);
      AllocatedStays(mid, refs.Now(), 0, 0, hdr, 16);
      UnwrittenStays(mid, refs.Now(), 0, 0, hdr, 16);
      mid := refs.Now();
    } else {
      assert v.items == [];
    }
    SetHeader(refs, hdr, p, |v.items|, start.live);
    EffectTrans(start, mid, refs.Now(), 0, 0, hdr, 16);
    EffectExtends(mid, refs.Now(), hdr, 16);
    ItemsAtExtends(mid.mem, refs.heap.mem, p, elems, vs);
  }

  method FillPyItems(refs: CAlloc, v: Py) returns (r: Status, p: nat, ghost elems: seq<Img>, ghost vs: seq<Value>)
    requires refs.heap.Valid() && Possible(v) && v.PyList? && v.items != []
    modifies refs, refs.heap
    ensures refs.heap.Valid()
    ensures Effect(old(refs.Now()), refs.Now(), 0, 0)
    ensures r.Filled? ==> ItemsDenote(v.items) == Some(vs) && |vs| == |v.items|
    ensures r.Filled? ==> 0 < p && p + 24 * |v.items| <= WORD && ItemsAt(refs.heap.mem, p, elems, vs)
    ensures r.Filled? ==> refs.ptrs == old(refs.ptrs) + NonNull(p) + ElemPointers(elems)
    ensures r.TypeError? ==> ItemsDenote(v.items).None?
    decreases v, 1
  {
    hide Effect, At, Encodes, Holds, Le, Extends, Owned, Allocated, Unwritten, Outside, CHeap.Valid;
    hide Possible, ItemsAt, Pointers, ElemPointers, PyDenote;
    ghost var start := refs.Now();
    var n := |v.items|;
    elems, vs := [], [];
    var failed;
    p, failed := refs.Malloc(24 * n);
    if failed {
      return OutOfMemory, p, elems, vs;
    }
    r := Filled;
    ItemsAtNone(refs.heap.mem, p, []);
    var i := 0;
    while i < n
      invariant 0 <= i <= n && r.Filled?
      invariant refs.heap.Valid() && Effect(start, refs.Now(), 0, 0)
      invariant Allocated(refs.heap.live, ItemAddr(p, i), 24 * (n - i))
      invariant Unwritten(refs.heap.mem, ItemAddr(p, i), 24 * (n - i))
      invariant ItemsDenote(v.items[..i]) == Some(vs) && |vs| == i
      invariant ItemsAt(refs.heap.mem, p, elems, vs)
      invariant refs.ptrs == old(refs.ptrs) + NonNull(p) + ElemPointers(elems)
    {
      ghost var mid := refs.Now();
      PartOfRange(start.live, mid.mem, p, 24 * n, ItemAddr(p, i), 24);
      ghost var ps;
      r, elems, vs, ps := FillPyItem(refs, p, i, v, elems, vs);
      EffectTrans(start, mid, refs.Now(), 0, 0, ItemAddr(p, i), 24);
      ItemsStep(v.items, i);
      if !r.Filled? {
        if r.TypeError? {
          ItemsSpoil(v.items, i + 1);
        }
        return;
      }
      i := i + 1;
    }
    assert v.items[..n] == v.items;
  }

  method FillPyItem(refs: CAlloc, p: nat, i: nat, v: Py, ghost done: seq<Img>, ghost values: seq<Value>)
    returns (r: Status, ghost elems: seq<Img>, ghost vs: seq<Value>, ghost ps: seq<nat>)
    requires refs.heap.Valid() && Possible(v) && v.PyList? && i < |v.items|
    requires Allocated(refs.heap.live, ItemAddr(p, i), 24 * (|v.items| - i))
    requires Unwritten(refs.heap.mem, ItemAddr(p, i), 24 * (|v.items| - i))
    requires ItemsAt(refs.heap.mem, p, done, values) && |values| == i
    modifies refs, refs.heap
    ensures refs.heap.Valid()
    ensures Effect(old(refs.Now()), refs.Now(), ItemAddr(p, i), 24)
    ensures r.Filled? ==> Allocated(refs.heap.live, ItemAddr(p, i + 1), 24 * (|v.items| - i - 1))
    ensures r.Filled? ==> Unwritten(refs.heap.mem, ItemAddr(p, i + 1), 24 * (|v.items| - i - 1))
    ensures r.Filled? ==> PyDenote(v.items[i]).Some? && vs == values + [PyDenote(v.items[i]).value]
    ensures r.Filled? ==> ItemsAt(refs.heap.mem, p, elems, vs)
    ensures r.Filled? ==> refs.ptrs == old(refs.ptrs) + ps && ElemPointers(elems) == ElemPointers(done) + ps
    ensures r.TypeError? ==> PyDenote(v.items[i]).None?
    decreases v, 0
  {
    hide Effect, At, Encodes, Holds, Le, Extends, Owned, Allocated, Unwritten, Outside, CHeap.Valid;
    hide PyDenote, ItemsAt;
    ghost var mid := refs.Now();
    var cell := ItemAddr(p, i);
    var rest := 24 * (|v.items| - i - 1);
    PartOfRange(mid.live, mid.mem, cell, 24 + rest, cell, 24);
    PartOfRange(mid.live, mid.mem, cell, 24 + rest, cell + 24, rest);
    ghost var img;
    r, img := FillObject(refs, cell, v.items[i]);
    elems, vs, ps := done + [img], values, Pointers(img);
    if !r.Filled? {
      return;
    }
    vs := values + [PyDenote(v.items[i]).value];
    EffectExtends(mid, refs.Now(), cell, 24);
    AllocatedStays(mid, refs.Now(), cell, 24, cell + 24, rest);
    UnwrittenStays(mid, refs.Now(), cell, 24, cell + 24, rest);
    ItemsAtExtends(mid.mem, refs.heap.mem, p, done, values);
    assert vs[..i] == values && vs[..i + 1] == vs;
    ItemsAtPush(refs.heap.mem, p, done, img, vs, i);
  }

  // Dicts are filled like lists, with a key before each value, in insertion order.

  method FillPyDict(refs: CAlloc, dst: nat, v: Py) returns (r: Status, ghost img: Img)
    requires FreshCell(refs.heap, dst) && Possible(v) && v.PyDict?
    modifies refs, refs.heap
    ensures refs.heap.Valid()
    ensures Effect(old(refs.Now()), refs.Now(), dst, 24)
    ensures r.Filled? ==> PyDenote(v).Some? && At(refs.heap.mem, dst, img) && Encodes(img, PyDenote(v).value)
    ensures r.Filled? ==> refs.ptrs == old(refs.ptrs) + Pointers(img)
    ensures r.TypeError? ==> PyDenote(v).None?
    decreases v, 3
  {
    hide Effect, At, Encodes, Holds, Le, Extends, Owned, Allocated, Unwritten, Outside, CHeap.Valid, U32;
    hide EntriesAt, EntryPointers, Possible;
    ghost var start := refs.Now();
    img := INull;
    SetTag(refs, dst, TAG_MAP);
    ghost var tagged := refs.Now();
    var hdr;
    ghost var first, keys, vals, m;
    r, hdr, first, keys, vals, m := FillMapStruct(refs, v);
    ghost var mid := refs.Now();
    TaggedStays(tagged, mid, refs.heap, dst, TAG_MAP);
    EffectTrans(start, tagged, mid, dst, 24, dst, 24);
    if !r.Filled? {
      return;
    }
    SetUnion(refs, dst, TAG_MAP, Le(hdr, 8));
    EffectTrans(start, mid, refs.Now(), dst, 24, dst, 24);
    EffectExtends(mid, refs.Now(), dst, 24);
    img := IMap(hdr, first, |m|, keys, vals);
    MapAt(mid.mem, refs.heap.mem, dst, hdr, first, keys, vals, m);
  }

  method FillMapStruct(refs: CAlloc, v: Py)
    returns (r: Status, hdr: nat, ghost first: Field, ghost keys: seq<Buf>, ghost vals: seq<Img>,
             ghost m: map<seq<byte>, Value>)
    requires refs.heap.Valid() && Possible(v) && v.PyDict?
    modifies refs, refs.heap
    ensures refs.heap.Valid()
    ensures Effect(old(refs.Now()), refs.Now(), 0, 0)
    ensures r.Filled? ==> PairsDenote(v.keys, v.vals) == Some(m) && |keys| == |m| == |v.vals|
    ensures r.Filled? ==> 0 < hdr < WORD && HeaderAt(refs.heap.mem, hdr, first, |m|, |keys|, 40)
    ensures r.Filled? ==> EntriesAt(refs.heap.mem, first.Ptr(), keys, vals, m, m.Keys)
    ensures r.Filled? ==>
              refs.ptrs == old(refs.ptrs) + NonNull(hdr) + NonNull(first.Ptr()) + EntryPointers(keys, vals)
    ensures r.TypeError? ==> PairsDenote(v.keys, v.vals).None?
    decreases v, 2
  {
    hide Effect, At, Encodes, Holds, Le, Extends, Owned, Allocated, Unwritten, Outside, CHeap.Valid, U64;
    hide EntriesAt, Pointers, EntryPointers;
    ghost var start := refs.Now();
    first, keys, vals, m := Set(0), [], [], map[];
    var failed;
    hdr, failed := refs.Malloc(16);
    if failed {
      return OutOfMemory, hdr, first, keys, vals, m;
    }
    ghost var mid := refs.Now();
    r := Filled;
    var p := 0;
    if |v.vals| > 0 {
      r, p, keys, vals, m := FillPyEntries(refs, v);
      EffectTrans(start, mid, refs.Now(), 0, 0, 0, 0);
      if !r.Filled? {
        return;
      }
      first := Set(p);
      AllocatedStays(mid, refs.Now(), 0, 0, hdr, 16);
      UnwrittenStays(mid, refs.Now(), 0, 0, hdr, 16);
      mid := refs.Now();
    } else {
      EntriesAtNone(mid.mem, 0, map[]);
      assert v.keys == [] && v.vals == [];
      assert m.Keys == {};
    }
    SetHeader(refs, hdr, p, |v.vals|, start.live);
    EffectTrans(start, mid, refs.Now(), 0, 0, hdr, 16);
    EffectExtends(mid, refs.Now(), hdr, 16);
    EntriesAtExtends(mid.mem, refs.heap.mem, p, keys, vals, m, m.Keys);
  }

  /** The keys denoted so far are the texts of the keys visited so far. */
  lemma {:induction false} PairsKeys(keys: seq<PyKey>, vals: seq<Py>)
    requires |keys| == |vals| && PairsDenote(keys, vals).Some?
    ensures forall k :: k in PairsDenote(keys, vals).value <==> Text(k) in keys
    decreases |keys|
  {
    if keys != [] {
      var n := |keys| - 1;
      PairsKeys(keys[..n], vals[..n]);
      assert keys == keys[..n] + [keys[n]];
    }
  }

  /** A map that gains an entry still describes the entries already in memory. */
  lemma EntriesAtGrow(m: Mem, first: nat, keys: seq<Buf>, vals: seq<Img>, entries: map<seq<byte>, Value>,
                      key: seq<byte>, v: Value)
    requires EntriesAt(m, first, keys, vals, entries, entries.Keys) && key !in entries
    ensures EntriesAt(m, first, keys, vals, entries[key := v], entries.Keys)
  {
    hide Encodes, BufOf, EntryCells, EntryKeys;
  }

  method FillPyEntries(refs: CAlloc, v: Py)
    returns (r: Status, p: nat, ghost keys: seq<Buf>, ghost vals: seq<Img>, ghost m: map<seq<byte>, Value>)
    requires refs.heap.Valid() && Possible(v) && v.PyDict? && v.vals != []
    modifies refs, refs.heap
    ensures refs.heap.Valid()
    ensures Effect(old(refs.Now()), refs.Now(), 0, 0)
    ensures r.Filled? ==> PairsDenote(v.keys, v.vals) == Some(m) && |keys| == |m| == |v.vals|
    ensures r.Filled? ==> 0 < p && p + 40 * |v.vals| <= WORD
    ensures r.Filled? ==> EntriesAt(refs.heap.mem, p, keys, vals, m, m.Keys)
    ensures r.Filled? ==> refs.ptrs == old(refs.ptrs) + NonNull(p) + EntryPointers(keys, vals)
    ensures r.TypeError? ==> PairsDenote(v.keys, v.vals).None?
    decreases v, 1
  {
    hide Effect, At, Encodes, Holds, Le, Extends, Owned, Allocated, Unwritten, Outside, CHeap.Valid;
    hide Possible, EntriesAt, EntryPointers, PyDenote, PairsDenote;
    ghost var start := refs.Now();
    var n := |v.vals|;
    DictShape(v);
    NoPairs();
    keys, vals, m := [], [], map[];
    var failed;
    p, failed := refs.Malloc(40 * n);
    if failed {
      return OutOfMemory, p, keys, vals, m;
    }
    r := Filled;
    EntriesAtNone(refs.heap.mem, p, map[]);
    assert m.Keys == {} && v.keys[..0] == [] && v.vals[..0] == [];
    var i := 0;
    while i < n
      invariant 0 <= i <= n && r.Filled? && |keys| == i == |m|
      invariant refs.heap.Valid() && Effect(start, refs.Now(), 0, 0)
      invariant Allocated(refs.heap.live, EntryAddr(p, i), 40 * (n - i))
      invariant Unwritten(refs.heap.mem, EntryAddr(p, i), 40 * (n - i))
      invariant PairsDenote(v.keys[..i], v.vals[..i]) == Some(m)
      invariant EntriesAt(refs.heap.mem, p, keys, vals, m, m.Keys)
      invariant refs.ptrs == old(refs.ptrs) + NonNull(p) + EntryPointers(keys, vals)
    {
      ghost var mid := refs.Now();
      PartOfRange(start.live, mid.mem, p, 40 * n, EntryAddr(p, i), 40);
      PairsStep(v.keys, v.vals, i);
      if v.keys[i].NotText? {
        PairsSpoil(v.keys, v.vals, i + 1);
        return TypeError, p, keys, vals, m;
      }
      NewKey(v, i);
      ghost var ps;
      r, keys, vals, m, ps := FillPyEntry(refs, p, i, v, keys, vals, m);
      EffectTrans(start, mid, refs.Now(), 0, 0, EntryAddr(p, i), 40);
      if !r.Filled? {
        if r.TypeError? {
          PairsSpoil(v.keys, v.vals, i + 1);
        }
        return;
      }
      i := i + 1;
    }
    assert v.keys[..n] == v.keys && v.vals[..n] == v.vals;
  }

  lemma NoPairs()
    ensures PairsDenote([], []) == Some(map[])
  {
  }

  lemma DictShape(v: Py)
    requires Possible(v) && v.PyDict?
    ensures |v.keys| == |v.vals| <= MAX_ALLOC
  {
  }

  /** A key not yet visited has not been denoted. */
  lemma NewKey(v: Py, i: nat)
    requires Possible(v) && v.PyDict? && i < |v.keys| && v.keys[i].Text?
    requires PairsDenote(v.keys[..i], v.vals[..i]).Some?
    ensures v.keys[i].text !in PairsDenote(v.keys[..i], v.vals[..i]).value
    ensures |v.keys[i].text| <= MAX_ALLOC
  {
    PairsKeys(v.keys[..i], v.vals[..i]);
    assert forall j | 0 <= j < i :: v.keys[..i][j] == v.keys[j] && (v.keys[j].Text? ==> v.keys[j] != v.keys[i]);
  }

  method FillPyEntry(refs: CAlloc, p: nat, i: nat, v: Py,
                     ghost doneKeys: seq<Buf>, ghost doneVals: seq<Img>, ghost done: map<seq<byte>, Value>)
    returns (r: Status, ghost keys: seq<Buf>, ghost vals: seq<Img>, ghost m: map<seq<byte>, Value>, ghost ps: seq<nat>)
    requires refs.heap.Valid() && Possible(v) && v.PyDict? && i < |v.vals| == |v.keys|
    requires v.keys[i].Text? && v.keys[i].text !in done && |v.keys[i].text| <= MAX_ALLOC && |doneKeys| == i
    requires Allocated(refs.heap.live, EntryAddr(p, i), 40 * (|v.vals| - i))
    requires Unwritten(refs.heap.mem, EntryAddr(p, i), 40 * (|v.vals| - i))
    requires EntriesAt(refs.heap.mem, p, doneKeys, doneVals, done, done.Keys)
    modifies refs, refs.heap
    ensures refs.heap.Valid()
    ensures Effect(old(refs.Now()), refs.Now(), EntryAddr(p, i), 40)
    ensures r.Filled? ==> Allocated(refs.heap.live, EntryAddr(p, i + 1), 40 * (|v.vals| - i - 1))
    ensures r.Filled? ==> Unwritten(refs.heap.mem, EntryAddr(p, i + 1), 40 * (|v.vals| - i - 1))
    ensures r.Filled? ==> PyDenote(v.vals[i]).Some? && m == done[v.keys[i].text := PyDenote(v.vals[i]).value]
    ensures r.Filled? ==> EntriesAt(refs.heap.mem, p, keys, vals, m, m.Keys) && |keys| == i + 1
    ensures r.Filled? ==> refs.ptrs == old(refs.ptrs) + ps
    ensures r.Filled? ==> EntryPointers(keys, vals) == EntryPointers(doneKeys, doneVals) + ps
    ensures r.TypeError? ==> PyDenote(v.vals[i]).None?
    decreases v, 0, 1
  {
    hide Effect, At, Encodes, Holds, Le, Extends, Owned, Allocated, Unwritten, Outside, CHeap.Valid;
    hide EntriesAt, EntryPointers, Pointers, Possible, BufAt, BufOf, NonNull, EntryCells, EntryKeys, EntryValues,
      PyDenote;
    ghost var start := refs.Now();
    var at := EntryAddr(p, i);
    var rest := 40 * (|v.vals| - i - 1);
    keys, vals, m := doneKeys, doneVals, done;
    PartOfRange(start.live, start.mem, at, 40 + rest, at, 40);
    PartOfRange(start.live, start.mem, at, 40 + rest, at + 40, rest);
    ghost var buf, img;
    r, buf, img, ps := FillPyPair(refs, at, v, i);
    if !r.Filled? {
      return;
    }
    var key := v.keys[i].text;
    ghost var value := PyDenote(v.vals[i]).value;
    EffectExtends(start, refs.Now(), at, 40);
    AllocatedStays(start, refs.Now(), at, 40, at + 40, rest);
    UnwrittenStays(start, refs.Now(), at, 40, at + 40, rest);
    EntriesAtExtends(start.mem, refs.heap.mem, p, doneKeys, doneVals, done, done.Keys);
    m := done[key := value];
    EntriesAtGrow(refs.heap.mem, p, doneKeys, doneVals, done, key, value);
    EntriesAtPush(refs.heap.mem, p, doneKeys, doneVals, m, done.Keys, buf, img);
    keys, vals := doneKeys + [buf], doneVals + [img];
    assert m.Keys == done.Keys + {key};
  }

  /** One key and its value, in the 40 bytes at `at`. */
  method FillPyPair(refs: CAlloc, at: nat, v: Py, i: nat)
    returns (r: Status, ghost buf: Buf, ghost img: Img, ghost ps: seq<nat>)
    requires refs.heap.Valid() && Possible(v) && v.PyDict? && i < |v.vals| == |v.keys|
    requires v.keys[i].Text? && |v.keys[i].text| <= MAX_ALLOC
    requires Allocated(refs.heap.live, at, 40) && Unwritten(refs.heap.mem, at, 40)
    modifies refs, refs.heap
    ensures refs.heap.Valid()
    ensures Effect(old(refs.Now()), refs.Now(), at, 40)
    ensures r.Filled? ==> BufAt(refs.heap.mem, at, buf) && BufOf(buf, v.keys[i].text) && buf.data == v.keys[i].text
    ensures r.Filled? ==> PyDenote(v.vals[i]).Some? && At(refs.heap.mem, at + 16, img)
    ensures r.Filled? ==> Encodes(img, PyDenote(v.vals[i]).value)
    ensures r.Filled? ==> ps == NonNull(buf.ptr) + Pointers(img) && refs.ptrs == old(refs.ptrs) + ps
    ensures r.TypeError? ==> PyDenote(v.vals[i]).None?
    decreases v, 0, 0
  {
    hide Effect, At, Encodes, Holds, Le, Extends, Owned, Allocated, Unwritten, Outside, CHeap.Valid;
    hide Pointers, BufAt, BufOf, NonNull, PyDenote;
    ghost var start := refs.Now();
    img, ps := INull, [];
    PartOfRange(start.live, start.mem, at, 40, at, 16);
    PartOfRange(start.live, start.mem, at, 40, at + 16, 24);
    var failed;
    failed, buf := FillKey(refs, at, v.keys[i].text);
    ghost var mid := refs.Now();
    EffectNone(start, at, 40);
    EffectTrans(start, start, mid, at, 40, at, 16);
    if failed {
      return OutOfMemory, buf, img, ps;
    }
    AllocatedStays(start, mid, at, 16, at + 16, 24);
    UnwrittenStays(start, mid, at, 16, at + 16, 24);
    r, img := FillObject(refs, at + 16, v.vals[i]);
    EffectTrans(start, mid, refs.Now(), at, 40, at + 16, 24);
    if !r.Filled? {
      return;
    }
    EffectExtends(mid, refs.Now(), at + 16, 24);
    BufAtExtends(mid.mem, refs.heap.mem, at, buf);
    ps := NonNull(buf.ptr) + Pointers(img);
  }
}
