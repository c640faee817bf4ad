/** The TypeScript binding's two decoders, bindings/typescript/src/ffi/index.ts: `nativeValueToJs` walks
    memory by offsets, `latticeValueToJs` walks decoded structs. */
module TsDecode {
  import opened Memory
  import opened NativeValue

  /** Both walks read a header's pointer before its length, so for an empty container they may read a word
      nobody has written: then it is `noise`, whatever was there. */
  function PeekWord(m: Mem, a: int, noise: int -> nat): nat {
    if Written(m, a, 8) then LoadInt(m, a, 8) else noise(a)
  }

  method DecodeBytes(m: Mem, at: nat, ghost buf: Buf) returns (data: seq<byte>)
    requires BufAt(m, at, buf)
    ensures BufValue(TsOffsets, buf) == BufValue(TsStructs, buf) == Ok(data)
  {
    ReadBuf(m, at, buf);
    var ptr, len := LoadInt(m, at, 8), LoadInt(m, at + 8, 8);
    if ptr == 0 || len == 0 {
      return [];
    }
    data := Load(m, ptr, len);
  }

  /** Strings and keys are decoded as `char`, which ends at a zero byte. */
  method DecodeText(m: Mem, at: nat, ghost buf: Buf) returns (text: seq<byte>)
    requires BufAt(m, at, buf)
    ensures TextValue(TsOffsets, buf) == TextValue(TsStructs, buf) == Ok(text)
    ensures KeyValue(TsOffsets, buf) == KeyValue(TsStructs, buf) == Ok(text)
  {
    var data := DecodeBytes(m, at, buf);
    text := UpToZero(data);
  }

  method DecodeFloats(m: Mem, at: nat, ghost img: Img) returns (out: seq<nat>)
    requires At(m, at - 8, img) && img.IVector?
    ensures out == img.floats
  {
    hide At, LoadInt, Written, FloatsAt, U32, FloatAddr;
    ReadVector(m, at - 8, img);
    var ptr, dims := LoadInt(m, at, 8), LoadInt(m, at + 8, 4);
    out := [];
    if ptr == 0 || dims == 0 {
      return;
    }
    while |out| < dims
      invariant |out| <= dims && out == img.floats[..|out|]
    {
      var i := |out|;
      ReadFloat(m, ptr, img.floats, i);
      out := out + [LoadInt(m, FloatAddr(ptr, i), 4)];
    }
  }

  // ------------------------------------------------------------------ nativeValueToJs

  /** The cases of the offset walk but lists and maps. */
  method NativeLeaf(m: Mem, cell: nat, ghost img: Img) returns (r: Outcome<Value>)
    requires At(m, cell, img) && !img.IList? && !img.IMap?
    ensures r == Interp(TsOffsets, img)
  {
    ReadTag(m, cell, img);
    var tag := LoadInt(m, cell, 4);
    var data := cell + 8;
    if tag == TAG_NULL {
      r := Ok(Null);
    } else if tag == TAG_BOOL {
      HoldsWritten(m, data, [if img.b then 1 else 0]);
      assert data in m;
      r := Ok(Bool(m[data] != 0));
    } else if tag == TAG_INT {
      LoadU64(m, data, img.bits);
      r := Ok(Int(FromBits64(LoadInt(m, data, 8))));
    } else if tag == TAG_FLOAT {
      LoadU64(m, data, img.bits);
      r := Ok(Float(LoadInt(m, data, 8)));
    } else if tag == TAG_STRING {
      var text := DecodeText(m, data, img.buf);
      r := Ok(Str(text));
    } else if tag == TAG_BYTES {
      var bytes := DecodeBytes(m, data, img.buf);
      r := Ok(Bytes(bytes));
    } else if tag == TAG_VECTOR {
      var floats := DecodeFloats(m, data, img);
      r := Ok(Vector(floats));
    } else {
      r := Fail(Unsupported);
    }
  }

  method NativeValueToJs(m: Mem, noise: int -> nat, value: nat, offset: nat, ghost img: Img) returns (r: Outcome<Value>)
    requires At(m, value + offset, img)
    ensures r == Interp(TsOffsets, img)
    decreases img, 2
  {
    hide At, Interp, LoadInt, Written;
    ReadTag(m, value + offset, img);
    var tag := LoadInt(m, value + offset, 4);
    if tag == TAG_LIST {
      r := NativeList(m, noise, value, offset, img);
    } else if tag == TAG_MAP {
      r := NativeMap(m, noise, value, offset, img);
    } else {
      r := NativeLeaf(m, value + offset, img);
    }
  }

  method NativeList(m: Mem, noise: int -> nat, value: nat, offset: nat, ghost img: Img) returns (r: Outcome<Value>)
    requires At(m, value + offset, img) && img.IList?
    ensures r == Interp(TsOffsets, img)
    decreases img, 1
  {
    hide At, LoadInt, Written;
    ReadList(m, value + offset, img);
    var listPtr := LoadInt(m, value + offset + 8, 8);
    if listPtr == 0 {
      return Ok(List([]));
    }
    var itemsPtr := PeekWord(m, listPtr, noise);
    var len := LoadInt(m, listPtr + 8, 8);
    if itemsPtr == 0 || len == 0 {
      return Ok(List([]));
    }
    var items := NativeItems(m, noise, itemsPtr, len, img);
    r := if items.Ok? then Ok(List(items.value)) else Fail(items.error);
  }

  method NativeItems(m: Mem, noise: int -> nat, itemsPtr: nat, len: nat, ghost img: Img)
    returns (r: Outcome<seq<Value>>)
    requires img.IList? && len == |img.elems|
    requires forall i | 0 <= i < len :: At(m, ItemAddr(itemsPtr, i), img.elems[i])
    ensures r == InterpElems(TsOffsets, img.elems)
    decreases img, 0
  {
    hide At, Interp;
    var items: seq<Value> := [];
    for i := 0 to len
      invariant InterpElems(TsOffsets, img.elems[..i]) == Ok(items)
    {
      InterpElemsStep(TsOffsets, img.elems, i);
      assert ItemAddr(itemsPtr, i) == itemsPtr + i * 24;
      var item := NativeValueToJs(m, noise, itemsPtr, i * 24, img.elems[i]);
      if item.Fail? {
        InterpElemsStops(TsOffsets, img.elems, i + 1, item.error);
        return Fail(item.error);
      }
      items := items + [item.value];
    }
    assert img.elems[..len] == img.elems;
    r := Ok(items);
  }

  method NativeMap(m: Mem, noise: int -> nat, value: nat, offset: nat, ghost img: Img) returns (r: Outcome<Value>)
    requires At(m, value + offset, img) && img.IMap?
    ensures r == Interp(TsOffsets, img)
    decreases img, 1
  {
    hide At, BufAt, LoadInt, Written, BufValue, KeyValue;
    ReadMap(m, value + offset, img);
    var mapPtr := LoadInt(m, value + offset + 8, 8);
    if mapPtr == 0 {
      return Ok(Map(map[]));
    }
    var entriesPtr := PeekWord(m, mapPtr, noise);
    var len := LoadInt(m, mapPtr + 8, 8);
    if entriesPtr == 0 || len == 0 {
      return Ok(Map(map[]));
    }
    var result := NativeEntries(m, noise, entriesPtr, len, img);
    r := if result.Ok? then Ok(Map(result.value)) else Fail(result.error);
  }

  method NativeEntries(m: Mem, noise: int -> nat, entriesPtr: nat, len: nat, ghost img: Img)
    returns (r: Outcome<map<seq<byte>, Value>>)
    requires img.IMap? && len == |img.keys| == |img.vals|
    requires forall i | 0 <= i < len :: BufAt(m, EntryAddr(entriesPtr, i), img.keys[i])
    requires forall i | 0 <= i < len :: At(m, EntryAddr(entriesPtr, i) + 16, img.vals[i])
    ensures r == InterpEntries(TsOffsets, img.keys, img.vals)
    decreases img, 0
  {
    hide At, BufAt, BufValue, KeyValue, Interp, InterpEntries, PutKey;
    var result: map<seq<byte>, Value> := map[];
    assert InterpEntries(TsOffsets, img.keys[..0], img.vals[..0]) == Ok(result) by { InterpNoEntries(TsOffsets); }
    for i := 0 to len
      invariant InterpEntries(TsOffsets, img.keys[..i], img.vals[..i]) == Ok(result)
    {
      InterpEntriesStep(TsOffsets, img.keys, img.vals, i);
      var entryOffset := i * 40;
      assert EntryAddr(entriesPtr, i) == entriesPtr + entryOffset;
      var key := DecodeText(m, entriesPtr + entryOffset, img.keys[i]);
      var item := NativeValueToJs(m, noise, entriesPtr, entryOffset + 16, img.vals[i]);
      if item.Fail? {
        InterpEntriesStops(TsOffsets, img.keys, img.vals, i + 1, item.error);
        return Fail(item.error);
      }
      result := PutKey(TsOffsets, result, key, item.value);
    }
    assert img.keys[..len] == img.keys && img.vals[..len] == img.vals;
    r := Ok(result);
  }

  // ------------------------------------------------------------------ latticeValueToJs

  /** A decoded struct: a view of the cell it was decoded from, whose union members are read on access. */
  datatype CellStruct = CellStruct(at: nat)

  datatype EntryStruct = EntryStruct(key: nat, value: CellStruct)

  /** `decodeValueArray`: nothing behind a null pointer or a zero length. */
  function DecodeValueArray(items: nat, len: nat): (cells: seq<CellStruct>) {
    if items == 0 || len == 0 then [] else seq(len, i requires 0 <= i < len => CellStruct(ItemAddr(items, i)))
  }

  function DecodeMapEntryArray(entries: nat, len: nat): (cells: seq<EntryStruct>) {
    if entries == 0 || len == 0 then []
    else
      seq(len, i requires 0 <= i < len =>
        EntryStruct(EntryAddr(entries, i), CellStruct(EntryAddr(entries, i) + 16)))
  }

  /** The cases of the struct walk but lists and maps: the fields come decoded, and a string's pointer is looked at
      before its length. */
  method StructLeaf(m: Mem, val: CellStruct, ghost img: Img) returns (r: Outcome<Value>)
    requires At(m, val.at, img) && !img.IList? && !img.IMap?
    ensures r == Interp(TsStructs, img)
  {
    ReadTag(m, val.at, img);
    var kind, data := LoadInt(m, val.at, 4), val.at + 8;
    if kind == TAG_NULL {
      r := Ok(Null);
    } else if kind == TAG_BOOL {
      HoldsWritten(m, data, [if img.b then 1 else 0]);
      assert data in m;
      r := Ok(Bool(m[data] != 0));
    } else if kind == TAG_INT {
      LoadU64(m, data, img.bits);
      r := Ok(Int(FromBits64(LoadInt(m, data, 8))));
    } else if kind == TAG_FLOAT {
      LoadU64(m, data, img.bits);
      r := Ok(Float(LoadInt(m, data, 8)));
    } else if kind == TAG_STRING {
      var text := StructText(m, data, img.buf);
      r := Ok(Str(text));
    } else if kind == TAG_BYTES {
      var bytes := DecodeBytes(m, data, img.buf);
      r := Ok(Bytes(bytes));
    } else if kind == TAG_VECTOR {
      var floats := DecodeFloats(m, data, img);
      r := Ok(Vector(floats));
    } else {
      r := Fail(Unsupported);
    }
  }

  method StructText(m: Mem, at: nat, ghost buf: Buf) returns (text: seq<byte>)
    requires BufAt(m, at, buf)
    ensures TextValue(TsStructs, buf) == Ok(text)
  {
    ReadBuf(m, at, buf);
    var ptr := LoadInt(m, at, 8);
    if ptr == 0 {
      return [];
    }
    var len := LoadInt(m, at + 8, 8);
    if len == 0 {
      return [];
    }
    text := UpToZero(Load(m, ptr, len));
  }

  method LatticeValueToJs(m: Mem, noise: int -> nat, val: CellStruct, ghost img: Img) returns (r: Outcome<Value>)
    requires At(m, val.at, img)
    ensures r == Interp(TsStructs, img)
    decreases img, 2
  {
    hide At, Interp, LoadInt, Written;
    ReadTag(m, val.at, img);
    var tag := LoadInt(m, val.at, 4);
    if tag == TAG_LIST {
      r := StructList(m, noise, val, img);
    } else if tag == TAG_MAP {
      r := StructMap(m, noise, val, img);
    } else {
      r := StructLeaf(m, val, img);
    }
  }

  method StructList(m: Mem, noise: int -> nat, val: CellStruct, ghost img: Img) returns (r: Outcome<Value>)
    requires At(m, val.at, img) && img.IList?
    ensures r == Interp(TsStructs, img)
    decreases img, 1
  {
    hide At, LoadInt, Written;
    ReadList(m, val.at, img);
    var listVal := LoadInt(m, val.at + 8, 8);
    if listVal == 0 {
      return Fail(Crash);  // decodeListStruct cannot decode a null pointer
    }
    var cells := DecodeValueArray(PeekWord(m, listVal, noise), LoadInt(m, listVal + 8, 8));
    var items := MapCells(m, noise, cells, img.elems, img);
    r := if items.Ok? then Ok(List(items.value)) else Fail(items.error);
  }

  method MapCells(m: Mem, noise: int -> nat, cells: seq<CellStruct>, ghost elems: seq<Img>, ghost img: Img)
    returns (r: Outcome<seq<Value>>)
    requires |cells| == |elems|
    requires forall i | 0 <= i < |elems| :: At(m, cells[i].at, elems[i]) && elems[i] < img
    ensures r == InterpElems(TsStructs, elems)
    decreases img, 0, |cells|
  {
    if cells == [] {
      return Ok([]);
    }
    var n := |cells| - 1;
    var init := MapCells(m, noise, cells[..n], elems[..n], img);
    if init.Fail? {
      return init;
    }
    var last := LatticeValueToJs(m, noise, cells[n], elems[n]);
    r := if last.Ok? then Ok(init.value + [last.value]) else Fail(last.error);
  }

  method StructMap(m: Mem, noise: int -> nat, val: CellStruct, ghost img: Img) returns (r: Outcome<Value>)
    requires At(m, val.at, img) && img.IMap?
    ensures r == Interp(TsStructs, img)
    decreases img, 1
  {
    hide At, BufAt, LoadInt, Written, BufValue, KeyValue;
    ReadMap(m, val.at, img);
    var mapVal := LoadInt(m, val.at + 8, 8);
    if mapVal == 0 {
      return Fail(Crash);  // decodeMapStruct cannot decode a null pointer
    }
    var entries := DecodeMapEntryArray(PeekWord(m, mapVal, noise), LoadInt(m, mapVal + 8, 8));
    var result := StructEntries(m, noise, entries, img);
    r := if result.Ok? then Ok(Map(result.value)) else Fail(result.error);
  }

  method StructEntries(m: Mem, noise: int -> nat, entries: seq<EntryStruct>, ghost img: Img)
    returns (r: Outcome<map<seq<byte>, Value>>)
    requires img.IMap? && |entries| == |img.keys| == |img.vals|
    requires forall i | 0 <= i < |entries| :: BufAt(m, entries[i].key, img.keys[i])
    requires forall i | 0 <= i < |entries| :: At(m, entries[i].value.at, img.vals[i])
    ensures r == InterpEntries(TsStructs, img.keys, img.vals)
    decreases img, 0
  {
    hide At, BufAt, BufValue, KeyValue, Interp, InterpEntries, PutKey;
    var result: map<seq<byte>, Value> := map[];
    assert InterpEntries(TsStructs, img.keys[..0], img.vals[..0]) == Ok(result) by { InterpNoEntries(TsStructs); }
    for i := 0 to |entries|
      invariant InterpEntries(TsStructs, img.keys[..i], img.vals[..i]) == Ok(result)
    {
      InterpEntriesStep(TsStructs, img.keys, img.vals, i);
      var key := DecodeText(m, entries[i].key, img.keys[i]);
      var item := LatticeValueToJs(m, noise, entries[i].value, img.vals[i]);
      if item.Fail? {
        InterpEntriesStops(TsStructs, img.keys, img.vals, i + 1, item.error);
        return Fail(item.error);
      }
      result := PutKey(TsStructs, result, key, item.value);
    }
    assert img.keys[..|entries|] == img.keys && img.vals[..|entries|] == img.vals;
    r := Ok(result);
  }

  // ------------------------------------------------------------------ the two walks agree

  ghost predicate KnownTags(img: Img)
    decreases img
  {
    match img
    case IOther(_) => false
    case IList(_, _, _, elems) => forall i | 0 <= i < |elems| :: KnownTags(elems[i])
    case IMap(_, _, _, _, vals) => forall i | 0 <= i < |vals| :: KnownTags(vals[i])
    case _ => true
  }

  ghost predicate NoNullContainer(img: Img)
    decreases img
  {
    match img
    case IList(hdr, _, _, elems) => hdr != 0 && forall i | 0 <= i < |elems| :: NoNullContainer(elems[i])
    case IMap(hdr, _, _, _, vals) => hdr != 0 && forall i | 0 <= i < |vals| :: NoNullContainer(vals[i])
    case _ => true
  }

  /** A parse lists exactly the elements its decoders visit. */
  ghost predicate Exact(img: Img)
    decreases img
  {
    match img
    case IList(hdr, first, len, elems) =>
      && (hdr == 0 ==> elems == []) && |elems| == (if first.Ptr() == 0 then 0 else len)
      && forall i | 0 <= i < |elems| :: Exact(elems[i])
    case IMap(hdr, first, len, keys, vals) =>
      && (hdr == 0 ==> keys == []) && |vals| == |keys| == (if first.Ptr() == 0 then 0 else len)
      && forall i | 0 <= i < |vals| :: Exact(vals[i])
    case _ => true
  }

  lemma {:induction false} AtIsExact(m: Mem, a: int, img: Img)
    requires At(m, a, img)
    ensures Exact(img)
    decreases img
  {
    match img
    case IList(hdr, first, _, elems) =>
      forall i | 0 <= i < |elems| ensures Exact(elems[i]) { AtIsExact(m, ItemAddr(first.Ptr(), i), elems[i]); }
    case IMap(hdr, first, _, keys, vals) =>
      forall i | 0 <= i < |vals| ensures Exact(vals[i]) { AtIsExact(m, EntryAddr(first.Ptr(), i) + 16, vals[i]); }
    case _ =>
  }

  /** What a walk in visiting order meets first: a tag it does not know, or a null list or map. */
  datatype Stop = Clear | UnknownTag | NullContainer

  function FirstStop(img: Img): Stop
    decreases img, 0
  {
    match img
    case IOther(_) => UnknownTag
    case IList(hdr, _, _, elems) => if hdr == 0 then NullContainer else FirstStopIn(elems)
    case IMap(hdr, _, _, _, vals) => if hdr == 0 then NullContainer else FirstStopIn(vals)
    case _ => Clear
  }

  function FirstStopIn(imgs: seq<Img>): Stop
    decreases imgs, 1
  {
    if imgs == [] then Clear
    else
      var before := FirstStopIn(imgs[..|imgs| - 1]);
      if before.Clear? then FirstStop(imgs[|imgs| - 1]) else before
  }

  /** With nothing in the way the walks agree on a value; both refuse an unknown tag that comes first; at a null
      list or map the struct walk crashes, while the offset walk, which never does, goes on. */
  ghost predicate Outcomes<T>(stop: Stop, offsets: Outcome<T>, structs: Outcome<T>) {
    match stop
    case Clear => offsets.Ok? && structs == offsets
    case UnknownTag => offsets == structs == Fail(Unsupported)
    case NullContainer => structs == Fail(Crash) && offsets != Fail(Crash)
  }

  lemma {:induction false} WalkOutcomes(img: Img)
    requires Exact(img)
    ensures Outcomes(FirstStop(img), Interp(TsOffsets, img), Interp(TsStructs, img))
    decreases img, 1
  {
    match img
    case IList(_, _, _, elems) => ElemOutcomes(elems, img);
    case IMap(_, _, _, keys, vals) => EntryOutcomes(keys, vals, img);
    case _ =>
  }

  lemma {:induction false} ElemOutcomes(elems: seq<Img>, img: Img)
    requires forall i | 0 <= i < |elems| :: Exact(elems[i]) && elems[i] < img
    ensures Outcomes(FirstStopIn(elems), InterpElems(TsOffsets, elems), InterpElems(TsStructs, elems))
    decreases img, 0, |elems|
  {
    hide Interp, FirstStop;
    if elems != [] {
      ElemOutcomes(elems[..|elems| - 1], img);
      WalkOutcomes(elems[|elems| - 1]);
    }
  }

  lemma {:induction false} EntryOutcomes(keys: seq<Buf>, vals: seq<Img>, img: Img)
    requires |keys| == |vals|
    requires forall i | 0 <= i < |vals| :: Exact(vals[i]) && vals[i] < img
    ensures Outcomes(FirstStopIn(vals), InterpEntries(TsOffsets, keys, vals), InterpEntries(TsStructs, keys, vals))
    decreases img, 0, |vals|
  {
    hide Interp, FirstStop, BufValue, UpToZero;
    if vals != [] {
      EntryOutcomes(keys[..|keys| - 1], vals[..|vals| - 1], img);
      WalkOutcomes(vals[|vals| - 1]);
      KeysAlike(keys[|keys| - 1]);
    }
  }

  lemma KeysAlike(buf: Buf)
    ensures KeyValue(TsOffsets, buf) == KeyValue(TsStructs, buf) && KeyValue(TsOffsets, buf).Ok?
  {
  }

  /** Laid out as the C structs, whatever its tags, an image reads the same both ways, value or error, exactly
      when the first thing in the way is not a null list or map. */
  lemma WalksAgreeExactly(m: Mem, a: int, img: Img)
    requires At(m, a, img)
    ensures Interp(TsOffsets, img) == Interp(TsStructs, img) <==> !FirstStop(img).NullContainer?
  {
    AtIsExact(m, a, img);
    WalkOutcomes(img);
  }

  /** On images whose tags are all known the offset walk never fails, and the struct walk fails exactly when there
      is a null list or map anywhere. */
  lemma WalksOnKnownTags(img: Img)
    requires Exact(img) && KnownTags(img)
    ensures Interp(TsOffsets, img).Ok?
    ensures Interp(TsStructs, img).Ok? <==> NoNullContainer(img)
    ensures Interp(TsOffsets, img) == Interp(TsStructs, img) <==> NoNullContainer(img)
  {
    WalkOutcomes(img);
    StopOnKnownTags(img);
    OffsetsGoOn(img);
  }

  lemma {:induction false} StopOnKnownTags(img: Img)
    requires KnownTags(img)
    ensures FirstStop(img) == if NoNullContainer(img) then Clear else NullContainer
    decreases img, 1
  {
    match img
    case IList(_, _, _, elems) => StopsOnKnownTags(elems, img);
    case IMap(_, _, _, _, vals) => StopsOnKnownTags(vals, img);
    case _ =>
  }

  lemma {:induction false} StopsOnKnownTags(imgs: seq<Img>, img: Img)
    requires forall i | 0 <= i < |imgs| :: KnownTags(imgs[i]) && imgs[i] < img
    ensures FirstStopIn(imgs)
         == if forall i | 0 <= i < |imgs| :: NoNullContainer(imgs[i]) then Clear else NullContainer
    decreases img, 0, |imgs|
  {
    hide FirstStop, NoNullContainer, KnownTags;
    if imgs != [] {
      StopsOnKnownTags(imgs[..|imgs| - 1], img);
      StopOnKnownTags(imgs[|imgs| - 1]);
    }
  }

  lemma {:induction false} OffsetsGoOn(img: Img)
    requires KnownTags(img)
    ensures Interp(TsOffsets, img).Ok?
    decreases img, 1
  {
    match img
    case IList(_, _, _, elems) => OffsetsGoOnIn(elems, img);
    case IMap(_, _, _, keys, vals) => EntriesGoOn(keys, vals, img);
    case _ =>
  }

  lemma {:induction false} OffsetsGoOnIn(elems: seq<Img>, img: Img)
    requires forall i | 0 <= i < |elems| :: KnownTags(elems[i]) && elems[i] < img
    ensures InterpElems(TsOffsets, elems).Ok?
    decreases img, 0, |elems|
  {
    hide Interp;
    if elems != [] {
      OffsetsGoOnIn(elems[..|elems| - 1], img);
      OffsetsGoOn(elems[|elems| - 1]);
    }
  }

  lemma {:induction false} EntriesGoOn(keys: seq<Buf>, vals: seq<Img>, img: Img)
    requires forall i | 0 <= i < |vals| :: KnownTags(vals[i]) && vals[i] < img
    ensures InterpEntries(TsOffsets, keys, vals).Ok?
    decreases img, 0, |vals|
  {
    hide Interp, BufValue, UpToZero;
    if keys != [] && vals != [] {
      EntriesGoOn(keys[..|keys| - 1], vals[..|vals| - 1], img);
      OffsetsGoOn(vals[|vals| - 1]);
      KeysAlike(keys[|keys| - 1]);
    }
  }

  /** A list cell with a null pointer, as it lies in memory: an empty list to one walk, a crash to the other. */
  lemma NullListExample()
    ensures var m := Store(Store(map[], 16, Le(TAG_LIST, 4)), 24, Le(0, 8));
            var img := IList(0, Unset, 0, []);
            && At(m, 16, img)
            && Interp(TsOffsets, img) == Ok(List([]))
            && Interp(TsStructs, img) == Fail(Crash)
  {
    hide Store, Le, Holds, Extends;
    var tagged := Store(map[], 16, Le(TAG_LIST, 4));
    var m := Store(tagged, 24, Le(0, 8));
    StoreHolds(map[], 16, Le(TAG_LIST, 4));
    StoreHolds(tagged, 24, Le(0, 8));
    WordsExtend(tagged, m);
    assert U32(m, 16, TAG_LIST) && U64(m, 24, 0);
    assert HeaderAt(m, 0, Unset, 0, 0, 24);
  }
}
