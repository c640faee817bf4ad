/** The Python binding's decoder, bindings/python/src/latticedb/_bindings.py: `value_to_python`. */
module PyDecode {
  import opened Memory
  import opened NativeValue

  /** `ctypes.string_at`, which takes the length as C's `int`. */
  method StringAt(m: Mem, ptr: nat, length: nat, ghost buf: Buf) returns (r: Outcome<seq<byte>>)
    requires ptr == buf.ptr != 0 && length == buf.len == |buf.data| && Holds(m, ptr, buf.data)
    ensures length > 0 ==> r == BufValue(Python, buf)
    ensures length == 0 ==> r == Ok([])
  {
    var n := CInt(length);
    if n < 0 {
      return Fail(Crash);
    }
    HoldsPart(m, ptr, buf.data, 0, buf.data[..n]);
    HoldsWritten(m, ptr, buf.data[..n]);
    r := Ok(Load(m, ptr, n));
  }

  /** Strings and bytes: the pointer and the length are looked at first. */
  method DataAt(m: Mem, ptr: nat, length: nat, ghost a: int, ghost buf: Buf) returns (r: Outcome<seq<byte>>)
    requires BufAt(m, a, buf) && ptr == buf.ptr && length == buf.len
    ensures r == BufValue(Python, buf) == TextValue(Python, buf)
  {
    if ptr == 0 || length == 0 {
      return Ok([]);
    }
    r := StringAt(m, ptr, length, buf);
  }

  /** The bytes of a key: here only the length is looked at. */
  method KeyAt(m: Mem, ptr: nat, length: nat, ghost a: int, ghost buf: Buf) returns (r: Outcome<seq<byte>>)
    requires BufAt(m, a, buf) && ptr == buf.ptr && length == buf.len
    ensures r == KeyValue(Python, buf)
  {
    if length == 0 {
      return Ok([]);
    }
    if ptr == 0 {
      return Fail(Crash);
    }
    r := StringAt(m, ptr, length, buf);
  }

  method ValueToPython(m: Mem, a: nat, ghost img: Img) returns (r: Outcome<Value>)
    requires At(m, a, img)
    ensures r == Interp(Python, img)
    decreases img, 2
  {
    ReadTag(m, a, img);
    var tag := LoadInt(m, a, 4);
    if tag == TAG_NULL {
      r := Ok(Null);
    } else if tag == TAG_BOOL {
      HoldsWritten(m, a + 8, [if img.b then 1 else 0]);
      assert a + 8 in m;
      r := Ok(Bool(m[a + 8] != 0));
    } else if tag == TAG_INT {
      LoadU64(m, a + 8, img.bits);
      r := Ok(Int(FromBits64(LoadInt(m, a + 8, 8))));
    } else if tag == TAG_FLOAT {
      LoadU64(m, a + 8, img.bits);
      r := Ok(Float(LoadInt(m, a + 8, 8)));
    } else if tag == TAG_STRING || tag == TAG_BYTES {
      ReadBuf(m, a + 8, img.buf);
      var data := DataAt(m, LoadInt(m, a + 8, 8), LoadInt(m, a + 16, 8), a + 8, img.buf);
      r := match data
           case Fail(e) => Fail(e)
           case Ok(s) => Ok(if tag == TAG_STRING then Str(s) else Bytes(s));
    } else if tag == TAG_VECTOR {
      r := ArrayToPython(m, a, img);
    } else if tag == TAG_LIST {
      r := ListToPython(m, a, img);
    } else if tag == TAG_MAP {
      r := MapToPython(m, a, img);
    } else {
      r := Fail(Unsupported);
    }
  }

  method ArrayToPython(m: Mem, a: nat, ghost img: Img) returns (r: Outcome<Value>)
    requires At(m, a, img) && img.IVector?
    ensures r == Interp(Python, img)
  {
    hide At, LoadInt, Written, FloatsAt, U32, FloatAddr;
    ReadVector(m, a, img);
    var ptr, length := LoadInt(m, a + 8, 8), LoadInt(m, a + 16, 4);
    if ptr == 0 || length == 0 {
      assert img.floats == [];
      return Ok(Vector([]));
    }
    var out: seq<nat> := [];
    while |out| < length
      invariant |out| <= length && out == img.floats[..|out|]
    {
      var i := |out|;
      ReadFloat(m, ptr, img.floats, i);
      out := out + [LoadInt(m, FloatAddr(ptr, i), 4)];
    }
    assert out == img.floats;
    r := Ok(Vector(out));
  }

  method ListToPython(m: Mem, a: nat, ghost img: Img) returns (r: Outcome<Value>)
    requires At(m, a, img) && img.IList?
    ensures r == Interp(Python, img)
    decreases img, 0
  {
    hide At, LoadInt, Written;
    ReadList(m, a, img);
    var list := LoadInt(m, a + 8, 8);
    if list == 0 {
      return Fail(InvalidArg);
    }
    var length := LoadInt(m, list + 8, 8);
    if length == 0 {
      return Ok(List([]));
    }
    var items := LoadInt(m, list, 8);
    if items == 0 {
      return Fail(Crash);
    }
    var out: seq<Value> := [];
    var i := 0;
    while i < length
      invariant 0 <= i <= length
      invariant InterpElems(Python, img.elems[..i]) == Ok(out)
    {
      InterpElemsStep(Python, img.elems, i);
      var decoded := ValueToPython(m, ItemAddr(items, i), img.elems[i]);
      if decoded.Fail? {
        InterpElemsStops(Python, img.elems, i + 1, decoded.error);
        return Fail(decoded.error);
      }
      out := out + [decoded.value];
      i := i + 1;
    }
    assert img.elems[..i] == img.elems;
    r := Ok(List(out));
  }

  method MapToPython(m: Mem, a: nat, ghost img: Img) returns (r: Outcome<Value>)
    requires At(m, a, img) && img.IMap?
    ensures r == Interp(Python, img)
    decreases img, 1
  {
    hide At, BufAt, LoadInt, Written;
    ReadMap(m, a, img);
    var cMap := LoadInt(m, a + 8, 8);
    if cMap == 0 {
      return Fail(InvalidArg);
    }
    var length := LoadInt(m, cMap + 8, 8);
    if length == 0 {
      return Ok(Map(map[]));
    }
    var entries := LoadInt(m, cMap, 8);
    if entries == 0 {
      return Fail(Crash);
    }
    var out := EntriesToPython(m, entries, length, img);
    r := if out.Ok? then Ok(Map(out.value)) else Fail(out.error);
  }

  method EntriesToPython(m: Mem, entries: nat, length: nat, ghost img: Img) returns (r: Outcome<map<seq<byte>, Value>>)
    requires img.IMap? && length == |img.keys| == |img.vals|
    requires forall i | 0 <= i < length :: BufAt(m, EntryAddr(entries, i), img.keys[i])
    requires forall i | 0 <= i < length :: At(m, EntryAddr(entries, i) + 16, img.vals[i])
    ensures r == InterpEntries(Python, img.keys, img.vals)
    decreases img, 0
  {
    hide At, BufAt, LoadInt, Written, BufValue, KeyValue, Interp, InterpEntries;
    var out: map<seq<byte>, Value> := map[];
    assert InterpEntries(Python, img.keys[..0], img.vals[..0]) == Ok(out) by { InterpNoEntries(Python); }
    var i := 0;
    while i < length
      invariant 0 <= i <= length
      invariant InterpEntries(Python, img.keys[..i], img.vals[..i]) == Ok(out)
    {
      InterpEntriesStep(Python, img.keys, img.vals, i);
      var at := EntryAddr(entries, i);
      ReadBuf(m, at, img.keys[i]);
      var key := KeyAt(m, LoadInt(m, at, 8), LoadInt(m, at + 8, 8), at, img.keys[i]);
      if key.Fail? {
        InterpEntriesStops(Python, img.keys, img.vals, i + 1, key.error);
        return Fail(key.error);
      }
      var decoded := ValueToPython(m, at + 16, img.vals[i]);
      if decoded.Fail? {
        InterpEntriesStops(Python, img.keys, img.vals, i + 1, decoded.error);
        return Fail(decoded.error);
      }
      out := out[key.value := decoded.value];
      i := i + 1;
    }
    assert img.keys[..i] == img.keys && img.vals[..i] == img.vals;
    r := Ok(out);
  }
}
