/** Property values and their native form.

    `lattice_value` is a tagged 24-byte cell; lists and maps hang off it by pointer (include/lattice.h).
    An `Img` is a finite parse of the memory reachable from one cell: every pointer, length and payload
    that a decoder may look at. `At(m, a, img)` says that memory `m` holds that parse at address `a`. */
module NativeValue {
  import opened Memory

  // ------------------------------------------------------------------ values

  /** The nine shapes a property value can take. Floats are opaque bits; strings and keys are UTF-8. */
  datatype Value =
    | Null
    | Bool(b: bool)
    | Int(i: int)
    | Float(bits: nat)
    | Str(text: seq<byte>)
    | Bytes(raw: seq<byte>)
    | Vector(floats: seq<nat>)
    | List(items: seq<Value>)
    | Map(entries: map<seq<byte>, Value>)

  // ------------------------------------------------------------------ layout

  const TAG_NULL := 0
  const TAG_BOOL := 1
  const TAG_INT := 2
  const TAG_FLOAT := 3
  const TAG_STRING := 4
  const TAG_BYTES := 5
  const TAG_VECTOR := 6
  const TAG_LIST := 7
  const TAG_MAP := 8

  // A cell is 24 bytes: the tag at 0 and the union at 8. A list or map header is 16 bytes: the pointer
  // at 0 and the length at 8. A map entry is 40 bytes: the key at 0, its length at 8, a cell at 16.

  function ItemAddr(first: nat, i: nat): nat { first + 24 * i }

  function EntryAddr(first: nat, i: nat): nat { first + 40 * i }

  function FloatAddr(first: nat, i: nat): nat { first + 4 * i }

  /** A pointer and a length, with the bytes behind them (none behind a null pointer). */
  datatype Buf = Buf(ptr: nat, len: nat, data: seq<byte>)

  /** A field that may still be uninitialised. */
  datatype Field = Unset | Set(ptr: nat) {
    function Ptr(): nat { if Set? then ptr else 0 }
  }

  datatype Img =
    | INull
    | IBool(b: bool)
    | IInt(bits: nat)
    | IFloat(bits: nat)
    | IStr(buf: Buf)
    | IBytes(buf: Buf)
    | IVector(vec: nat, dims: nat, floats: seq<nat>)
    | IList(hdr: nat, first: Field, len: nat, elems: seq<Img>)
    | IMap(hdr: nat, first: Field, len: nat, keys: seq<Buf>, vals: seq<Img>)
    | IOther(tag: nat)

  ghost predicate BufAt(m: Mem, a: int, buf: Buf) {
    && U64(m, a, buf.ptr)
    && U64(m, a + 8, buf.len)
    && (if buf.ptr == 0 then buf.data == [] else |buf.data| == buf.len && Holds(m, buf.ptr, buf.data))
  }

  /** A list or map header: where its elements start and how many there are, `stride` bytes apart and
      inside the address space. `first` may be unset only when there are none. */
  ghost predicate HeaderAt(m: Mem, hdr: nat, first: Field, len: nat, count: nat, stride: nat) {
    if hdr == 0 then first == Unset && len == 0 && count == 0
    else
      && U64(m, hdr + 8, len)
      && (first.Set? ==> U64(m, hdr, first.ptr))
      && (len > 0 ==> first.Set?)
      && count == (if first.Ptr() == 0 then 0 else len)
      && first.Ptr() + stride * count <= WORD
  }

  ghost predicate At(m: Mem, a: int, img: Img)
    decreases img
  {
    match img
    case INull => U32(m, a, TAG_NULL)
    case IBool(b) => U32(m, a, TAG_BOOL) && Holds(m, a + 8, [if b then 1 else 0])
    case IInt(bits) => U32(m, a, TAG_INT) && U64(m, a + 8, bits)
    case IFloat(bits) => U32(m, a, TAG_FLOAT) && U64(m, a + 8, bits)
    case IStr(buf) => U32(m, a, TAG_STRING) && BufAt(m, a + 8, buf)
    case IBytes(buf) => U32(m, a, TAG_BYTES) && BufAt(m, a + 8, buf)
    case IVector(vec, dims, floats) =>
      && U32(m, a, TAG_VECTOR) && U64(m, a + 8, vec) && U32(m, a + 16, dims)
      && |floats| == (if vec == 0 then 0 else dims)
      && FloatsAt(m, vec, floats)
    case IList(hdr, first, len, elems) =>
      && U32(m, a, TAG_LIST) && U64(m, a + 8, hdr)
      && HeaderAt(m, hdr, first, len, |elems|, 24)
      && forall i | 0 <= i < |elems| :: At(m, ItemAddr(first.Ptr(), i), elems[i])
    case IMap(hdr, first, len, keys, vals) =>
      && U32(m, a, TAG_MAP) && U64(m, a + 8, hdr)
      && HeaderAt(m, hdr, first, len, |keys|, 40) && |vals| == |keys|
      && (forall i | 0 <= i < |keys| :: BufAt(m, EntryAddr(first.Ptr(), i), keys[i]))
      && forall i | 0 <= i < |vals| :: At(m, EntryAddr(first.Ptr(), i) + 16, vals[i])
    case IOther(tag) => tag > TAG_MAP && U32(m, a, tag)
  }

  ghost predicate FloatsAt(m: Mem, a: nat, floats: seq<nat>) {
    forall i | 0 <= i < |floats| :: U32(m, FloatAddr(a, i), floats[i])
  }

  lemma BufAtExtends(m: Mem, m': Mem, a: int, buf: Buf)
    requires BufAt(m, a, buf) && Extends(m, m')
    ensures BufAt(m', a, buf)
  {
  }

  lemma HeaderAtExtends(m: Mem, m': Mem, hdr: nat, first: Field, len: nat, count: nat, stride: nat)
    requires HeaderAt(m, hdr, first, len, count, stride) && Extends(m, m')
    ensures HeaderAt(m', hdr, first, len, count, stride)
  {
  }

  lemma FloatsAtExtends(m: Mem, m': Mem, a: nat, floats: seq<nat>)
    requires FloatsAt(m, a, floats) && Extends(m, m')
    ensures FloatsAt(m', a, floats)
  {
  }

  lemma WordsExtend(m: Mem, m': Mem)
    requires Extends(m, m')
    ensures forall a, n :: U32(m, a, n) ==> U32(m', a, n)
    ensures forall a, n :: U64(m, a, n) ==> U64(m', a, n)
    ensures forall a, s :: Holds(m, a, s) ==> Holds(m', a, s)
  {
  }

  /** Writing elsewhere does not disturb a value that is already in memory. */
  lemma {:induction false} AtExtends(m: Mem, m': Mem, a: int, img: Img)
    requires At(m, a, img) && Extends(m, m')
    ensures At(m', a, img)
    decreases img
  {
    WordsExtend(m, m');
    match img
    case IStr(buf) => BufAtExtends(m, m', a + 8, buf);
    case IBytes(buf) => BufAtExtends(m, m', a + 8, buf);
    case IVector(vec, _, floats) => FloatsAtExtends(m, m', vec, floats);
    case IList(hdr, first, len, elems) =>
      HeaderAtExtends(m, m', hdr, first, len, |elems|, 24);
      forall i | 0 <= i < |elems|
        ensures At(m', ItemAddr(first.Ptr(), i), elems[i])
      {
        AtExtends(m, m', ItemAddr(first.Ptr(), i), elems[i]);
      }
    case IMap(hdr, first, len, keys, vals) =>
      HeaderAtExtends(m, m', hdr, first, len, |keys|, 40);
      forall i | 0 <= i < |vals|
        ensures At(m', EntryAddr(first.Ptr(), i) + 16, vals[i])
      {
        AtExtends(m, m', EntryAddr(first.Ptr(), i) + 16, vals[i]);
      }
      forall i | 0 <= i < |keys|
        ensures BufAt(m', EntryAddr(first.Ptr(), i), keys[i])
      {
        BufAtExtends(m, m', EntryAddr(first.Ptr(), i), keys[i]);
      }
    case _ =>
  }

  // ------------------------------------------------------------------ pointers in an image

  function NonNull(ptr: nat): seq<nat> {
    if ptr == 0 then [] else [ptr]
  }

  /** Every non-null pointer reachable from the cell, in depth-first order. */
  function Pointers(img: Img): seq<nat>
    decreases img, 0
  {
    match img
    case IStr(buf) => NonNull(buf.ptr)
    case IBytes(buf) => NonNull(buf.ptr)
    case IVector(vec, _, _) => NonNull(vec)
    case IList(hdr, first, _, elems) => NonNull(hdr) + NonNull(first.Ptr()) + ElemPointers(elems)
    case IMap(hdr, first, _, keys, vals) => NonNull(hdr) + NonNull(first.Ptr()) + EntryPointers(keys, vals)
    case _ => []
  }

  function ElemPointers(elems: seq<Img>): seq<nat>
    decreases elems, 1
  {
    if elems == [] then []
    else ElemPointers(elems[..|elems| - 1]) + Pointers(elems[|elems| - 1])
  }

  function EntryPointers(keys: seq<Buf>, vals: seq<Img>): seq<nat>
    decreases vals, 1
  {
    if vals == [] || keys == [] then []
    else
      EntryPointers(keys[..|keys| - 1], vals[..|vals| - 1])
      + NonNull(keys[|keys| - 1].ptr) + Pointers(vals[|vals| - 1])
  }

  // ------------------------------------------------------------------ what an encoder must produce

  ghost predicate BufOf(buf: Buf, data: seq<byte>) {
    buf.data == data && buf.len == |data| && (buf.ptr == 0 ==> data == [])
  }

  /** The keys of the entries, in the order the encoder happened to visit them. */
  function KeyData(keys: seq<Buf>): (ks: seq<seq<byte>>)
    ensures |ks| == |keys|
  {
    seq(|keys|, i requires 0 <= i < |keys| => keys[i].data)
  }

  ghost predicate NoDuplicates<T>(s: seq<T>) {
    forall i, j | 0 <= i < j < |s| :: s[i] != s[j]
  }

  /** `img` is an encoding of `v`: same shape and payloads, map entries in any order, each key once.
      Integers keep their low 64 bits and vectors their low 32 bits of length. */
  ghost predicate Encodes(img: Img, v: Value)
    decreases img
  {
    match v
    case Null => img.INull?
    case Bool(b) => img == IBool(b)
    case Int(i) => img == IInt(ToBits64(i))
    case Float(bits) => img == IFloat(bits)
    case Str(text) => img.IStr? && BufOf(img.buf, text)
    case Bytes(raw) => img.IBytes? && BufOf(img.buf, raw)
    case Vector(floats) =>
      && img.IVector?
      && img.dims == |floats| % 0x1_0000_0000
      && img.floats == floats[..img.dims]
    case List(items) =>
      && img.IList? && img.hdr != 0
      && img.len == |img.elems| == |items|
      && (img.len > 0 ==> img.first.Ptr() != 0)
      && forall i | 0 <= i < |items| :: Encodes(img.elems[i], items[i])
    case Map(entries) =>
      && img.IMap? && img.hdr != 0
      && img.len == |img.keys| == |img.vals|
      && (img.len > 0 ==> img.first.Ptr() != 0)
      && NoDuplicates(KeyData(img.keys))
      && (forall k :: k in KeyData(img.keys) <==> k in entries)
      && forall i | 0 <= i < |img.vals| ::
           && BufOf(img.keys[i], img.keys[i].data)
           && img.keys[i].data in entries
           && Encodes(img.vals[i], entries[img.keys[i].data])
  }

  // ------------------------------------------------------------------ what the decoders return

  datatype Error = InvalidArg | Unsupported | Crash

  datatype Outcome<+T> = Ok(value: T) | Fail(error: Error)

  /** The four decoders of the bindings. */
  datatype Decoder =
    | Go         // decodeValue
    | Python     // value_to_python
    | TsOffsets  // nativeValueToJs, by offset arithmetic
    | TsStructs  // latticeValueToJs, on decoded structs

  const PROTO: seq<byte> := [95, 95, 112, 114, 111, 116, 111, 95, 95]  // "__proto__"

  predicate Js(d: Decoder) {
    d.TsOffsets? || d.TsStructs?
  }

  /** A map key. Only Python dereferences a key without looking for null first. */
  function KeyValue(d: Decoder, buf: Buf): Outcome<seq<byte>> {
    if d.Python? && buf.ptr == 0 && buf.len > 0 then Fail(Crash) else TextValue(d, buf)
  }

  /** Text, which koffi reads only up to the first zero byte. */
  function TextValue(d: Decoder, buf: Buf): Outcome<seq<byte>> {
    var raw := BufValue(d, buf);
    if Js(d) && raw.Ok? then Ok(UpToZero(raw.value)) else raw
  }

  function UpToZero(s: seq<byte>): (r: seq<byte>)
    ensures r == s <==> 0 !in s
    ensures 0 !in r && r <= s && (|r| < |s| ==> s[|r|] == 0)
  {
    if s == [] || s[0] == 0 then []
    else
      var r := [s[0]] + UpToZero(s[1..]);
      assert s == [s[0]] + s[1..] && r[1..] == UpToZero(s[1..]);
      r
  }

  /** The bytes a decoder takes from a buffer. Go and ctypes pass the length through C's `int`. */
  function BufValue(d: Decoder, buf: Buf): Outcome<seq<byte>> {
    if buf.ptr == 0 || buf.len == 0 then Ok([])
    else if d.Go? || d.Python? then
      var n := CInt(buf.len);
      if n < 0 then Fail(Crash) else Ok(if n <= |buf.data| then buf.data[..n] else buf.data)
    else Ok(buf.data)
  }

  /** Assigning to `__proto__` on a JavaScript object creates no property of that name. */
  function PutKey(d: Decoder, m: map<seq<byte>, Value>, k: seq<byte>, v: Value): map<seq<byte>, Value> {
    if Js(d) && k == PROTO then m else m[k := v]
  }

  /** What reaching a list or map header gives before any element is decoded: an empty container, an
      error, or (`None`) the elements. */
  datatype Start = Elements | Empty | Stop(error: Error)

  function Enter(d: Decoder, hdr: nat, first: Field, len: nat): Start {
    if hdr == 0 then
      (match d
       case Go => Stop(InvalidArg)
       case Python => Stop(InvalidArg)
       case TsOffsets => Empty
       case TsStructs => Stop(Crash))
    else if len == 0 then Empty
    else if first.Ptr() == 0 then
      (if d.Go? || d.Python? then Stop(Crash) else Empty)
    else Elements
  }

  /** The value a decoder returns for an image, or the error it raises. */
  function Interp(d: Decoder, img: Img): Outcome<Value>
    decreases img, 0
  {
    match img
    case INull => Ok(Null)
    case IBool(b) => Ok(Bool(b))
    case IInt(bits) => Ok(Int(FromBits64(bits)))
    case IFloat(bits) => Ok(Float(bits))
    case IStr(buf) =>
      (match TextValue(d, buf)
       case Ok(data) => Ok(Str(data))
       case Fail(e) => Fail(e))
    case IBytes(buf) =>
      (match BufValue(d, buf)
       case Ok(data) => Ok(Bytes(data))
       case Fail(e) => Fail(e))
    case IVector(vec, dims, floats) => Ok(Vector(floats))
    case IList(hdr, first, len, elems) =>
      (match Enter(d, hdr, first, len)
       case Stop(e) => Fail(e)
       case Empty => Ok(List([]))
       case Elements =>
         match InterpElems(d, elems)
         case Ok(vs) => Ok(List(vs))
         case Fail(e) => Fail(e))
    case IMap(hdr, first, len, keys, vals) =>
      (match Enter(d, hdr, first, len)
       case Stop(e) => Fail(e)
       case Empty => Ok(Map(map[]))
       case Elements =>
         match InterpEntries(d, keys, vals)
         case Ok(m) => Ok(Map(m))
         case Fail(e) => Fail(e))
    case IOther(_) => Fail(Unsupported)
  }

  /** One more element after those already decoded; the first failure wins. */
  function Append(done: Outcome<seq<Value>>, last: Outcome<Value>): Outcome<seq<Value>> {
    if done.Fail? then done
    else if last.Fail? then Fail(last.error)
    else Ok(done.value + [last.value])
  }

  /** One more entry; its key is read before its value. */
  function Put(d: Decoder, done: Outcome<map<seq<byte>, Value>>, key: Outcome<seq<byte>>, last: Outcome<Value>)
    : Outcome<map<seq<byte>, Value>>
  {
    if done.Fail? then done
    else if key.Fail? then Fail(key.error)
    else if last.Fail? then Fail(last.error)
    else Ok(PutKey(d, done.value, key.value, last.value))
  }

  function InterpElems(d: Decoder, elems: seq<Img>): Outcome<seq<Value>>
    decreases elems, 1
  {
    if elems == [] then Ok([])
    else Append(InterpElems(d, elems[..|elems| - 1]), Interp(d, elems[|elems| - 1]))
  }

  function InterpEntries(d: Decoder, keys: seq<Buf>, vals: seq<Img>): Outcome<map<seq<byte>, Value>>
    decreases vals, 1
  {
    if vals == [] || keys == [] then Ok(map[])
    else
      Put(d, InterpEntries(d, keys[..|keys| - 1], vals[..|vals| - 1]),
          KeyValue(d, keys[|keys| - 1]), Interp(d, vals[|vals| - 1]))
  }

  /** An element that fails stops the whole list. */
  lemma {:induction false} InterpElemsStops(d: Decoder, elems: seq<Img>, n: nat, e: Error)
    requires n <= |elems| && InterpElems(d, elems[..n]) == Fail(e)
    ensures InterpElems(d, elems) == Fail(e)
    decreases |elems|
  {
    if n < |elems| {
      var init := elems[..|elems| - 1];
      assert init[..n] == elems[..n];
      InterpElemsStops(d, init, n, e);
    } else {
      assert elems[..n] == elems;
    }
  }

  lemma {:induction false} InterpEntriesStops(d: Decoder, keys: seq<Buf>, vals: seq<Img>, n: nat, e: Error)
    requires |keys| == |vals| && n <= |keys| && InterpEntries(d, keys[..n], vals[..n]) == Fail(e)
    ensures InterpEntries(d, keys, vals) == Fail(e)
    decreases |keys|
  {
    if n < |keys| {
      var ks, vs := keys[..|keys| - 1], vals[..|vals| - 1];
      assert ks[..n] == keys[..n] && vs[..n] == vals[..n];
      InterpEntriesStops(d, ks, vs, n, e);
    } else {
      assert keys[..n] == keys && vals[..n] == vals;
    }
  }

  lemma InterpElemsStep(d: Decoder, elems: seq<Img>, i: nat)
    requires i < |elems|
    ensures InterpElems(d, elems[..i + 1]) == Append(InterpElems(d, elems[..i]), Interp(d, elems[i]))
  {
    assert elems[..i + 1][..i] == elems[..i];
  }

  lemma InterpNoEntries(d: Decoder)
    ensures InterpEntries(d, [], []) == Ok(map[])
  {
  }

  lemma InterpEntriesStep(d: Decoder, keys: seq<Buf>, vals: seq<Img>, i: nat)
    requires i < |keys| == |vals|
    ensures InterpEntries(d, keys[..i + 1], vals[..i + 1])
         == Put(d, InterpEntries(d, keys[..i], vals[..i]), KeyValue(d, keys[i]), Interp(d, vals[i]))
  {
    assert keys[..i + 1][..i] == keys[..i] && vals[..i + 1][..i] == vals[..i];
  }

  // ------------------------------------------------------------------ reading a cell

  function TagOf(img: Img): nat {
    match img
    case INull => TAG_NULL
    case IBool(_) => TAG_BOOL
    case IInt(_) => TAG_INT
    case IFloat(_) => TAG_FLOAT
    case IStr(_) => TAG_STRING
    case IBytes(_) => TAG_BYTES
    case IVector(_, _, _) => TAG_VECTOR
    case IList(_, _, _, _) => TAG_LIST
    case IMap(_, _, _, _, _) => TAG_MAP
    case IOther(tag) => tag
  }

  lemma ReadTag(m: Mem, a: int, img: Img)
    requires At(m, a, img)
    ensures Written(m, a, 4) && LoadInt(m, a, 4) == TagOf(img)
    ensures img.IOther? ==> TagOf(img) > TAG_MAP
  {
    LoadU32(m, a, TagOf(img));
  }

  lemma ReadBuf(m: Mem, a: int, buf: Buf)
    requires BufAt(m, a, buf)
    ensures Written(m, a, 8) && LoadInt(m, a, 8) == buf.ptr
    ensures Written(m, a + 8, 8) && LoadInt(m, a + 8, 8) == buf.len
    ensures buf.ptr != 0 ==> Written(m, buf.ptr, buf.len) && Load(m, buf.ptr, buf.len) == buf.data
  {
    LoadU64(m, a, buf.ptr);
    LoadU64(m, a + 8, buf.len);
    if buf.ptr != 0 {
      HoldsWritten(m, buf.ptr, buf.data);
    }
  }

  lemma ReadVector(m: Mem, a: int, img: Img)
    requires At(m, a, img) && img.IVector?
    ensures Written(m, a + 8, 8) && LoadInt(m, a + 8, 8) == img.vec
    ensures Written(m, a + 16, 4) && LoadInt(m, a + 16, 4) == img.dims
    ensures FloatsAt(m, img.vec, img.floats) && |img.floats| == (if img.vec == 0 then 0 else img.dims)
  {
    LoadU64(m, a + 8, img.vec);
    LoadU32(m, a + 16, img.dims);
  }

  lemma ReadFloat(m: Mem, vec: nat, floats: seq<nat>, i: nat)
    requires FloatsAt(m, vec, floats) && i < |floats|
    ensures Written(m, FloatAddr(vec, i), 4) && LoadInt(m, FloatAddr(vec, i), 4) == floats[i]
  {
    assert U32(m, FloatAddr(vec, i), floats[i]);
    LoadU32(m, FloatAddr(vec, i), floats[i]);
  }

  /** What a header may be read for. */
  ghost predicate ReadableHeader(m: Mem, a: int, hdr: nat, first: Field, len: nat, count: nat) {
    && Written(m, a + 8, 8) && LoadInt(m, a + 8, 8) == hdr
    && (hdr != 0 ==> Written(m, hdr + 8, 8) && LoadInt(m, hdr + 8, 8) == len)
    && (hdr != 0 && first.Set? ==> Written(m, hdr, 8) && LoadInt(m, hdr, 8) == first.ptr)
    && (len > 0 ==> first.Set?)
    && count == (if first.Ptr() == 0 then 0 else len)
  }

  lemma ReadHeader(m: Mem, a: int, hdr: nat, first: Field, len: nat, count: nat, stride: nat)
    requires U64(m, a + 8, hdr) && HeaderAt(m, hdr, first, len, count, stride)
    ensures ReadableHeader(m, a, hdr, first, len, count)
  {
    hide Holds;
    LoadU64(m, a + 8, hdr);
    if hdr != 0 {
      LoadU64(m, hdr + 8, len);
      if first.Set? {
        LoadU64(m, hdr, first.ptr);
      }
    }
  }

  lemma ReadList(m: Mem, a: int, img: Img)
    requires At(m, a, img) && img.IList?
    ensures ReadableHeader(m, a, img.hdr, img.first, img.len, |img.elems|)
    ensures forall i | 0 <= i < |img.elems| :: At(m, ItemAddr(img.first.Ptr(), i), img.elems[i])
  {
    ReadHeader(m, a, img.hdr, img.first, img.len, |img.elems|, 24);
  }

  lemma ReadMap(m: Mem, a: int, img: Img)
    requires At(m, a, img) && img.IMap?
    ensures ReadableHeader(m, a, img.hdr, img.first, img.len, |img.keys|) && |img.keys| == |img.vals|
    ensures forall i | 0 <= i < |img.keys| :: BufAt(m, EntryAddr(img.first.Ptr(), i), img.keys[i])
    ensures forall i | 0 <= i < |img.vals| :: At(m, EntryAddr(img.first.Ptr(), i) + 16, img.vals[i])
  {
    ReadHeader(m, a, img.hdr, img.first, img.len, |img.keys|, 40);
  }
}
