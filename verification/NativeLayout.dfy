/** The bytes of `lattice_value`, `lattice_list` and `lattice_map` spelt out (include/lattice.h), and what each decoder
    makes of the cells on which they differ. */
module NativeLayout {
  import opened Memory
  import opened NativeValue

  // ------------------------------------------------------------------ words

  /** Byte `k` of a word is its `k`-th digit in base 256, lowest first. */
  lemma {:induction false} LeDigits(n: nat, width: nat, k: nat)
    requires k < width
    ensures Le(n, width)[k] == n / Pow256(k) % 256
  {
    if k > 0 {
      LeDigits(n / 256, width - 1, k - 1);
      DivTwice(n, Pow256(k - 1));
    }
  }

  lemma DivTwice(n: nat, p: nat)
    requires p > 0
    ensures n / 256 / p == n / (256 * p)
  {
    var q, r := n / 256, n % 256;
    var u, v := q / p, q % p;
    assert n == 256 * (u * p + v) + r;
    assert n == (256 * p) * u + (256 * v + r);
    assert 256 * v + r < 256 * p;
    DivIs(n, 256 * p, u, 256 * v + r);
  }

  lemma DivIs(n: nat, d: nat, q: nat, r: nat)
    requires n == d * q + r && r < d
    ensures n / d == q
  {
    var q' := n / d;
    assert n == d * q' + n % d;
    Times(d, q' + 1, q);
    Times(d, q + 1, q');
  }

  lemma Times(d: nat, a: nat, b: nat)
    ensures a <= b ==> d * a <= d * b
  {
  }

  // ------------------------------------------------------------------ cells

  /** The tag is in the first four bytes, what it stands for starts at byte 8. */
  lemma ScalarLayout(m: Mem, a: int, b: bool, bits: nat)
    ensures At(m, a, INull) <==> U32(m, a, 0)
    ensures At(m, a, IBool(b)) <==> U32(m, a, 1) && a + 8 in m && m[a + 8] == (if b then 1 else 0)
    ensures At(m, a, IInt(bits)) <==> U32(m, a, 2) && U64(m, a + 8, bits)
    ensures At(m, a, IFloat(bits)) <==> U32(m, a, 3) && U64(m, a + 8, bits)
  {
    hide U32, U64;
  }

  /** A length follows its pointer: eight bytes, or four for a vector. */
  lemma BufferLayout(m: Mem, a: int, p: nat, data: seq<byte>, floats: seq<nat>)
    requires p != 0
    ensures At(m, a, IStr(Buf(p, |data|, data))) <==>
            U32(m, a, 4) && U64(m, a + 8, p) && U64(m, a + 16, |data|) && Holds(m, p, data)
    ensures At(m, a, IBytes(Buf(p, |data|, data))) <==>
            U32(m, a, 5) && U64(m, a + 8, p) && U64(m, a + 16, |data|) && Holds(m, p, data)
    ensures At(m, a, IVector(p, |floats|, floats)) ==>
            && U32(m, a, 6) && U64(m, a + 8, p) && U32(m, a + 16, |floats|)
            && forall i | 0 <= i < |floats| :: U32(m, p + 4 * i, floats[i])
  {
    hide U32, U64, Holds;
    forall i | 0 <= i < |floats| && At(m, a, IVector(p, |floats|, floats))
      ensures U32(m, p + 4 * i, floats[i])
    {
      assert U32(m, FloatAddr(p, i), floats[i]);
    }
  }

  /** A list cell points to a header of pointer and length, that to cells 24 bytes apart. */
  lemma ListLayout(m: Mem, a: int, hdr: nat, p: nat, elems: seq<Img>)
    requires hdr != 0 && p != 0 && At(m, a, IList(hdr, Set(p), |elems|, elems))
    ensures U32(m, a, 7) && U64(m, a + 8, hdr) && U64(m, hdr, p) && U64(m, hdr + 8, |elems|)
    ensures forall i | 0 <= i < |elems| :: At(m, p + 24 * i, elems[i])
  {
    forall i | 0 <= i < |elems|
      ensures At(m, p + 24 * i, elems[i])
    {
      assert At(m, ItemAddr(p, i), elems[i]);
    }
  }

  /** A map cell points to a header likewise, that to entries 40 bytes apart: the key's pointer, its length, a cell. */
  lemma MapLayout(m: Mem, a: int, hdr: nat, p: nat, keys: seq<Buf>, vals: seq<Img>)
    requires hdr != 0 && p != 0 && At(m, a, IMap(hdr, Set(p), |keys|, keys, vals))
    ensures U32(m, a, 8) && U64(m, a + 8, hdr) && U64(m, hdr, p) && U64(m, hdr + 8, |keys|) && |vals| == |keys|
    ensures forall i | 0 <= i < |keys| ::
        && U64(m, p + 40 * i, keys[i].ptr) && U64(m, p + 40 * i + 8, keys[i].len)
        && (keys[i].ptr != 0 ==> Holds(m, keys[i].ptr, keys[i].data))
        && At(m, p + 40 * i + 16, vals[i])
  {
    hide U64, U32, Holds;
    forall i | 0 <= i < |keys|
      ensures U64(m, p + 40 * i, keys[i].ptr) && U64(m, p + 40 * i + 8, keys[i].len)
      ensures keys[i].ptr != 0 ==> Holds(m, keys[i].ptr, keys[i].data)
      ensures At(m, p + 40 * i + 16, vals[i])
    {
      assert BufAt(m, EntryAddr(p, i), keys[i]);
      assert At(m, EntryAddr(p, i) + 16, vals[i]);
    }
  }

  /** The list `[258]`, byte by byte, and what every decoder reads there. */
  lemma ListExample(m: Mem, d: Decoder)
    requires Holds(m, 100, [7, 0, 0, 0]) && Holds(m, 108, [200, 0, 0, 0, 0, 0, 0, 0])
    requires Holds(m, 200, [44, 1, 0, 0, 0, 0, 0, 0]) && Holds(m, 208, [1, 0, 0, 0, 0, 0, 0, 0])
    requires Holds(m, 300, [2, 0, 0, 0]) && Holds(m, 308, [2, 1, 0, 0, 0, 0, 0, 0])
    ensures At(m, 100, IList(200, Set(300), 1, [IInt(258)]))
    ensures Interp(d, IList(200, Set(300), 1, [IInt(258)])) == Ok(List([Int(258)]))
  {
    hide Holds, Le, Interp, InterpElems;
    SmallWord(7);
    SmallWord(2);
    SmallWord(200);
    SmallWord(300);
    SmallWord(1);
    SmallWord(258);
    assert U64(m, 208, 1);
    assert At(m, ItemAddr(300, 0), IInt(258));
    ReadExample(d);
  }

  lemma ReadExample(d: Decoder)
    ensures Interp(d, IList(200, Set(300), 1, [IInt(258)])) == Ok(List([Int(258)]))
  {
    var elems := [IInt(258)];
    InterpElemsStep(d, elems, 0);
    assert elems[..0] == [] && elems[..1] == elems;
    assert Interp(d, elems[0]) == Ok(Int(258));
    assert [] + [Int(258)] == [Int(258)];
    assert InterpElems(d, elems) == Append(InterpElems(d, []), Interp(d, elems[0])) == Ok([Int(258)]);
  }

  lemma SmallWord(n: nat)
    requires n < 0x1_0000
    ensures Le(n, 8) == [n % 256, n / 256, 0, 0, 0, 0, 0, 0]
    ensures n < 256 ==> Le(n, 4) == [n, 0, 0, 0]
  {
    ZeroWord(6);
    ZeroWord(3);
    assert Le(n, 8) == [n % 256] + Le(n / 256, 7);
    assert Le(n / 256, 7) == [n / 256] + Le(n / 256 / 256, 6);
    assert n < 256 ==> Le(n, 4) == [n] + Le(0, 3);
  }

  lemma {:induction false} ZeroWord(width: nat)
    ensures Le(0, width) == seq(width, i => 0)
  {
    if width > 0 { ZeroWord(width - 1); }
  }

  // ------------------------------------------------------------------ where the decoders differ

  /** Scalars are read alike: an integer as two's complement, everything else as it is. */
  lemma ScalarsRead(d: Decoder, b: bool, bits: nat, vec: nat, floats: seq<nat>, tag: nat)
    requires bits < 0x1_0000_0000_0000_0000
    ensures Interp(d, INull) == Ok(Null) && Interp(d, IBool(b)) == Ok(Bool(b))
    ensures Interp(d, IFloat(bits)) == Ok(Float(bits))
    ensures Interp(d, IInt(bits)) ==
            Ok(Int(if bits < 0x8000_0000_0000_0000 then bits else bits - 0x1_0000_0000_0000_0000))
    ensures Interp(d, IVector(vec, |floats|, floats)) == Ok(Vector(floats))
    ensures Interp(d, IOther(tag)) == Fail(Unsupported)
  {
  }

  /** A null header is an error in Go and Python, an empty container to the offset walk, a crash of the struct walk;
      null items behind a length crash Go and Python alone. */
  lemma NullsRead(d: Decoder, first: Field, len: nat, hdr: nat)
    requires hdr != 0 && len > 0
    ensures Interp(d, IList(0, Unset, 0, [])) ==
            if d in {Go, Python} then Fail(InvalidArg) else if d == TsOffsets then Ok(List([])) else Fail(Crash)
    ensures Interp(d, IMap(0, Unset, 0, [], [])) ==
            if d in {Go, Python} then Fail(InvalidArg) else if d == TsOffsets then Ok(Map(map[])) else Fail(Crash)
    ensures Interp(d, IList(hdr, Set(0), len, [])) == if d in {Go, Python} then Fail(Crash) else Ok(List([]))
    ensures Interp(d, IMap(hdr, Set(0), len, [], [])) == if d in {Go, Python} then Fail(Crash) else Ok(Map(map[]))
    ensures Interp(d, IList(hdr, first, 0, [])) == Ok(List([]))
    ensures Interp(d, IMap(hdr, first, 0, [], [])) == Ok(Map(map[]))
  {
  }

  /** A buffer is read whole up to 2^31 bytes; beyond, Go and Python see a negative length. */
  lemma BuffersRead(d: Decoder, p: nat, data: seq<byte>)
    requires p != 0
    ensures |data| < 0x8000_0000 || d in {TsOffsets, TsStructs} ==>
        Interp(d, IBytes(Buf(p, |data|, data))) == Ok(Bytes(data))
    ensures 0x8000_0000 <= |data| < 0x1_0000_0000 && d in {Go, Python} ==>
        Interp(d, IBytes(Buf(p, |data|, data))) == Interp(d, IStr(Buf(p, |data|, data))) == Fail(Crash)
    ensures Interp(d, IBytes(Buf(0, |data|, []))) == Ok(Bytes([]))
  {
    hide UpToZero;
    assert data[..|data|] == data;
  }

  /** Go and Python text is read whole as well; JavaScript text ends before its first zero byte. */
  lemma TextsRead(d: Decoder, p: nat, data: seq<byte>, n: nat)
    requires p != 0
    ensures |data| < 0x8000_0000 && d in {Go, Python} ==> Interp(d, IStr(Buf(p, |data|, data))) == Ok(Str(data))
    ensures d in {TsOffsets, TsStructs} && 0 !in data ==> Interp(d, IStr(Buf(p, |data|, data))) == Ok(Str(data))
    ensures d in {TsOffsets, TsStructs} && n < |data| && data[n] == 0 && 0 !in data[..n] ==>
        Interp(d, IStr(Buf(p, |data|, data))) == Ok(Str(data[..n]))
  {
    hide UpToZero;
    assert data[..|data|] == data;
    if n < |data| && data[n] == 0 && 0 !in data[..n] {
      CutAt(data, n);
    }
  }

  lemma CutAt(data: seq<byte>, n: nat)
    requires n < |data| && data[n] == 0 && 0 !in data[..n]
    ensures UpToZero(data) == data[..n]
  {
    var r := UpToZero(data);
    assert forall i | 0 <= i < n :: data[..n][i] == data[i];
    assert |r| == n;
  }

  /** An entry is read under its key, except that JavaScript objects never get a property `__proto__`. A null key with a
      length crashes Python and is the empty key to the others. */
  lemma EntryRead(d: Decoder, hdr: nat, p: nat, k: nat, key: seq<byte>, b: bool)
    requires hdr != 0 && p != 0 && k != 0 && |key| < 0x8000_0000 && 0 !in key
    ensures var m := Interp(d, IMap(hdr, Set(p), 1, [Buf(k, |key|, key)], [IBool(b)]));
            if d in {TsOffsets, TsStructs} && key == [95, 95, 112, 114, 111, 116, 111, 95, 95] then m == Ok(Map(map[]))
            else m == Ok(Map(map[key := Bool(b)]))
    ensures Interp(d, IMap(hdr, Set(p), 1, [Buf(0, 1, [])], [IBool(b)])) ==
            if d == Python then Fail(Crash) else Ok(Map(map[[] := Bool(b)]))
  {
    hide UpToZero;
    OneEntry(d, Buf(k, |key|, key), IBool(b));
    OneEntry(d, Buf(0, 1, []), IBool(b));
    NothingToCut(key);
    NothingToCut([]);
    assert key[..|key|] == key;
  }

  lemma NothingToCut(key: seq<byte>)
    ensures 0 !in key ==> UpToZero(key) == key
  {
  }

  lemma OneEntry(d: Decoder, key: Buf, val: Img)
    ensures InterpEntries(d, [key], [val]) == Put(d, Ok(map[]), KeyValue(d, key), Interp(d, val))
  {
    InterpNoEntries(d);
    InterpEntriesStep(d, [key], [val], 0);
    assert [key][..1] == [key] && [val][..1] == [val] && [key][..0] == [] && [val][..0] == [];
  }
}
