/** Decoding an encoding, for every binding's decoder at once. */
module RoundTrip {
  import opened Memory
  import opened NativeValue

  const INT_MAX: nat := 0x7FFF_FFFF

  predicate BytesSurvive(d: Decoder, raw: seq<byte>) {
    Js(d) || |raw| <= INT_MAX
  }

  predicate TextSurvives(d: Decoder, text: seq<byte>) {
    if Js(d) then 0 !in text else |text| <= INT_MAX
  }

  predicate KeySurvives(d: Decoder, key: seq<byte>) {
    TextSurvives(d, key) && (Js(d) ==> key != PROTO)
  }

  /** What a value must satisfy to come back unchanged from decoder `d`: integers in 64 bits, vectors
      under 2^32 long; for Go and Python, no text or bytes longer than C's `int`; for JavaScript, no zero byte in
      text and no key `__proto__`. */
  ghost predicate Survives(d: Decoder, v: Value)
    decreases v
  {
    match v
    case Int(i) => IsInt64(i)
    case Str(text) => TextSurvives(d, text)
    case Bytes(raw) => BytesSurvive(d, raw)
    case Vector(floats) => |floats| < 0x1_0000_0000
    case List(items) => forall i | 0 <= i < |items| :: Survives(d, items[i])
    case Map(entries) => forall k | k in entries :: KeySurvives(d, k) && Survives(d, entries[k])
    case _ => true
  }

  lemma BufSurvives(d: Decoder, buf: Buf, data: seq<byte>)
    requires BufOf(buf, data)
    ensures BufValue(d, buf) == Ok(data) <==> BytesSurvive(d, data)
    ensures TextValue(d, buf) == Ok(data) <==> TextSurvives(d, data)
    ensures KeyValue(d, buf) == TextValue(d, buf)
    ensures TextValue(d, buf).Ok? ==> TextSurvives(d, TextValue(d, buf).value)
  {
    if buf.ptr != 0 && buf.len != 0 && !Js(d) {
      var n := CInt(buf.len);
      if 0 <= n < |data| {
        assert |data[..n]| != |data|;
      } else if n == |data| {
        assert data[..n] == data;
      }
    }
  }

  /** The round trip: a decoder returns the value that was encoded exactly when the value survives it. */
  lemma {:induction false} DecodeEncoded(d: Decoder, img: Img, v: Value)
    requires Encodes(img, v)
    ensures Interp(d, img) == Ok(v) <==> Survives(d, v)
    decreases img
  {
    match v
    case Int(i) => Bits64RoundTrip(i);
    case Str(text) => BufSurvives(d, img.buf, text);
    case Bytes(raw) => BufSurvives(d, img.buf, raw);
    case Vector(floats) =>
      assert |floats| < 0x1_0000_0000 ==> floats[..|floats|] == floats;
    case List(items) =>
      forall i | 0 <= i < |items|
        ensures Interp(d, img.elems[i]) == Ok(items[i]) <==> Survives(d, items[i])
      {
        DecodeEncoded(d, img.elems[i], items[i]);
      }
      ElemsAre(d, img.elems, items);
    case Map(entries) =>
      forall i | 0 <= i < |img.vals|
        ensures Interp(d, img.vals[i]) == Ok(entries[img.keys[i].data])
           <==> Survives(d, entries[img.keys[i].data])
      {
        DecodeEncoded(d, img.vals[i], entries[img.keys[i].data]);
      }
      MapSurvives(d, img, entries);
    case _ =>
  }

  /** A list comes back equal exactly when each of its elements does. */
  lemma {:induction false} ElemsAre(d: Decoder, elems: seq<Img>, items: seq<Value>)
    requires |elems| == |items|
    ensures InterpElems(d, elems) == Ok(items)
       <==> forall i | 0 <= i < |items| :: Interp(d, elems[i]) == Ok(items[i])
  {
    if elems != [] {
      var n := |elems| - 1;
      ElemsAre(d, elems[..n], items[..n]);
      assert items == items[..n] + [items[n]];
    }
  }

  function Restrict(entries: map<seq<byte>, Value>, ks: seq<seq<byte>>): map<seq<byte>, Value> {
    map k | k in ks && k in entries :: entries[k]
  }

  /** When every key comes back as it was written, the map comes back equal exactly when each value does. */
  lemma {:induction false} EntriesAre(d: Decoder, keys: seq<Buf>, vals: seq<Img>, entries: map<seq<byte>, Value>)
    requires |keys| == |vals| && NoDuplicates(KeyData(keys))
    requires forall i | 0 <= i < |keys| :: keys[i].data in entries
    requires forall i | 0 <= i < |keys| :: KeyValue(d, keys[i]) == Ok(keys[i].data) && KeySurvives(d, keys[i].data)
    ensures InterpEntries(d, keys, vals) == Ok(Restrict(entries, KeyData(keys)))
       <==> forall i | 0 <= i < |vals| :: Interp(d, vals[i]) == Ok(entries[keys[i].data])
    ensures InterpEntries(d, keys, vals).Ok? ==>
              forall k | k in InterpEntries(d, keys, vals).value :: k in KeyData(keys)
  {
    hide Interp, KeyValue, TextValue, Restrict, Encodes;
    if keys == [] {
      RestrictNone(entries, KeyData(keys));
    } else {
      var n := |keys| - 1;
      var ks, vs, key := keys[..n], vals[..n], keys[n].data;
      LastKey(keys);
      EntriesAre(d, ks, vs, entries);
      RestrictStep(entries, KeyData(ks), key);
      if InterpEntries(d, ks, vs).Ok? && Interp(d, vals[n]).Ok? {
        MapStep(InterpEntries(d, ks, vs).value, Restrict(entries, KeyData(ks)), key,
                Interp(d, vals[n]).value, entries[key]);
      }
      AllButLast(d, vals, keys, entries);
    }
  }

  lemma RestrictNone(entries: map<seq<byte>, Value>, ks: seq<seq<byte>>)
    requires ks == []
    ensures Restrict(entries, ks) == map[]
  {
  }

  lemma RestrictStep(entries: map<seq<byte>, Value>, ks: seq<seq<byte>>, key: seq<byte>)
    requires key in entries && key !in ks
    ensures Restrict(entries, ks + [key]) == Restrict(entries, ks)[key := entries[key]]
    ensures key !in Restrict(entries, ks)
  {
  }

  lemma LastKey(keys: seq<Buf>)
    requires keys != [] && NoDuplicates(KeyData(keys))
    ensures var n := |keys| - 1;
            && KeyData(keys) == KeyData(keys[..n]) + [keys[n].data]
            && NoDuplicates(KeyData(keys[..n])) && keys[n].data !in KeyData(keys[..n])
  {
    var n := |keys| - 1;
    assert forall i | 0 <= i < n :: KeyData(keys[..n])[i] == KeyData(keys)[i];
    assert KeyData(keys)[n] == keys[n].data;
  }

  lemma MapStep<K, V>(m: map<K, V>, r: map<K, V>, key: K, v: V, want: V)
    requires key !in m && key !in r
    ensures m[key := v] == r[key := want] <==> m == r && v == want
  {
    assert m[key := v] - {key} == m;
    assert r[key := want] - {key} == r;
    assert m[key := v][key] == v;
  }

  lemma AllButLast(d: Decoder, vals: seq<Img>, keys: seq<Buf>, entries: map<seq<byte>, Value>)
    requires |keys| == |vals| > 0 && forall i | 0 <= i < |keys| :: keys[i].data in entries
    ensures var n := |keys| - 1;
            (forall i | 0 <= i < |vals| :: Interp(d, vals[i]) == Ok(entries[keys[i].data]))
            <==> (forall i | 0 <= i < n :: Interp(d, vals[..n][i]) == Ok(entries[keys[..n][i].data]))
                 && Interp(d, vals[n]) == Ok(entries[keys[n].data])
  {
    hide Interp;
    var n := |keys| - 1;
    assert forall i | 0 <= i < n :: vals[..n][i] == vals[i] && keys[..n][i] == keys[i];
  }

  /** A decoder never returns a key that it could not have returned. */
  lemma {:induction false} KeysSurvive(d: Decoder, keys: seq<Buf>, vals: seq<Img>)
    requires |keys| == |vals| && forall i | 0 <= i < |keys| :: BufOf(keys[i], keys[i].data)
    requires InterpEntries(d, keys, vals).Ok?
    ensures forall k | k in InterpEntries(d, keys, vals).value :: KeySurvives(d, k)
  {
    if keys != [] {
      var n := |keys| - 1;
      KeysSurvive(d, keys[..n], vals[..n]);
      BufSurvives(d, keys[n], keys[n].data);
    }
  }

  lemma MapSurvives(d: Decoder, img: Img, entries: map<seq<byte>, Value>)
    requires Encodes(img, Map(entries))
    requires forall i | 0 <= i < |img.vals| ::
               Interp(d, img.vals[i]) == Ok(entries[img.keys[i].data])
               <==> Survives(d, entries[img.keys[i].data])
    ensures Interp(d, img) == Ok(Map(entries)) <==> Survives(d, Map(entries))
  {
    var keys, vals := img.keys, img.vals;
    SurvivesMap(d, entries);
    if |vals| == 0 {
      assert KeyData(keys) == [];
      assert entries == map[];
      return;
    }
    assert Interp(d, img) == Ok(Map(entries)) <==> InterpEntries(d, keys, vals) == Ok(entries);
    EntriesSurvive(d, keys, vals, entries);
  }

  lemma EntriesSurvive(d: Decoder, keys: seq<Buf>, vals: seq<Img>, entries: map<seq<byte>, Value>)
    requires |keys| == |vals| && NoDuplicates(KeyData(keys))
    requires forall k :: k in KeyData(keys) <==> k in entries
    requires forall i | 0 <= i < |keys| :: BufOf(keys[i], keys[i].data) && keys[i].data in entries
    requires forall i | 0 <= i < |vals| ::
               Interp(d, vals[i]) == Ok(entries[keys[i].data]) <==> Survives(d, entries[keys[i].data])
    ensures InterpEntries(d, keys, vals) == Ok(entries)
       <==> forall k | k in entries :: KeySurvives(d, k) && Survives(d, entries[k])
  {
    hide Interp, InterpEntries, Survives, KeyValue, TextValue;
    if forall k | k in entries :: KeySurvives(d, k) {
      forall i | 0 <= i < |keys|
        ensures KeyValue(d, keys[i]) == Ok(keys[i].data)
      {
        BufSurvives(d, keys[i], keys[i].data);
      }
      assert Restrict(entries, KeyData(keys)) == entries;
      EntriesAre(d, keys, vals, entries);
      ValuesSurvive(d, keys, entries);
    } else if InterpEntries(d, keys, vals) == Ok(entries) {
      KeysSurvive(d, keys, vals);
    }
  }

  lemma SurvivesMap(d: Decoder, entries: map<seq<byte>, Value>)
    ensures Survives(d, Map(entries)) <==>
            forall k | k in entries :: KeySurvives(d, k) && Survives(d, entries[k])
  {
  }

  lemma ValuesSurvive(d: Decoder, keys: seq<Buf>, entries: map<seq<byte>, Value>)
    requires forall k :: k in KeyData(keys) <==> k in entries
    requires forall i | 0 <= i < |keys| :: keys[i].data in entries
    ensures (forall i | 0 <= i < |keys| :: Survives(d, entries[keys[i].data]))
       <==> (forall k | k in entries :: Survives(d, entries[k]))
  {
    hide Survives;
    if forall i | 0 <= i < |keys| :: Survives(d, entries[keys[i].data]) {
      forall k | k in entries
        ensures Survives(d, entries[k])
      {
        var i :| 0 <= i < |KeyData(keys)| && KeyData(keys)[i] == k;
        assert keys[i].data == k;
      }
    }
  }
}
