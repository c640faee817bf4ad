/** The TypeScript binding's encoder, `jsToLatticeValue`, and its round trip through native memory
    (bindings/typescript/src/ffi/index.ts). */
module TsEncode {
  import opened Memory
  import opened NativeValue
  import opened RoundTrip

  /** A JavaScript value. A number is an integer (of any size) or other float bits; text is UTF-8. */
  datatype Js =
    | Undefined
    | JsNull
    | Boolean(b: bool)
    | Integer(i: int)                       // typeof 'number', Number.isInteger
    | Fraction(bits: nat)                   // typeof 'number', not an integer
    | BigInt(i: int)
    | Text(text: seq<byte>)
    | Float32Array(floats: seq<nat>)
    | Uint8Array(raw: seq<byte>)
    | JsArray(items: seq<Js>)
    | PlainObject(props: map<seq<byte>, Js>)
    | Exotic                                // functions, symbols, class instances

  datatype Encoded = Cell(value: Value) | Unencodable

  /** The struct `jsToLatticeValue` builds, or the TypeError it throws. */
  function JsToLatticeValue(v: Js): Encoded
    decreases v, 0
  {
    match v
    case Undefined => Cell(Null)
    case JsNull => Cell(Null)
    case Boolean(b) => Cell(Bool(b))
    case Integer(i) => Cell(Int(i))
    case Fraction(bits) => Cell(Float(bits))
    case BigInt(i) => Cell(Int(i))
    case Text(text) => Cell(Str(text))
    case Float32Array(floats) => Cell(Vector(floats))
    case Uint8Array(raw) => Cell(Bytes(raw))
    case JsArray(items) =>
      if forall i | 0 <= i < |items| :: JsToLatticeValue(items[i]).Cell? then
        Cell(List(seq(|items|, i requires 0 <= i < |items| => JsToLatticeValue(items[i]).value)))
      else Unencodable
    case PlainObject(props) =>
      if forall k | k in props :: JsToLatticeValue(props[k]).Cell? then
        Cell(Map(map k | k in props :: JsToLatticeValue(props[k]).value))
      else Unencodable
    case Exotic => Unencodable
  }

  /** How a decoded value looks in JavaScript: integers are always bigints. */
  function ToJs(v: Value): Js
    decreases v
  {
    match v
    case Null => JsNull
    case Bool(b) => Boolean(b)
    case Int(i) => BigInt(i)
    case Float(bits) => Fraction(bits)
    case Str(text) => Text(text)
    case Bytes(raw) => Uint8Array(raw)
    case Vector(floats) => Float32Array(floats)
    case List(items) => JsArray(seq(|items|, i requires 0 <= i < |items| => ToJs(items[i])))
    case Map(entries) => PlainObject(map k | k in entries :: ToJs(entries[k]))
  }

  /** The canonical form: undefined becomes null and integral numbers become bigints, at every depth. */
  function Canon(v: Js): Js
    decreases v
  {
    match v
    case Undefined => JsNull
    case Integer(i) => BigInt(i)
    case JsArray(items) => JsArray(seq(|items|, i requires 0 <= i < |items| => Canon(items[i])))
    case PlainObject(props) => PlainObject(map k | k in props :: Canon(props[k]))
    case _ => v
  }

  /** The JavaScript value is a form of the native value: of an integer, a number or a bigint; of null, undefined too;
      of every other shape the one type JavaScript has for it. */
  ghost predicate JsForm(v: Js, w: Value)
    decreases w
  {
    match w
    case List(items) =>
      v.JsArray? && |v.items| == |items| && forall i | 0 <= i < |items| :: JsForm(v.items[i], items[i])
    case Map(entries) =>
      v.PlainObject? && v.props.Keys == entries.Keys && forall k | k in entries :: JsForm(v.props[k], entries[k])
    case _ => JsLeaf(v, w)
  }

  ghost predicate JsLeaf(v: Js, w: Value)
    requires !w.List? && !w.Map?
  {
    match w
    case Null => v == Undefined || v == JsNull
    case Bool(b) => v == Boolean(b)
    case Int(i) => v == Integer(i) || v == BigInt(i)
    case Float(bits) => v == Fraction(bits)
    case Str(text) => v == Text(text)
    case Bytes(raw) => v == Uint8Array(raw)
    case Vector(floats) => v == Float32Array(floats)
  }

  lemma LeafEncoded(v: Js, w: Value)
    requires !w.List? && !w.Map?
    ensures JsToLatticeValue(v) == Cell(w) <==> JsLeaf(v, w)
  {
  }

  lemma ArrayEncoded(v: Js, items: seq<Value>)
    ensures JsToLatticeValue(v) == Cell(List(items)) <==>
            && v.JsArray? && |v.items| == |items|
            && forall i | 0 <= i < |items| :: JsToLatticeValue(v.items[i]) == Cell(items[i])
  {
    if v.JsArray? && |v.items| == |items|
       && forall i | 0 <= i < |items| :: JsToLatticeValue(v.items[i]) == Cell(items[i])
    {
      assert JsToLatticeValue(v).value.items == items;
    }
  }

  lemma ObjectEncoded(v: Js, entries: map<seq<byte>, Value>)
    ensures JsToLatticeValue(v) == Cell(Map(entries)) <==>
            && v.PlainObject? && v.props.Keys == entries.Keys
            && forall k | k in entries :: JsToLatticeValue(v.props[k]) == Cell(entries[k])
  {
    if JsToLatticeValue(v) == Cell(Map(entries)) {
      assert v.props.Keys == JsToLatticeValue(v).value.entries.Keys;
    }
    if v.PlainObject? && v.props.Keys == entries.Keys
       && forall k | k in entries :: JsToLatticeValue(v.props[k]) == Cell(entries[k])
    {
      assert JsToLatticeValue(v).value.entries == entries;
    }
  }

  /** A value is encoded as exactly the native value it is a form of. */
  lemma {:induction false} EncodedExactly(v: Js, w: Value)
    ensures JsToLatticeValue(v) == Cell(w) <==> JsForm(v, w)
    decreases w
  {
    hide JsToLatticeValue, JsLeaf;
    match w
    case List(items) =>
      ArrayEncoded(v, items);
      if v.JsArray? && |v.items| == |items| {
        forall i | 0 <= i < |items|
          ensures JsToLatticeValue(v.items[i]) == Cell(items[i]) <==> JsForm(v.items[i], items[i])
        {
          EncodedExactly(v.items[i], items[i]);
        }
      }
    case Map(entries) =>
      ObjectEncoded(v, entries);
      if v.PlainObject? && v.props.Keys == entries.Keys {
        forall k | k in entries
          ensures JsToLatticeValue(v.props[k]) == Cell(entries[k]) <==> JsForm(v.props[k], entries[k])
        {
          EncodedExactly(v.props[k], entries[k]);
        }
      }
    case _ => LeafEncoded(v, w);
  }

  lemma {:induction false} CanonIdempotent(v: Js)
    ensures Canon(Canon(v)) == Canon(v)
    decreases v
  {
    match v
    case JsArray(items) =>
      forall i | 0 <= i < |items| ensures Canon(Canon(items[i])) == Canon(items[i]) { CanonIdempotent(items[i]); }
      assert Canon(Canon(v)).items == Canon(v).items;
    case PlainObject(props) =>
      forall k | k in props ensures Canon(Canon(props[k])) == Canon(props[k]) { CanonIdempotent(props[k]); }
      assert Canon(Canon(v)).props == Canon(v).props;
    case _ =>
  }

  /** The struct built for a value, read back, is its canonical form. */
  lemma {:induction false} EncodeIsCanon(v: Js)
    requires JsToLatticeValue(v).Cell?
    ensures ToJs(JsToLatticeValue(v).value) == Canon(v)
    decreases v
  {
    match v
    case JsArray(items) =>
      forall i | 0 <= i < |items| ensures ToJs(JsToLatticeValue(items[i]).value) == Canon(items[i]) {
        EncodeIsCanon(items[i]);
      }
      assert ToJs(JsToLatticeValue(v).value).items == Canon(v).items;
    case PlainObject(props) =>
      forall k | k in props ensures ToJs(JsToLatticeValue(props[k]).value) == Canon(props[k]) {
        EncodeIsCanon(props[k]);
      }
      assert ToJs(JsToLatticeValue(v).value).props == Canon(v).props;
    case _ =>
  }

  /** Different native values never look the same in JavaScript. */
  lemma {:induction false} ToJsInjective(v: Value, w: Value)
    requires ToJs(v) == ToJs(w)
    ensures v == w
    decreases v
  {
    match v
    case List(items) =>
      assert |items| == |w.items|;
      forall i | 0 <= i < |items|
        ensures items[i] == w.items[i]
      {
        assert ToJs(v).items[i] == ToJs(w).items[i];
        ToJsInjective(items[i], w.items[i]);
      }
    case Map(entries) =>
      assert entries.Keys == ToJs(v).props.Keys == ToJs(w).props.Keys == w.entries.Keys;
      forall k | k in entries
        ensures entries[k] == w.entries[k]
      {
        assert ToJs(v).props[k] == ToJs(w).props[k];
        ToJsInjective(entries[k], w.entries[k]);
      }
    case _ =>
  }

  /** Encode, lay out as the C structs in any way, decode: the canonical form comes back exactly when
      every integer fits int64, every vector is under 2^32 long, no text or key has a zero byte and no object
      has a key `__proto__`. */
  lemma RoundTripsToCanon(v: Js, img: Img)
    requires JsToLatticeValue(v).Cell? && Encodes(img, JsToLatticeValue(v).value)
    ensures (Interp(TsOffsets, img).Ok? && ToJs(Interp(TsOffsets, img).value) == Canon(v))
       <==> Survives(TsOffsets, JsToLatticeValue(v).value)
  {
    var cell := JsToLatticeValue(v).value;
    EncodeIsCanon(v);
    DecodeEncoded(TsOffsets, img, cell);
    if Interp(TsOffsets, img).Ok? && ToJs(Interp(TsOffsets, img).value) == Canon(v) {
      ToJsInjective(Interp(TsOffsets, img).value, cell);
    }
  }

  /** A value is refused exactly when something in it has no native form. */
  predicate HasExotic(v: Js)
    decreases v
  {
    match v
    case JsArray(items) => exists i | 0 <= i < |items| :: HasExotic(items[i])
    case PlainObject(props) => exists k | k in props :: HasExotic(props[k])
    case Exotic => true
    case _ => false
  }

  lemma {:induction false} RefusedExactly(v: Js)
    ensures JsToLatticeValue(v).Unencodable? <==> HasExotic(v)
    decreases v
  {
    match v
    case JsArray(items) => forall i | 0 <= i < |items| { RefusedExactly(items[i]); }
    case PlainObject(props) => forall k | k in props { RefusedExactly(props[k]); }
    case _ =>
  }
}
