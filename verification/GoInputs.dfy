/** What can be handed to the Go binding as a property value (bindings/go/internal/cgo/value.go). */
module GoInputs {
  import opened Memory
  import opened NativeHeap

  /** A Go value as the type switch and `reflect` see it. `fixed` tells fixed-length arrays from slices;
      `defined` tells a defined element type, as in `type B uint8`, from `uint8` itself. */
  datatype GoInput =
    | Nil
    | GBool(b: bool)
    | GInt(i: int)                                 // int, int8 .. int64
    | GUint(u: nat)                                // uint, uint8 .. uint64, uintptr
    | GFloat(bits: nat)                            // float64, or a float32 already widened
    | GString(text: seq<byte>)
    | GBytes(raw: seq<byte>)                       // []byte
    | GFloats(floats: seq<nat>)                    // []float32
    | GAnys(items: seq<GoInput>)                   // []any
    | GMap(entries: map<seq<byte>, GoInput>)       // map[string]any
    | Named(under: GoInput)                        // a defined type: only its kind is visible
    | NilPointer
    | Pointer(target: GoInput)
    | ByteKinds(fixed: bool, defined: bool, raw: seq<byte>)  // elements of kind uint8
    | FloatKinds(fixed: bool, floats: seq<nat>)    // elements of kind float32
    | Elements(fixed: bool, items: seq<GoInput>)   // elements of any other kind
    | MapOf(stringKeys: bool, entries: map<seq<byte>, GoInput>)
    | Opaque                                       // structs, channels, functions, complex numbers

  /** What Go's type system guarantees of an input. */
  ghost predicate Typed(v: GoInput)
    decreases v
  {
    match v
    case GInt(i) => IsInt64(i)
    case GUint(u) => u < WORD
    case GFloat(bits) => bits < WORD
    case GString(text) => |text| <= MAX_ALLOC
    case GBytes(raw) => |raw| <= MAX_ALLOC
    case ByteKinds(_, _, raw) => |raw| <= MAX_ALLOC
    case GFloats(floats) => |floats| <= MAX_ALLOC && forall i | 0 <= i < |floats| :: floats[i] < 0x1_0000_0000
    case FloatKinds(_, floats) => |floats| <= MAX_ALLOC && forall i | 0 <= i < |floats| :: floats[i] < 0x1_0000_0000
    case GAnys(items) => |items| <= MAX_ALLOC && forall i | 0 <= i < |items| :: Typed(items[i])
    case Elements(_, items) => |items| <= MAX_ALLOC && forall i | 0 <= i < |items| :: Typed(items[i])
    case GMap(entries) => |entries| <= MAX_ALLOC && forall k | k in entries :: |k| <= MAX_ALLOC && Typed(entries[k])
    case MapOf(_, entries) => |entries| <= MAX_ALLOC && forall k | k in entries :: |k| <= MAX_ALLOC && Typed(entries[k])
    case Named(under) => !under.Nil? && Typed(under)
    case Pointer(target) => Typed(target)
    case _ => true
  }
}
