/** Byte-addressed native memory.

    A `Mem` holds exactly the bytes that have been written since they were allocated, so an address
    outside its domain is either unallocated or still uninitialised, and loading it is an error that
    every caller has to rule out. Addresses and words are unsigned 64-bit, little endian. */
module Memory {

  type byte = n: int | 0 <= n < 256

  type Mem = map<int, byte>

  const WORD: nat := 0x1_0000_0000_0000_0000

  // ------------------------------------------------------------------ little-endian integers

  function Le(n: nat, width: nat): (s: seq<byte>)
    ensures |s| == width
  {
    if width == 0 then [] else [n % 256] + Le(n / 256, width - 1)
  }

  function FromLe(s: seq<byte>): nat {
    if s == [] then 0 else s[0] + 256 * FromLe(s[1..])
  }

  function Pow256(width: nat): (r: nat)
    ensures r > 0
  {
    if width == 0 then 1 else 256 * Pow256(width - 1)
  }

  /** Reading back a little-endian integer gives it modulo the width it was stored in. */
  lemma {:induction false} LeRoundTrip(n: nat, width: nat)
    requires n < Pow256(width)
    ensures FromLe(Le(n, width)) == n
  {
    if width > 0 {
      assert Le(n, width)[1..] == Le(n / 256, width - 1);
      LeRoundTrip(n / 256, width - 1);
    }
  }

  lemma WordWidths()
    ensures Pow256(1) == 256 && Pow256(4) == 0x1_0000_0000 && Pow256(8) == WORD
  {
    assert Pow256(1) == 256 * Pow256(0);
    assert Pow256(2) == 256 * Pow256(1);
    assert Pow256(3) == 256 * Pow256(2);
    assert Pow256(4) == 256 * Pow256(3);
    assert Pow256(5) == 256 * Pow256(4);
    assert Pow256(6) == 256 * Pow256(5);
    assert Pow256(7) == 256 * Pow256(6);
    assert Pow256(8) == 256 * Pow256(7);
  }

  // ------------------------------------------------------------------ memory contents

  /** Memory holds the bytes `s` from address `a` on. */
  predicate Holds(m: Mem, a: int, s: seq<byte>) {
    forall x :: a <= x < a + |s| ==> x in m && m[x] == s[x - a]
  }

  predicate U32(m: Mem, a: int, n: nat) {
    n < 0x1_0000_0000 && Holds(m, a, Le(n, 4))
  }

  predicate U64(m: Mem, a: int, n: nat) {
    n < WORD && Holds(m, a, Le(n, 8))
  }

  predicate Written(m: Mem, a: int, n: nat) {
    forall x :: a <= x < a + n ==> x in m
  }

  predicate Unwritten(m: Mem, a: int, n: nat) {
    forall x :: a <= x < a + n ==> x !in m
  }

  /** `m'` keeps every byte of `m`; it may hold more. */
  predicate Extends(m: Mem, m': Mem) {
    forall x :: x in m ==> x in m' && m'[x] == m[x]
  }

  function Load(m: Mem, a: int, n: nat): (s: seq<byte>)
    requires Written(m, a, n)
    ensures |s| == n && Holds(m, a, s)
  {
    seq(n, i requires 0 <= i < n => m[a + i])
  }

  function LoadInt(m: Mem, a: int, width: nat): nat
    requires Written(m, a, width)
  {
    FromLe(Load(m, a, width))
  }

  function Span(a: int, n: nat): (r: set<int>)
    ensures forall x :: x in r <==> a <= x < a + n
  {
    if n == 0 then {} else Span(a, n - 1) + {a + n - 1}
  }

  function Store(m: Mem, a: int, s: seq<byte>): Mem {
    map x | x in m.Keys + Span(a, |s|) :: if a <= x < a + |s| then s[x - a] else m[x]
  }

  // ------------------------------------------------------------------ facts

  lemma StoreHolds(m: Mem, a: int, s: seq<byte>)
    ensures Holds(Store(m, a, s), a, s)
    ensures Unwritten(m, a, |s|) ==> Extends(m, Store(m, a, s))
    ensures forall x :: x in Store(m, a, s) <==> x in m || a <= x < a + |s|
  {
  }

  /** A run of bytes inside a larger run that memory holds. */
  lemma HoldsPart(m: Mem, a: int, s: seq<byte>, lo: nat, part: seq<byte>)
    requires Holds(m, a, s)
    requires lo + |part| <= |s| && s[lo..lo + |part|] == part
    ensures Holds(m, a + lo, part)
  {
    forall x | a + lo <= x < a + lo + |part|
      ensures x in m && m[x] == part[x - a - lo]
    {
      assert part[x - a - lo] == s[lo..lo + |part|][x - a - lo] == s[x - a];
    }
  }

  lemma SplitHolds(m: Mem, a: int, s: seq<byte>, t: seq<byte>)
    requires Holds(m, a, s + t)
    ensures Holds(m, a, s) && Holds(m, a + |s|, t)
  {
    HoldsPart(m, a, s + t, 0, s);
    HoldsPart(m, a, s + t, |s|, t);
  }

  lemma HoldsWritten(m: Mem, a: int, s: seq<byte>)
    requires Holds(m, a, s)
    ensures Written(m, a, |s|) && Load(m, a, |s|) == s
  {
  }

  lemma LoadU32(m: Mem, a: int, n: nat)
    requires U32(m, a, n)
    ensures Written(m, a, 4) && LoadInt(m, a, 4) == n
  {
    WordWidths();
    HoldsWritten(m, a, Le(n, 4));
    LeRoundTrip(n, 4);
  }

  lemma LoadU64(m: Mem, a: int, n: nat)
    requires U64(m, a, n)
    ensures Written(m, a, 8) && LoadInt(m, a, 8) == n
  {
    WordWidths();
    HoldsWritten(m, a, Le(n, 8));
    LeRoundTrip(n, 8);
  }

  // ------------------------------------------------------------------ signed integers

  predicate IsInt64(i: int) {
    -0x8000_0000_0000_0000 <= i < 0x8000_0000_0000_0000
  }

  /** The 64 bits of `i`, dropping whatever does not fit (a C integer conversion). */
  function ToBits64(i: int): (u: nat)
    ensures u < WORD
  {
    i % WORD
  }

  function FromBits64(u: nat): int {
    if u < 0x8000_0000_0000_0000 then u else u - WORD
  }

  lemma Bits64RoundTrip(i: int)
    ensures FromBits64(ToBits64(i)) == i <==> IsInt64(i)
  {
    if IsInt64(i) {
      if i < 0 {
        assert (i + WORD) % WORD == i % WORD;
      }
    }
  }

  /** A 64-bit length passed through C's `int`. */
  function CInt(n: nat): int {
    var low := n % 0x1_0000_0000;
    if low < 0x8000_0000 then low else low - 0x1_0000_0000
  }
}
