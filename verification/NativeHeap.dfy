/** The C heap a binding allocates from, and the bookkeeping of who owns which byte. */
module NativeHeap {
  import opened Memory
  import opened NativeValue

  type Blocks = map<nat, nat>  // base address of each live block, and its size

  ghost predicate Owned(live: Blocks, x: int) {
    exists b | b in live :: b <= x < b + live[b]
  }

  ghost predicate Allocated(live: Blocks, a: int, n: nat) {
    forall x | a <= x < a + n :: Owned(live, x)
  }

  /** No byte of `a .. a + n` belongs to a live block. */
  ghost predicate Outside(live: Blocks, a: int, n: nat) {
    forall x | a <= x < a + n :: !Owned(live, x)
  }

  predicate Fits(live: Blocks, p: nat, size: nat) {
    && p != 0 && p + size <= WORD
    && forall b | b in live :: p + size <= b || b + live[b] <= p
  }

  /** A block that fits is new to every byte that is live. */
  lemma NewBlock(live: Blocks, mem: Mem, p: nat, size: nat)
    requires Fits(live, p, size) && size > 0
    requires (forall b | b in live :: 0 < live[b]) && forall x | x in mem :: Owned(live, x)
    ensures p !in live && Outside(live, p, size) && Unwritten(mem, p, size)
    ensures Allocated(live[p := size], p, size) && forall x | x in mem :: Owned(live[p := size], x)
  {
    var after := live[p := size];
    assert p !in live;
    forall x | p <= x < p + size
      ensures Owned(after, x) && !Owned(live, x)
    {
      assert p in after && p <= x < p + after[p];
    }
    forall x | x in mem
      ensures Owned(after, x)
    {
      var b :| b in live && b <= x < b + live[b];
      assert after[b] == live[b];
    }
  }

  class CHeap {
    var live: Blocks
    var mem: Mem
    var calls: nat
    const proposals: nat -> nat  // where the n-th allocation would go; any allocator is some such function

    ghost predicate Valid()
      reads this
    {
      && (forall b | b in live :: 0 < b && 0 < live[b] && b + live[b] <= WORD)
      && (forall b, c | b in live && c in live && b != c :: b + live[b] <= c || c + live[c] <= b)
      && (forall x | x in mem :: Owned(live, x))
    }

    constructor (proposals: nat -> nat)
      ensures Valid() && live == map[] && mem == map[]
    {
      this.proposals := proposals;
      live, mem, calls := map[], map[], 0;
    }

    /** Any `malloc`: it may fail at any call, and what it returns is disjoint from every live block. */
    method Malloc(size: nat) returns (p: nat)
      requires Valid() && size > 0
      modifies this
      ensures Valid() && mem == old(mem)
      ensures p == 0 ==> live == old(live)
      ensures p != 0 ==> p !in old(live) && live == old(live)[p := size] && p + size <= WORD
      ensures p != 0 ==> Outside(old(live), p, size) && Allocated(live, p, size) && Unwritten(mem, p, size)
    {
      p := proposals(calls);
      calls := calls + 1;
      if Fits(live, p, size) {
        NewBlock(live, mem, p, size);
        live := live[p := size];
      } else {
        p := 0;
      }
    }

    /** `free` takes only a live block: freeing twice, or freeing something never allocated, is refused. */
    method Free(p: nat)
      requires Valid() && p in live
      modifies this
      ensures Valid() && live == old(live) - {p}
      ensures forall x :: x in mem <==> x in old(mem) && !(p <= x < p + old(live)[p])
      ensures forall x | x in mem :: mem[x] == old(mem)[x]
    {
      ghost var before, blocks := mem, live;
      mem := map x | x in mem && !(p <= x < p + live[p]) :: mem[x];
      live := live - {p};
      forall x | x in mem
        ensures Owned(live, x)
      {
        var b :| b in blocks && b <= x < b + blocks[b];
        assert b in live && live[b] == blocks[b];
      }
    }

    /** Writes stay inside live blocks. */
    method Write(a: int, s: seq<byte>)
      requires Valid() && Allocated(live, a, |s|)
      modifies this`mem
      ensures Valid() && mem == Store(old(mem), a, s)
    {
      mem := Store(mem, a, s);
      StoreHolds(old(mem), a, s);
    }
  }

  // ------------------------------------------------------------------ effects of an encoder

  /** `ps` are the blocks acquired between two heaps: each one new, none twice, none given back. */
  ghost predicate Acquired(before: Blocks, after: Blocks, ps: seq<nat>) {
    && NoDuplicates(ps)
    && (forall b | b in before :: b in after && after[b] == before[b])
    && (forall b | b in after :: b in before || b in ps)
    && (forall i | 0 <= i < |ps| :: ps[i] in after && ps[i] !in before)
  }

  datatype Snapshot = Snapshot(live: Blocks, mem: Mem, owned: seq<nat>)

  /** From `s` to `t` only new blocks were acquired, all of them recorded, and no byte of memory that
      was live in `s` was written except unwritten bytes of `a .. a + n`. */
  ghost predicate Effect(s: Snapshot, t: Snapshot, a: int, n: nat) {
    && Extends(s.mem, t.mem)
    && (forall x | x in t.mem && x !in s.mem :: a <= x < a + n || !Owned(s.live, x))
    && s.owned <= t.owned
    && Acquired(s.live, t.live, t.owned[|s.owned|..])
  }

  lemma OwnedStays(before: Blocks, after: Blocks, ps: seq<nat>)
    requires Acquired(before, after, ps)
    ensures forall x | Owned(before, x) :: Owned(after, x)
  {
    forall x | Owned(before, x)
      ensures Owned(after, x)
    {
      var b :| b in before && b <= x < b + before[b];
      assert after[b] == before[b];
    }
  }

  lemma AllocatedStays(s: Snapshot, t: Snapshot, a: int, n: nat, x: int, size: nat)
    requires Effect(s, t, a, n) && Allocated(s.live, x, size)
    ensures Allocated(t.live, x, size)
  {
    OwnedStays(s.live, t.live, t.owned[|s.owned|..]);
  }

  /** A live range that an effect was not aimed at keeps its unwritten bytes unwritten. */
  lemma UnwrittenStays(s: Snapshot, t: Snapshot, a: int, n: nat, x: int, size: nat)
    requires Effect(s, t, a, n) && Allocated(s.live, x, size) && Unwritten(s.mem, x, size)
    requires x + size <= a || a + n <= x || n == 0
    ensures Unwritten(t.mem, x, size)
  {
  }

  lemma PartOfRange(live: Blocks, mem: Mem, a: int, n: nat, b: int, k: nat)
    requires a <= b && b + k <= a + n
    ensures Allocated(live, a, n) ==> Allocated(live, b, k)
    ensures Unwritten(mem, a, n) ==> Unwritten(mem, b, k)
    ensures Outside(live, a, n) ==> Outside(live, b, k)
  {
  }

  lemma EffectNone(s: Snapshot, a: int, n: nat)
    ensures Effect(s, s, a, n)
  {
    assert s.owned[|s.owned|..] == [];
  }

  /** An effect on fresh memory alone is an effect on any range. */
  lemma EffectWiden(s: Snapshot, t: Snapshot, a: int, n: nat)
    requires Effect(s, t, 0, 0)
    ensures Effect(s, t, a, n)
  {
  }

  /** Effects compose, provided the second is aimed inside the first's range or at memory the first
      snapshot does not know. */
  lemma EffectTrans(s: Snapshot, t: Snapshot, u: Snapshot, a: int, n: nat, b: int, k: nat)
    requires Effect(s, t, a, n) && Effect(t, u, b, k)
    requires (a <= b && b + k <= a + n) || Outside(s.live, b, k)
    ensures Effect(s, u, a, n)
  {
    var ps, qs := t.owned[|s.owned|..], u.owned[|t.owned|..];
    assert u.owned[|s.owned|..] == ps + qs;
    OwnedStays(s.live, t.live, ps);
    forall x | x in u.mem && x !in s.mem
      ensures a <= x < a + n || !Owned(s.live, x)
    {
    }
    AcquiredTrans(s.live, t.live, u.live, ps, qs);
  }

  lemma AcquiredTrans(l0: Blocks, l1: Blocks, l2: Blocks, ps: seq<nat>, qs: seq<nat>)
    requires Acquired(l0, l1, ps) && Acquired(l1, l2, qs)
    ensures Acquired(l0, l2, ps + qs)
  {
    var all := ps + qs;
    forall i, j | 0 <= i < j < |all|
      ensures all[i] != all[j]
    {
      if i < |ps| && j >= |ps| {
        assert ps[i] in l1 && qs[j - |ps|] !in l1;
      }
    }
    forall b | b in l2
      ensures b in l0 || b in all
    {
      if b in qs {
        var i :| 0 <= i < |qs| && qs[i] == b;
        assert all[|ps| + i] == b;
      } else if b in ps {
        var i :| 0 <= i < |ps| && ps[i] == b;
        assert all[i] == b;
      }
    }
  }

  /** Storing into unwritten bytes is an effect on exactly those bytes. */
  lemma StoreEffect(s: Snapshot, a: int, bytes: seq<byte>)
    requires Unwritten(s.mem, a, |bytes|)
    ensures Effect(s, s.(mem := Store(s.mem, a, bytes)), a, |bytes|)
  {
    StoreHolds(s.mem, a, bytes);
    assert s.owned[|s.owned|..] == [];
  }

  /** A recorded allocation writes nothing. */
  lemma MallocEffect(s: Snapshot, p: nat, size: nat)
    requires p !in s.live
    ensures Effect(s, Snapshot(s.live[p := size], s.mem, s.owned + [p]), 0, 0)
  {
    var t := Snapshot(s.live[p := size], s.mem, s.owned + [p]);
    assert t.owned[|s.owned|..] == [p];
  }

  // ------------------------------------------------------------------ acquired blocks

  /** No object of either runtime is larger: their address spaces have 48 bits. */
  const MAX_ALLOC: nat := 0x1_0000_0000_0000

  /** The record of blocks acquired for one value: `cAlloc` in Go, `refs` in Python. */
  class CAlloc {
    const heap: CHeap
    var ptrs: seq<nat>

    constructor (heap: CHeap)
      ensures this.heap == heap && ptrs == []
    {
      this.heap := heap;
      ptrs := [];
    }

    ghost function Now(): Snapshot
      reads this, heap
    {
      Snapshot(heap.live, heap.mem, ptrs)
    }

    /** A null pointer with `failed == false` is the answer for size zero. */
    method Malloc(size: nat) returns (p: nat, failed: bool)
      requires heap.Valid()
      modifies this, heap
      ensures heap.Valid() && heap.mem == old(heap.mem)
      ensures p == 0 ==> Now() == old(Now())
      ensures p != 0 ==> Now() == Snapshot(old(heap.live)[p := size], old(heap.mem), old(ptrs) + [p])
      ensures p != 0 ==> p !in old(heap.live) && p + size <= WORD
      ensures p != 0 ==> Outside(old(heap.live), p, size)
      ensures p != 0 ==> Allocated(heap.live, p, size) && Unwritten(heap.mem, p, size)
      ensures failed <==> p == 0 && size > 0
      ensures Effect(old(Now()), Now(), 0, 0)
    {
      EffectNone(Now(), 0, 0);
      if size == 0 {
        return 0, false;
      }
      p := heap.Malloc(size);
      failed := p == 0;
      if !failed {
        ptrs := ptrs + [p];
        MallocEffect(old(Now()), p, size);
      }
    }

    method Bytes(data: seq<byte>) returns (p: nat, failed: bool)
      requires heap.Valid()
      modifies this, heap
      ensures heap.Valid()
      ensures failed <==> p == 0 && data != []
      ensures p != 0 ==> p < WORD && Holds(heap.mem, p, data)
      ensures data == [] ==> p == 0
      ensures ptrs == old(ptrs) + NonNull(p)
      ensures Effect(old(Now()), Now(), 0, 0)
    {
      p, failed := Malloc(|data|);
      if p != 0 {
        ghost var mid := Now();
        StoreEffect(mid, p, data);
        StoreHolds(heap.mem, p, data);
        heap.Write(p, data);
        EffectTrans(old(Now()), mid, Now(), 0, 0, p, |data|);
      }
    }

    /** `freeAll`: newest first, each recorded block exactly once. */
    method FreeAll(ghost start: Snapshot)
      requires heap.Valid() && Since(start, Now())
      modifies this, heap
      ensures heap.Valid() && ptrs == []
      ensures heap.live == start.live && heap.mem == start.mem
    {
      hide Since, CHeap.Valid;
      var i := |ptrs|;
      assert ptrs[..i] == ptrs;
      while i > 0
        invariant 0 <= i <= |ptrs| && ptrs == old(ptrs)
        invariant heap.Valid()
        invariant Since(start, Now().(owned := ptrs[..i]))
      {
        i := i - 1;
        ReleaseOne(i, start);
      }
      AllReleased(start, Now().(owned := []));
      ptrs := [];
    }

    method ReleaseOne(i: nat, ghost start: Snapshot)
      requires heap.Valid() && i < |ptrs| && Since(start, Now().(owned := ptrs[..i + 1]))
      modifies heap
      ensures heap.Valid() && Since(start, Now().(owned := ptrs[..i]))
    {
      ghost var t := Now().(owned := ptrs[..i + 1]);
      assert t.owned[..i] == ptrs[..i];
      ReleaseStep(start, t);
      heap.Free(ptrs[i]);
      SinceRelease(start, t, Now().(owned := ptrs[..i]), ptrs[i]);
    }
  }

  /** Everything acquired since `start` is recorded, and memory that was live then is as it was. */
  ghost predicate Since(start: Snapshot, t: Snapshot) {
    && Acquired(start.live, t.live, t.owned)
    && Extends(start.mem, t.mem)
    && (forall x | x in t.mem :: x in start.mem || !Owned(start.live, x))
    && (forall x | x in start.mem :: Owned(start.live, x))
    && (forall x | x in t.mem :: Owned(t.live, x))
    && (forall b, c | b in t.live && c in t.live && b != c :: b + t.live[b] <= c || c + t.live[c] <= b)
  }

  lemma ReleaseStep(start: Snapshot, t: Snapshot)
    requires Since(start, t) && t.owned != []
    ensures var n := |t.owned| - 1; var p := t.owned[n];
            && p in t.live && p !in start.live
            && Acquired(start.live, t.live - {p}, t.owned[..n])
  {
    var n := |t.owned| - 1;
    var p, rest := t.owned[n], t.owned[..n];
    hide Extends, Owned;
    forall b | b in t.live - {p}
      ensures b in start.live || b in rest
    {
      if b in t.owned {
        var i :| 0 <= i < |t.owned| && t.owned[i] == b;
        assert rest[i] == b;
      }
    }
  }

  lemma SinceRelease(start: Snapshot, t: Snapshot, u: Snapshot, p: nat)
    requires Since(start, t) && p in t.live && p !in start.live
    requires Acquired(start.live, u.live, u.owned) && u.live == t.live - {p}
    requires forall x :: x in u.mem <==> x in t.mem && !(p <= x < p + t.live[p])
    requires forall x | x in u.mem :: u.mem[x] == t.mem[x]
    requires forall x | x in u.mem :: Owned(u.live, x)
    ensures Since(start, u)
  {
    forall x | x in start.mem
      ensures x in u.mem
    {
      var b :| b in start.live && b <= x < b + start.live[b];
      assert t.live[b] == start.live[b];
    }
  }

  lemma SameMem(m: Mem, m': Mem)
    requires Extends(m, m') && forall x | x in m' :: x in m
    ensures m' == m
  {
    assert forall x | x in m :: x in m';
    assert forall x | x in m' :: x in m;
    assert forall x | x in m' :: m'[x] == m[x];
    assert m'.Keys == m.Keys;
  }

  lemma AllReleased(start: Snapshot, t: Snapshot)
    requires Since(start, t) && t.owned == []
    ensures t.live == start.live && t.mem == start.mem
  {
    assert t.live.Keys == start.live.Keys;
    assert t.live == start.live;
    SameMem(start.mem, t.mem);
  }

  /** `dst` is a live cell nothing has been written to. */
  ghost predicate FreshCell(heap: CHeap, dst: nat)
    reads heap
  {
    heap.Valid() && Allocated(heap.live, dst, 24) && Unwritten(heap.mem, dst, 24)
  }
}
