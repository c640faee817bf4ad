/** Who frees what: native objects handed over by property reads, id lookups, edge listings, stream reads and
    searches, in the TypeScript, Python and Go bindings (bindings/typescript/src/ffi/index.ts and transaction.ts,
    bindings/python .../transaction.py and database.py, bindings/go/internal/cgo/bridge.go). */
module Ownership {
  import opened Options

  datatype Kind = Cell | OwnedValue | NodeIds | EdgeIds | Batch | EdgeResult | SearchResult | QueryResult | Borrowed

  datatype Object = Object(kind: Kind, id: nat)

  type Loans = map<Object, Object>

  /** The objects the binding owns, and those it has borrowed, each with the owned object that lends it. Only these may
      be used, and only owned ones freed, so a use after a free, a second free and a free of something borrowed are
      all refused. */
  class Library {
    var owned: set<Object>
    var lent: Loans
    var next: nat

    ghost predicate Valid()
      reads this
    {
      && (forall o | o in owned :: o.id < next)
      && (forall o | o in lent :: o.id < next && o !in owned && lent[o] in owned)
    }

    constructor ()
      ensures Valid() && owned == {} && lent == map[]
    {
      owned, lent, next := {}, map[], 0;
    }

    /** A call that transfers ownership, or an allocation of the binding's own. */
    method Give(kind: Kind) returns (o: Object)
      requires Valid()
      modifies this
      ensures Valid() && o.kind == kind && o !in old(owned) && owned == old(owned) + {o} && lent == old(lent)
    {
      o := Object(kind, next);
      owned, next := owned + {o}, next + 1;
    }

    /** A call that fills in storage belonging to `lender`. */
    method Lend(kind: Kind, lender: Object) returns (o: Object)
      requires Valid() && lender in owned
      modifies this
      ensures Valid() && o !in old(owned) && o !in old(lent) && lent == old(lent)[o := lender] && owned == old(owned)
    {
      o := Object(kind, next);
      lent, next := lent[o := lender], next + 1;
    }

    method Use(o: Object)
      requires Valid() && (o in owned || o in lent)
    {
    }

    /** Each kind has its own function, which takes only its own objects; what the object lent goes with it. */
    method Free(o: Object, kind: Kind)
      requires Valid() && o in owned && o.kind == kind
      modifies this
      ensures Valid() && owned == old(owned) - {o} && lent == Without(old(lent), o)
    {
      owned, lent := owned - {o}, Without(lent, o);
    }
  }

  function Without(lent: Loans, lender: Object): Loans {
    map o | o in lent && lent[o] != lender :: lent[o]
  }

  /** Nothing borrowed was taken back, and anything newly borrowed is from `lender`. */
  ghost predicate OnlyFrom(before: Loans, after: Loans, lender: Object) {
    && (forall o | o in before :: o in after && after[o] == before[o])
    && (forall o | o in after :: o in before || after[o] == lender)
  }

  // ------------------------------------------------------------------ what the engine and the decoder may do

  datatype Item<+T> = CallFails | DecodeFails | Item(value: T)

  datatype Reply<+T> = NotFound | Refused | Replied(content: T)

  datatype Fetched<+T> = Absent | Raised | Fetched(value: T)

  predicate Good<T>(item: Item<T>) {
    item.Item?
  }

  /** All items in order, if every one of them could be read. */
  function All<T>(items: seq<Item<T>>): (r: Fetched<seq<T>>)
    ensures r.Fetched? <==> forall i | 0 <= i < |items| :: Good(items[i])
    ensures r.Fetched? ==> |r.value| == |items| && forall i | 0 <= i < |items| :: r.value[i] == items[i].value
    ensures !r.Absent?
  {
    if items == [] then Fetched([])
    else
      var front := All(items[..|items| - 1]);
      if front.Fetched? && items[|items| - 1].Item? then Fetched(front.value + [items[|items| - 1].value])
      else Raised
  }

  /** An item that was replied: its value if it can be read, an exception otherwise, never nothing. */
  function One<T>(item: Item<T>): (r: Fetched<T>)
    ensures r.Fetched? <==> Good(item)
    ensures r.Fetched? ==> r.value == item.value
    ensures r.Raised? <==> item.CallFails? || item.DecodeFails?
  {
    if item.Item? then Fetched(item.value) else Raised
  }

  // ------------------------------------------------------------------ property reads

  /** `getProperty` and `getEdgeProperty`: the flag says whether the call has filled the cell with storage
      that is now the binding's; the cell itself is freed on every way out. */
  method PropertyTypeScript<T>(lib: Library, edge: bool, reply: Reply<Item<T>>) returns (r: Fetched<T>)
    requires lib.Valid()
    modifies lib
    ensures lib.Valid() && lib.owned == old(lib.owned) && lib.lent == old(lib.lent)
    ensures r == (match reply
                  case NotFound => if edge then Absent else Raised
                  case Refused => Raised
                  case Replied(item) => One(item))
  {
    var valueOut := lib.Give(Cell);
    var ownsNativeValue := false;
    var value := valueOut;
    match reply {
      case NotFound => r := if edge then Absent else Raised;
      case Refused => r := Raised;
      case Replied(item) =>
        value := lib.Give(OwnedValue);
        ownsNativeValue := true;
        lib.Use(valueOut);
        lib.Use(value);
        r := One(item);
    }
    if ownsNativeValue {
      lib.Free(value, OwnedValue);
    }
    lib.Free(valueOut, Cell);
  }

  /** `get_property` in Python and `GetNodeProperty` in Go: the cell is a local, its storage is freed after
      decoding, whether or not decoding succeeds. */
  method PropertyScoped<T>(lib: Library, reply: Reply<Item<T>>) returns (r: Fetched<T>)
    requires lib.Valid()
    modifies lib
    ensures lib.Valid() && lib.owned == old(lib.owned) && lib.lent == old(lib.lent)
    ensures r == (match reply
                  case NotFound => Absent
                  case Refused => Raised
                  case Replied(item) => One(item))
  {
    match reply {
      case NotFound => r := Absent;
      case Refused => r := Raised;
      case Replied(item) =>
        var value := lib.Give(OwnedValue);
        lib.Use(value);
        r := One(item);
        lib.Free(value, OwnedValue);
    }
  }

  /** `resultGet`: the cell is the binding's and is freed; what it is filled with is borrowed from `result` and is
      still borrowed, and still there, afterwards. */
  method ResultCell<T>(lib: Library, result: Object, item: Item<T>) returns (r: Fetched<T>)
    requires lib.Valid() && result in lib.owned
    modifies lib
    ensures lib.Valid() && lib.owned == old(lib.owned) && OnlyFrom(old(lib.lent), lib.lent, result)
    ensures r == One(item)
  {
    var valueOut := lib.Give(Cell);
    ghost var known := lib.lent;
    if !item.CallFails? {
      var value := lib.Lend(Borrowed, result);
      lib.Use(valueOut);
      lib.Use(value);
    }
    r := One(item);
    ghost var borrowed := lib.lent;
    lib.Free(valueOut, Cell);
    LentByOthers(known, borrowed, valueOut, result);
  }

  lemma LentByOthers(known: Loans, lent: Loans, o: Object, lender: Object)
    requires OnlyFrom(known, lent, lender) && o != lender && forall x | x in known :: known[x] != o
    ensures Without(lent, o) == lent
  {
  }

  // ------------------------------------------------------------------ handles that are drained

  /** The loop over a batch or a result. It reads every item through the handle, which lends what the item holds, and
      stops at the first failure. */
  method Drain<T>(lib: Library, handle: Object, items: seq<Item<T>>) returns (r: Fetched<seq<T>>)
    requires lib.Valid() && handle in lib.owned
    modifies lib
    ensures lib.Valid() && lib.owned == old(lib.owned) && OnlyFrom(old(lib.lent), lib.lent, handle)
    ensures r == All(items)
  {
    var out: seq<T> := [];
    var i := 0;
    while i < |items|
      invariant 0 <= i <= |items| && All(items[..i]) == Fetched(out)
      invariant lib.Valid() && lib.owned == old(lib.owned) && OnlyFrom(old(lib.lent), lib.lent, handle)
    {
      lib.Use(handle);
      if !items[i].CallFails? {
        var content := lib.Lend(Borrowed, handle);
        lib.Use(content);
      }
      if !items[i].Item? {
        assert !Good(items[i]);
        return Raised;
      }
      assert items[..i + 1][..i] == items[..i];
      out := out + [items[i].value];
      i := i + 1;
    }
    assert items[..i] == items;
    r := Fetched(out);
  }

  /** `readStream`, `read_stream`, `getOutgoingEdges` and its siblings, `vector_search`: on an OK answer the
      handle is drained and freed once, last, even when an item in the middle cannot be read. A missing node's
      edges are an empty list in Python (`emptyIfMissing`), an error in TypeScript; a null batch is an empty one. */
  method ReadAll<T>(lib: Library, kind: Kind, emptyIfMissing: bool, reply: Reply<Option<seq<Item<T>>>>)
    returns (r: Fetched<seq<T>>)
    requires lib.Valid()
    modifies lib
    ensures lib.Valid() && lib.owned == old(lib.owned) && lib.lent == old(lib.lent)
    ensures r == (match reply
                  case NotFound => if emptyIfMissing then Fetched([]) else Raised
                  case Refused => Raised
                  case Replied(batch) => if batch.None? then Fetched([]) else All(batch.value))
  {
    match reply {
      case NotFound => r := if emptyIfMissing then Fetched([]) else Raised;
      case Refused => r := Raised;
      case Replied(batch) =>
        if batch.None? {
          return Fetched([]);
        }
        ghost var known := lib.lent;
        var handle := lib.Give(kind);
        r := Drain(lib, handle, batch.value);
        ghost var borrowed := lib.lent;
        lib.Free(handle, kind);
        GivenBack(known, borrowed, handle);
    }
  }

  lemma GivenBack(known: Loans, lent: Loans, lender: Object)
    requires OnlyFrom(known, lent, lender) && forall x | x in known :: known[x] != lender
    ensures Without(lent, lender) == known
  {
  }

  // ------------------------------------------------------------------ id arrays

  /** What an index lookup hands over: an array, or a null pointer exactly when nothing was found. */
  method GiveIds(lib: Library, kind: Kind, ids: seq<nat>) returns (ptr: Option<Object>)
    requires lib.Valid()
    modifies lib
    ensures lib.Valid() && (ptr.None? <==> ids == [])
    ensures lib.lent == old(lib.lent) && (ptr.None? ==> lib.owned == old(lib.owned))
    ensures ptr.Some? ==>
              ptr.value.kind == kind && ptr.value !in old(lib.owned) && lib.owned == old(lib.owned) + {ptr.value}
  {
    if ids == [] {
      return None;
    }
    var o := lib.Give(kind);
    ptr := Some(o);
  }

  /** The native function that frees such an array does nothing when the count is zero. */
  method FreeIds(lib: Library, o: Object, kind: Kind, count: nat)
    requires lib.Valid() && o in lib.owned && o.kind == kind
    modifies lib
    ensures lib.Valid() && lib.owned == if count == 0 then old(lib.owned) else old(lib.owned) - {o}
    ensures lib.lent == if count == 0 then old(lib.lent) else Without(old(lib.lent), o)
  {
    if count != 0 {
      lib.Free(o, kind);
    }
  }

  /** `find_nodes_by_label_property` and `find_edges_by_type_property` in Python: freed when not null. */
  method LookupPython(lib: Library, kind: Kind, reply: Reply<seq<nat>>) returns (r: Fetched<seq<nat>>)
    requires lib.Valid()
    modifies lib
    ensures lib.Valid() && lib.owned == old(lib.owned) && lib.lent == old(lib.lent)
    ensures r == if reply.Replied? then Fetched(reply.content) else Raised
  {
    if !reply.Replied? {
      return Raised;
    }
    var ptr := GiveIds(lib, kind, reply.content);
    if ptr.None? {
      return Fetched([]);
    }
    lib.Use(ptr.value);
    r := Fetched(reply.content);
    FreeIds(lib, ptr.value, kind, |reply.content|);
  }

  /** `decodeOwnedIds` in TypeScript: freed in a `finally`, whether or not the ids can be decoded. */
  method LookupTypeScript(lib: Library, kind: Kind, reply: Reply<seq<nat>>, decodes: bool)
    returns (r: Fetched<seq<nat>>)
    requires lib.Valid()
    modifies lib
    ensures lib.Valid() && lib.owned == old(lib.owned) && lib.lent == old(lib.lent)
    ensures r == if reply.Replied? && (decodes || reply.content == []) then Fetched(reply.content) else Raised
  {
    if !reply.Replied? {
      return Raised;
    }
    var ptr := GiveIds(lib, kind, reply.content);
    if ptr.None? || |reply.content| == 0 {
      return Fetched([]);
    }
    lib.Use(ptr.value);
    r := if decodes then Fetched(reply.content) else Raised;
    FreeIds(lib, ptr.value, kind, |reply.content|);
  }
}
