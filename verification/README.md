# LatticeDB bindings, verified

LatticeDB is an embedded graph database. Its engine is native; Go, Python and TypeScript reach it through
bindings that move values across C memory and keep track of native handles. This project models that logic in
Dafny 4.11 and proves what it promises, together with two smaller algorithms of the repository: the link
rewriter of the documentation site and the graph expansion of the retrieval examples.

Check it with `dafny verify dfyconfig.toml`.

## Property values in C memory

`Memory` is byte memory: little-endian words, and write-once extension. `NativeValue` gives the layout of
`lattice_value`, `lattice_list`, `lattice_map` and `lattice_map_entry`. An image (`Img`) is a finite parse of the
memory reachable from one cell, `At` says that memory holds it, `Encodes` says that it is a layout of a property
value, and `Interp` is what each of the four decoders makes of it. `NativeHeap` is a C heap whose allocator may
fail at any call; `Effect` is the frame of an encoder: only new blocks, all recorded, and no byte of older memory
written except unwritten bytes of the range it was aimed at.

- Go: `GoInputs` and `GoHeap` (Go values, and how they lie in memory), `GoNormalize` (a copy in one of the nine
  shapes, an error or a panic), `GoEncode` (`fillValue`), `GoDecode`, and `GoBinding`, which puts them together.
- Python: `PyEncode` (`_python_to_value` with its `refs`), `PyDecode`, `PyBinding`.
- TypeScript: `TsEncode` (`jsToLatticeValue` and the canonical form), `TsDecode` (the two walks over memory).
- `NativeEncode` has what both encoders write alike, and `NativeLayout` spells out the bytes, and what each decoder
  makes of the cells on which they differ.
- `RoundTrip` relates every encoder to every decoder: a value comes back exactly when it survives.

## Handles

`Engine` is the native engine reduced to what its C interface does with handles (include/lattice.h and
src/api/c_api.zig): success consumes a transaction handle, a refused commit or rollback may or may not, a consumed
handle is refused from then on and freed by close, close goes through exactly when no transaction is live, and a
second writer is refused while the writer slot is taken. A refusal says whether it consumed the handle; results hold
for either choice, and those marked "as built" also use that a refused rollback always consumes it. Answers are
otherwise arbitrary. `Lifecycle` follows whole runs of the database and transaction wrappers, `Wrappers` holds the
wrapper objects with their fields, `QueryRun` follows one `Database.query` under arbitrary failure, `QueryLink`
relates its logs to the runs of `Lifecycle`, `Interleaving` runs many scoped transactions at once, and `Ownership`
accounts for the property values, query results, edge and search results, stream batches and id arrays that are
handed over.

## Where a promise does not hold

Each with its exact condition, and an example:

- the Go encoder panics on a slice of a defined byte type, such as `[]B` with `type B uint8`, where it copies the
  array `[N]B` (`GoNormalize.PanicsExactly`, `GoNormalize.DefinedBytesExample`);
- a Go or TypeScript transaction keeps its handle after a refusal that consumed it. The handle is passed again
  exactly when the client goes on using the object, except for Go queries after close, which pass a null handle
  (`Lifecycle.WholeRunSafety`, `Lifecycle.SpentHandleExample`);
- a writing `Database.query` of Go or Python, and Go `Update`, do not roll back after a refused commit, and Go `View`
  and `Update` do not roll back when their body panics, so the transaction stays live with nobody to resolve it and
  close is refused from then on; TypeScript rolls back (`Lifecycle.DroppedAsBuilt`, `Lifecycle.DroppedQueryExample`,
  `Lifecycle.PanickedQueryExample`, `Interleaving.WhoLeavesATransaction`);
- a refused rollback of a writer consumes the handle but keeps the writer slot until close, and so does a begin that
  fails after its writer was started and cannot abort it (`Lifecycle.WriterSlotLostExactly`,
  `Lifecycle.WriterSlotExample`);
- the two TypeScript walks disagree on null containers: the offset walk returns an empty one, the struct walk
  fails (`TsDecode.WalksAgreeExactly`, `TsDecode.NullListExample`).

## Documentation links and paragraphs

`Uri` is relative reference resolution, section 5.2 of RFC 3986. `Links` models `clean_href` and `canonical_path`
and proves when a rewritten link still leads to the same page. The documentation string says that links keep
resolving to the same targets; the code keeps that promise exactly under the condition of
`Links.LinksKeepMeaning`, which a page named `myindex`, among others, does not meet. `Sitemap` orders the
locations of the built pages, and `Paragraph` models `first_paragraph`.

## Graph expansion and merging

`GraphRag` models the counting loops, the ordering of what they find, and the deduplicating merge of the retrieval
examples in the three languages.

## Model

| member | source | states |
|---|---|---|
| NativeHeap.CHeap.Malloc | bindings/go/internal/cgo/value.go:19-29 | An allocation may fail at any call; what it returns is disjoint from every live block, and nothing is written. |
| NativeHeap.CHeap.Free | bindings/go/internal/cgo/value.go:52-57 | Only a live block can be freed, so a second free is refused; exactly its bytes go away. |
| NativeHeap.EffectTrans | bindings/go/internal/cgo/value.go:80-175 | Separation: two encoder effects in a row leave alone every byte that was live at the start, if the second is aimed inside the first range or at memory the start did not own. |
| NativeHeap.UnwrittenStays | bindings/go/internal/cgo/value.go:120-171 | A cell that an effect was not aimed at is still unwritten afterwards, so siblings never overwrite each other. |
| NativeValue.AtExtends | bindings/go/internal/cgo/value.go:120-171 | A finished child stays readable, with the same content, however much is written elsewhere later. |
| NativeValue.ReadHeader | include/lattice.h:92-102 | Reading a list or map header at its C offsets yields the pointer and the length it holds; the pointer is read only when it was set. |
| NativeValue.InterpElemsStops | bindings/go/internal/cgo/value.go:366-372 | The first element that cannot be decoded decides the result of the whole list. |
| NativeValue.InterpEntriesStops | bindings/go/internal/cgo/value.go:385-396 | The first entry that cannot be decoded decides the result of the whole map. |
| Memory.Bits64RoundTrip | bindings/python/src/latticedb/_bindings.py:1386-1388 | An integer written into 64 bits and read back is itself exactly when it is an int64. |
| NativeLayout.LeDigits | include/lattice.h:104-106 | Byte `k` of a word is its `k`-th digit in base 256, lowest first. |
| NativeLayout.ScalarLayout | include/lattice.h:71-106 | Null, bool, integer and float cells carry the tags 0 to 3 in their first four bytes and their payload at byte 8. |
| NativeLayout.BufferLayout | include/lattice.h:108-118 | String, bytes and vector cells carry the tags 4 to 6, the pointer at byte 8, and at byte 16 an eight-byte length or a four-byte dimension; float `i` is `4 i` bytes in. |
| NativeLayout.ListLayout | include/lattice.h:89-92 | A list cell has tag 7 and points to a header of pointer and length; item `i` is `24 i` bytes in. |
| NativeLayout.MapLayout | include/lattice.h:95-130 | A map cell has tag 8 and points to a header of pointer and length; entry `i` is `40 i` bytes in, its key pointer first, its key length at byte 8, its value at byte 16. |
| NativeLayout.ListExample | include/lattice.h:71-123 | The list `[258]` byte by byte, which every decoder reads as that list. |
| NativeLayout.ScalarsRead | bindings/go/internal/cgo/value.go:326-358 | Every decoder reads a scalar as what it is, integers as two's complement, and refuses a tag it does not know. |
| NativeLayout.NullsRead | bindings/typescript/src/ffi/index.ts:989-1063 | A null header is an error in Go and Python, an empty container to the offset walk and a failure of the struct walk; null items behind a length crash Go and Python only. |
| NativeLayout.BuffersRead | bindings/go/internal/cgo/value.go:340-352 | A buffer is read whole below 2^31 bytes; from there to 2^32 Go and Python see a negative length and fail. |
| NativeLayout.TextsRead | bindings/typescript/src/ffi/index.ts:989-1063 | Go and Python read text whole, JavaScript up to just before its first zero byte. |
| NativeLayout.EntryRead | bindings/typescript/src/ffi/index.ts:989-1063 | An entry is read under its key, except `__proto__` in JavaScript; a null key with a length crashes Python alone. |
| RoundTrip.DecodeEncoded | bindings/go/internal/cgo/value.go:325-400 | Central round trip: for each of the four decoders, any layout of a value in memory decodes to that value exactly when its integers are int64, its vectors under 2^32 long, for Go and Python its texts and bytes under 2^31 long, and for JavaScript no text or key has a zero byte and no key is `__proto__`. |
| RoundTrip.ElemsAre | bindings/go/internal/cgo/value.go:355-373 | A list comes back equal exactly when each element does. |
| RoundTrip.EntriesAre | bindings/go/internal/cgo/value.go:374-397 | With keys intact, a map written in any order comes back equal exactly when each value does. |
| RoundTrip.BufSurvives | bindings/go/internal/cgo/bridge.go:1392-1397 | The cast to C `int` keeps a text exactly when it is under 2^31 bytes long; decoding as `char` keeps it exactly when it has no zero byte. |
| NativeHeap.CAlloc.Malloc | bindings/go/internal/cgo/value.go:19-29 | A block is recorded exactly when one was acquired; size zero acquires nothing and is no failure. |
| NativeHeap.CAlloc.Bytes | bindings/go/internal/cgo/value.go:31-50 | The recorded block holds the data; no data gives a null pointer without failure. |
| NativeHeap.CAlloc.FreeAll | bindings/go/internal/cgo/value.go:52-57 | Frees each recorded block once, newest first, and restores live blocks and memory to what they were before the tracker started. |
| GoEncode.FillValue | bindings/go/internal/cgo/value.go:80-175 | On success the cell holds an encoding of the value and the tracker gained exactly the pointers in it; on failure too, nothing live before is touched except unwritten bytes of the cell. |
| GoEncode.FillBuffer | bindings/go/internal/cgo/value.go:94-107 | Strings and bytes: a null pointer exactly for empty data. |
| GoEncode.FillVector | bindings/go/internal/cgo/value.go:108-119 | The vector is readable up to its length in 32 bits. |
| GoEncode.FillListHeader | bindings/go/internal/cgo/value.go:120-141 | The length is always set, the item pointer only when there are items; pointers are recorded header, items, children. |
| GoEncode.FillItem | bindings/go/internal/cgo/value.go:132-137 | Filling item i keeps the items before it and leaves the cells after it unwritten. |
| GoEncode.FillMapHeader | bindings/go/internal/cgo/value.go:142-171 | As for lists; every key is present once, in whatever order the map was enumerated. |
| GoEncode.FillEntry | bindings/go/internal/cgo/value.go:155-168 | Filling entry i keeps the entries before it and leaves those after it unwritten. |
| GoEncode.FillPair | bindings/go/internal/cgo/value.go:155-168 | A key and its value are written side by side without disturbing each other. |
| GoNormalize.NormalizeValue | bindings/go/internal/cgo/value.go:177-323 | Returns a copy of the property value the input stands for, exactly when it stands for one, and `GoNormalize.DenotesExactly` says which that is; every slice and map of the copy is new, and nothing that was in memory before has changed. Otherwise it ends in an error or a panic that some enumeration of the maps meets first. |
| GoNormalize.DenotesExactly | bindings/go/internal/cgo/value.go:177-323 | A Go value is stored as exactly the property value that holds the same data, told from the stored value alone: an integer from the signed or unsigned integer of that number, a buffer or vector from a slice or array with those elements, a list or map item by item and key by key, null from nil, all behind any pointers and defined types. |
| GoNormalize.ScalarsAlike | bindings/go/internal/cgo/value.go:241-307 | Values that hold the same data in different types are stored alike: unsigned integers up to 2^63 - 1 as the signed ones, nil pointers as nil, pointers and defined types as what they lead to, byte and float slices and arrays as `[]byte` and `[]float32`. |
| GoNormalize.ContainersAlike | bindings/go/internal/cgo/value.go:300-323 | Slices and arrays of any element type are stored as `[]any` of the same items, maps of any defined string key type as `map[string]any`. |
| GoNormalize.NormalizeReflected | bindings/go/internal/cgo/value.go:240-323 | Pointers and a defined type of the value itself make no difference, to the copy or to how else it ends. |
| GoNormalize.NormalizeItems | bindings/go/internal/cgo/value.go:219-228 | Each item is copied apart from everything there was and from the slice that receives it. |
| GoNormalize.NormalizeEntries | bindings/go/internal/cgo/value.go:229-239 | The copy is independent of the order in which the runtime enumerates the map. |
| GoNormalize.PanicsExactly | bindings/go/internal/cgo/value.go:276-281 | Some enumeration of the maps makes normalising panic exactly when a slice of a defined byte type, behind any pointers or defined types, is met before any part that is an error, where any entry of a map may be met first. |
| GoNormalize.MayArises | bindings/go/internal/cgo/value.go:306-320 | Whatever may be met first is met first under some enumeration of the maps. |
| GoNormalize.VerdictsMay | bindings/go/internal/cgo/value.go:177-323 | Under every enumeration of the maps a value is accepted exactly when it stands for one, and an error or a panic is one that may be met first. |
| GoNormalize.FirstBadItemDecides | bindings/go/internal/cgo/value.go:193-228 | In a list the first item without a value decides how normalising ends; an unsigned integer above int64, a kind without native form and a map without string keys end in an error, a slice of a defined byte type in a panic. |
| GoNormalize.DefinedBytesExample | bindings/go/internal/cgo/value.go:276-297 | `[]B{1}` with `type B uint8` panics, also when it is empty or behind a pointer, while the array `[1]B{1}` is copied. |
| GoHeap.CopyIsIndependent | bindings/go/internal/cgo/value.go:214-239 | Whatever is written later to the memory that was there before, the copy holds the same value. |
| GoHeap.PointsStays | bindings/go/internal/cgo/value.go:177-323 | The input still means the same value after any number of allocations. |
| GoHeap.Contents | bindings/go/internal/cgo/value.go:80-175 | Reading a copy yields exactly the value it is a copy of. |
| GoNormalize.NormalizeIdempotent | bindings/go/internal/cgo/value.go:177-323 | Normalising a normalised value changes nothing. |
| GoNormalize.NormalizeClosed | bindings/go/internal/cgo/value.go:177-323 | Every result is one of the nine shapes the encoder accepts, with integers in int64. |
| GoNormalize.RejectedExactly | bindings/go/internal/cgo/value.go:193-197 | Some enumeration of the maps makes normalising return an error exactly when a part that is an error may be met first; a value stands for nothing exactly when it may end in an error or a panic. |
| GoNormalize.RefusedExactly | bindings/go/internal/cgo/value.go:177-323 | A value stands for nothing exactly when some part of it is an unsigned integer above int64, a slice of a defined byte type, a map with keys that are not strings, or of a kind without native form. |
| GoDecode.DecodeValue | bindings/go/internal/cgo/value.go:325-400 | Decodes exactly the value the memory holds; no cell is read that was not written. |
| GoDecode.DecodeList | bindings/go/internal/cgo/value.go:355-373 | A null header is an error; an empty list never reads the item pointer. |
| GoDecode.DecodeMap | bindings/go/internal/cgo/value.go:374-397 | A null header is an error; an empty map never reads the entry pointer. |
| GoDecode.CopyBytes | bindings/go/internal/cgo/bridge.go:1392-1397 | Null or empty gives no bytes; a length that the cast makes negative crashes. |
| GoBinding.EncodeValue | bindings/go/internal/cgo/value.go:59-78 | Allocation conservation: after an error or a panic the heap is exactly as before; on success the cell encodes what the normalised copy holds, the copy shares no buffer with what was there, and the new live blocks are exactly the pairwise distinct ones in the tracker, the root and everything reachable from it. |
| GoBinding.StoreProperty | bindings/go/internal/cgo/bridge.go:604-619 | Whatever fails, every block is given back; the engine was handed a cell that decodes to the normalised value exactly when that value survives the Go decoder. |
| PyEncode.FillObject | bindings/python/src/latticedb/_bindings.py:1380-1462 | On success the cell encodes the value the object stands for, which `PyEncode.StandsExactly` tells apart, and `refs` gained exactly the non-null pointers in it; a TypeError is raised only for an object that stands for none; other live memory is untouched. |
| PyEncode.StandsExactly | bindings/python/src/latticedb/_bindings.py:1380-1462 | An object is stored as exactly the value it is a Python form of: a bool as that bool and no integer, an int as that integer, a list item by item, a dict with just those keys, all text, in any order. |
| PyEncode.PyForm | bindings/python/src/latticedb/_bindings.py:1380-1462 | Every property value has a Python form. |
| PyEncode.FillData | bindings/python/src/latticedb/_bindings.py:1392-1412 | A buffer is made and kept exactly for data that is not empty. |
| PyEncode.FillArray | bindings/python/src/latticedb/_bindings.py:1413-1419 | The array buffer is kept even when empty, and its length is cut to 32 bits. |
| PyEncode.FillListStruct | bindings/python/src/latticedb/_bindings.py:1420-1434 | Both header fields are set in every case; a bad item anywhere makes the whole list a TypeError. |
| PyEncode.FillMapStruct | bindings/python/src/latticedb/_bindings.py:1435-1460 | Both header fields are set in every case; the entries are the dict, each key once. |
| PyEncode.PairsSpoil | bindings/python/src/latticedb/_bindings.py:1442-1445 | One key that is not a string, or one value that stands for nothing, spoils the whole dict. |
| PyEncode.ItemsSpoil | bindings/python/src/latticedb/_bindings.py:1427-1428 | One item that stands for nothing spoils the whole list. |
| PyDecode.ValueToPython | bindings/python/src/latticedb/_bindings.py:1300-1357 | Decodes exactly the value the memory holds. |
| PyDecode.StringAt | bindings/python/src/latticedb/_bindings.py:1322-1327 | The length goes through C `int`: a negative one fails, and a shorter one cuts the bytes. |
| PyDecode.MapToPython | bindings/python/src/latticedb/_bindings.py:1342-1352 | A null map raises; entries are read in order and the first failure wins. |
| PyDecode.KeyAt | bindings/python/src/latticedb/_bindings.py:1350 | Only the length of a key is looked at, so a null key with a length crashes. |
| PyBinding.PythonToValue | bindings/python/src/latticedb/_bindings.py:1365-1377 | Keep-alive: the references returned are exactly the new blocks, pairwise distinct, one for each non-null pointer reachable from the cell. |
| PyBinding.StoreAndLoad | bindings/python/src/latticedb/_bindings.py:1300-1462 | A Python form of a value is read back as that value exactly when its integers are int64, its arrays under 2^32 long and its texts, bytes and keys under 2^31 long; a TypeError is raised only for an object that is a form of no value. |
| TsEncode.EncodeIsCanon | bindings/typescript/src/ffi/index.ts:921-979 | Read back, the struct built for a value is its canonical form: integral numbers are bigints and undefined is null, at every depth. |
| TsEncode.EncodedExactly | bindings/typescript/src/ffi/index.ts:921-979 | A JavaScript value is encoded as exactly the native value it is a form of: bigints and integral numbers as integers, text as text, `Uint8Array` as bytes, `Float32Array` as a vector, arrays and plain objects item by item and key by key. |
| TsEncode.CanonIdempotent | bindings/typescript/src/ffi/index.ts:921-979 | Taking the canonical form twice changes nothing. |
| TsEncode.ToJsInjective | bindings/typescript/src/ffi/index.ts:989-1063 | Different native values never look the same in JavaScript. |
| TsEncode.RoundTripsToCanon | bindings/typescript/src/ffi/index.ts:921-1063 | The canonical form comes back exactly when integers are int64, vectors are under 2^32 long, no text or key has a zero byte and no key is `__proto__`. |
| TsEncode.RefusedExactly | bindings/typescript/src/ffi/index.ts:921-979 | A TypeError is thrown exactly when something in the value has no native form. |
| TsDecode.NativeValueToJs | bindings/typescript/src/ffi/index.ts:989-1063 | The walk by offset arithmetic returns exactly the value the memory holds, strided items and entries included, whatever unwritten pointer an empty container has. |
| TsDecode.NativeLeaf | bindings/typescript/src/ffi/index.ts:993-1023 | The offset walk reads everything but lists and maps as the memory holds it. |
| TsDecode.NativeEntries | bindings/typescript/src/ffi/index.ts:1036-1056 | Entry i is found at i times the entry size, its value behind the key and length. |
| TsDecode.LatticeValueToJs | bindings/typescript/src/ffi/index.ts:1068-1134 | The walk over decoded structs returns exactly the value the memory holds, whatever unwritten pointer an empty container has. |
| TsDecode.StructLeaf | bindings/typescript/src/ffi/index.ts:1072-1106 | The struct walk reads everything but lists and maps as the memory holds it, a null string as empty. |
| TsDecode.MapCells | bindings/typescript/src/ffi/index.ts:1107-1112 | Mapping over the decoded cells is decoding them in order, the first failure first. |
| TsDecode.WalkOutcomes | bindings/typescript/src/ffi/index.ts:989-1134 | The two walks agree on a value when nothing is in the way, both refuse an unknown tag that comes first, and part at a null list or map that comes first. |
| TsDecode.WalksOnKnownTags | bindings/typescript/src/ffi/index.ts:1024-1056 | On known tags the offset walk never fails, and the struct walk fails exactly when a container is null. |
| TsDecode.WalksAgreeExactly | bindings/typescript/src/ffi/index.ts:883-898 | On every image, value or error, the two walks agree exactly when the first thing in the way is not a null list or map pointer. |
| TsDecode.NullListExample | bindings/typescript/src/ffi/index.ts:1107-1112 | A concrete cell with a null list pointer: an empty list to one walk, a crash to the other. |
| Engine.NextConsistent | src/api/c_api.zig:1273-1405 | Under the answers the engine may give, the writer slot has at most one holder, consumed handles are never live, and nothing is left of a closed database. |
| Engine.OneWriter | src/storage/database.zig:1726-1765 | There is at most one live writer, and none when another is begun. |
| Engine.EndedForGood | src/api/c_api.zig:1354-1405 | A granted ending, or a refusal that consumes the handle, removes just that transaction, whose handle is refused from then on; another refusal changes nothing. |
| Engine.ClosedExactly | src/api/c_api.zig:1234-1271 | Close goes through, with OK or an I/O error, exactly when no transaction is live. |
| Engine.StaleChangesNothing | src/api/c_api.zig:1004-1008 | A consumed handle is always refused and changes nothing. |
| Engine.SlotStays | src/storage/database.zig:1726-1765 | A lost writer slot stays lost, and no writer begins, until the database is closed. |
| Engine.SlotLostExactly | src/api/c_api.zig:1327-1346 | While the database is open, the slot is lost exactly when it was, or a refusal consumed the handle of a writer, or a begin was refused that left its writer behind. |
| Lifecycle.RunsKeepAccount | bindings/go/tx.go:20-42 | In any order of client calls, `Database.query` included, and under any answers: the calls are safe exactly when nothing is used after a refusal that consumed its handle, and a live transaction is without holder exactly when one was dropped. |
| Lifecycle.WholeRunSafety | bindings/typescript/src/transaction.ts:55-83 | From open on: safety exactly under that abstinence; a wrapper that is not spent and holds a handle has a live transaction on a live, held database; every live transaction is held exactly when nothing was dropped; after close only spent wrappers still hold handles, all of them freed. |
| Lifecycle.StepHas | bindings/python/src/latticedb/transaction.py:75-116 | Each request keeps the account of who holds which live transaction, is safe exactly when it uses nothing spent, and drops a transaction exactly when it gives up a handle the engine kept. |
| Lifecycle.CloseSucceedsExactly | src/api/c_api.zig:1234-1267 | Close goes through exactly when nothing was dropped on the way and every wrapper has let go of its handle or is spent. |
| Lifecycle.DroppedStaysLive | src/api/c_api.zig:1242-1245 | A dropped transaction stays live, and close is refused ever after. |
| Lifecycle.DroppedAsBuilt | src/api/c_api.zig:1354-1405 | On the engine as built, a transaction is dropped exactly when a writing `Database.query` of Go or Python had its commit refused with the handle kept, or a query of Go panicked; a Python rollback loses none, and TypeScript loses none at all. |
| Lifecycle.WriterSlotLostExactly | src/storage/database.zig:1726-1765 | The writer slot is lost exactly when a commit or rollback of a writer was refused and consumed its handle, or a begin was refused that left its writer behind. |
| Lifecycle.QueryPlays | bindings/typescript/src/database.ts:207-281 | `Database.query` leaves the live transactions as they were, except for its own when it gave that up, and passes a consumed handle only in rolling back after a commit that was refused and consumed it. |
| Lifecycle.QueryCommitsExactly | bindings/typescript/src/database.ts:207-281 | `Database.query` commits exactly when the engine called the query a writing one, every earlier call went through and every row was read; it begins a writer exactly when it was called a writing one, and ends no transaction but its own. |
| Lifecycle.QueryCallsExamples | bindings/python/src/latticedb/database.py:313-414 | The calls of a writing query, a reading one, a failing one and a panicking one, one by one. |
| Lifecycle.WhoReachesTheEngine | bindings/go/tx.go:20-42 | A request reaches the engine exactly when its transaction is still active and holds a handle, or the database is open; Python uses look at the handle alone, and a read-only database begins no writer. |
| Lifecycle.SpentHandleExample | bindings/go/tx.go:32-42 | A run of Go or TypeScript that passes a freed handle: begin, a refused rollback, close, commit. |
| Lifecycle.WriterSlotExample | src/api/c_api.zig:1393-1400 | A run after which no writer can begin: begin, a refused rollback. |
| Lifecycle.DroppedQueryExample | bindings/python/src/latticedb/database.py:396-403 | A run after which the database cannot be closed: a writing query whose commit is refused. |
| Lifecycle.PanickedQueryExample | bindings/go/internal/cgo/bridge.go:847-867 | A run after which the database cannot be closed: a Go query whose parameter makes the encoder panic. |
| Wrappers.GoTx.CommitTx | bindings/go/tx.go:20-30 | Takes the `Lifecycle` step for commit: one call, with the live handle; granted, it clears handle and flag, and otherwise leaves both as they were. |
| Wrappers.GoTx.RollbackTx | bindings/go/tx.go:32-42 | Takes the `Lifecycle` step for rollback; granted, it clears handle and flag; an inactive transaction is left alone without error. |
| Wrappers.FlaggedTx.CommitTx | bindings/typescript/src/transaction.ts:55-69 | Takes the `Lifecycle` step for commit in Python and TypeScript; granted, the transaction is committed, not rolled back, and holds no handle; a refused commit leaves every field as it was. |
| Wrappers.FlaggedTx.RollbackPython | bindings/python/src/latticedb/transaction.py:102-116 | Takes the Python step: unless it was committed, the transaction is rolled back and holds no handle, even when the engine refuses. |
| Wrappers.FlaggedTx.RollbackTypeScript | bindings/typescript/src/transaction.ts:71-83 | Takes the TypeScript step: granted, the transaction is rolled back, not committed, and holds no handle; a refused rollback leaves every field as it was. |
| Wrappers.EndTwice | bindings/typescript/src/transaction.ts:55-83 | Once one ending of a Python or TypeScript transaction is granted, a second one makes no call, and returns without an error exactly when both are rollbacks. |
| Wrappers.EndGoTwice | bindings/go/tx.go:20-42 | Once one ending of a Go transaction is granted, a second one makes no call: a commit gives an error, a rollback none. |
| Wrappers.Db.CloseDb | bindings/go/internal/cgo/bridge.go:237-251 | The handle is given up exactly when close answers OK or IO, and close is called only while it is held. |
| QueryRun.QueryPython | bindings/python/src/latticedb/database.py:313-414 | Whichever call or conversion fails, the run obeys the release discipline; it succeeds exactly when none failed that the code looks at, and then all parameters were bound, all names, cells and rows read and a writing query committed. |
| QueryRun.QueryTypeScript | bindings/typescript/src/database.ts:207-281 | The same for the nested try/finally blocks with `settled` and `resultReleased`. |
| QueryRun.ReleasedOnce | bindings/python/src/latticedb/database.py:405-414 | A disciplined run frees the query and any result exactly once; Python resolves a begun transaction by exactly one call, TypeScript rolls back exactly when no commit succeeded. |
| QueryRun.ReleasedInOrder | bindings/typescript/src/database.ts:253-280 | The result is freed before the transaction is resolved, and freeing the query is the last call of all. |
| QueryRun.CommitNeedsRows | bindings/python/src/latticedb/database.py:394-403 | A commit is attempted only by a writing query, in a write transaction, after every row was read without a failed cell and the result was freed. |
| QueryRun.ReadersNeverBeginWrites | bindings/typescript/src/database.ts:228-232 | A query the engine reports as non-writing never asks for a write transaction. |
| QueryRun.GoneStays | bindings/python/src/latticedb/database.py:405-414 | What has been released is never acquired again in the same run. |
| QueryLink.DisciplinedIsQuery | bindings/python/src/latticedb/database.py:313-414 | The calls of every disciplined run of `Database.query`, whichever were refused and how, are calls that the runs of `Lifecycle` count with. |
| Interleaving.QueriesEndAlike | bindings/typescript/src/database.ts:255-276 | From its first ending step on, an interleaved query makes the calls that the runs of `Lifecycle` list for it. |
| Interleaving.EndingAsked | bindings/go/db.go:188-197 | The call after the body is a commit exactly when the body ended well in an `Update`, a `write` or a writing query, and a rollback in every other case. |
| Interleaving.EndsAsItsBodyDid | bindings/go/db.go:165-198 | A run whose callback leaves the ending to it begins once, in write mode exactly for `Update`, `write` and what writes, and then commits exactly when its body ended well and it is an `Update`, a `write` or a writing query, and rolls back otherwise; a panicking Go body gets neither. |
| Interleaving.AfterRefusedCommit | bindings/typescript/src/database.ts:183-198 | After a refused commit, `write` and TypeScript queries ask for a rollback, and every other run is over. |
| Interleaving.CallbacksAndPanics | bindings/go/db.go:165-198 | A callback can end the transaction in `View`, `Update`, `read`, `write` and `with` alone, and only Go runs are cut short by a panic. |
| Interleaving.EachRunByItself | bindings/go/db.go:165-198 | However runs are interleaved, each ends as its own inputs make it and makes just the calls they call for. |
| Interleaving.CommitsExactlyWhenWell | bindings/go/db.go:165-198 | In every interleaving, a run whose callback leaves the ending to it asks to commit its own transaction only if its body ended well in an `Update`, a `write` or a writing query, and if so has asked by the time it is over. |
| Interleaving.InterleavingsKeepInv | bindings/go/db.go:165-221 | In every interleaving of queries, `View`, `Update`, `read`, `write` and `with` runs, each run owns at most its own live transaction, in the mode it began, no two share one, and no consumed handle is passed exactly when no run asks again after a refusal that consumed its handle. |
| Interleaving.TakeKeepsInv | bindings/typescript/src/database.ts:165-198 | One turn of one run keeps that account, and is safe exactly when it does not reuse a consumed handle. |
| Interleaving.WriterIsAWritingRun | bindings/go/db.go:212-221 | If the writer slot is not as it was at the start, it was free then, exactly one run keeps it, and that run is not a reader; no reader ever asks for it. |
| Interleaving.FinishedRunsLeaveNothing | bindings/python/src/latticedb/database.py:350-412 | When all runs are over, the live transactions are those of the start exactly when no last commit or rollback was refused with its handle kept and no body panicked before asking, and the writer slot is as at the start exactly when every run that began to write had its ending granted. |
| Interleaving.WhoLeavesATransaction | bindings/go/db.go:182-198 | On the engine as built, a run ends with its transaction live only as `Update` or a writing query of Go or Python after a refused commit, or as a Go run whose body panicked. |
| Interleaving.SlotOf | src/storage/database.zig:1659-1682 | The writer slot is as it was before exactly when no run occupies it. |
| Ownership.PropertyTypeScript | bindings/typescript/src/ffi/index.ts:659-677 | The cell and, if one was handed over, its storage are freed once on every way out, and the value is returned exactly when it can be decoded. |
| Ownership.PropertyScoped | bindings/python/src/latticedb/transaction.py:384-399 | The storage is freed once after decoding, also when decoding fails; a missing property frees nothing. |
| Ownership.One | bindings/typescript/src/ffi/index.ts:659-677 | A reply gives its value exactly when it can be read, and raises otherwise. |
| Ownership.ResultCell | bindings/typescript/src/ffi/index.ts:831-840 | A query-result cell frees its own memory; the storage borrowed from the result stays borrowed and unfreed. |
| Ownership.ReadAll | bindings/typescript/src/ffi/index.ts:722-778 | A batch or result handle is freed once, after its last use, and with it everything it lent, also when an item in the middle cannot be read; otherwise all items are returned in order, none for a null batch. |
| Ownership.Drain | bindings/python/src/latticedb/transaction.py:1139-1171 | Stops at the first item that cannot be read and otherwise returns all of them in order. |
| Ownership.All | bindings/typescript/src/ffi/index.ts:741-774 | A list is returned exactly when every one of its items can be read, and then it is those items in order. |
| Ownership.GiveIds | src/api/c_api.zig:1770-1787 | An index lookup hands over an array, or null exactly when nothing was found. |
| Ownership.LookupPython | bindings/python/src/latticedb/transaction.py:535-555 | Every id array handed over is freed once, and the ids are returned in order. |
| Ownership.LookupTypeScript | bindings/typescript/src/ffi/index.ts:561-570 | Every id array handed over is freed once, also when the ids cannot be decoded. |
| Uri.RecomposeTail | scripts/mdbook_seo.py:68-87 | Query and fragment together hold every character after the path. |
| Uri.DirectoryIsWalked | scripts/mdbook_seo.py:73-76 | Dot-segment removal (section 5.2.4 of RFC 3986) reaches what follows a directory in a state that depends on the directory alone. |
| Uri.RemoveDotsLast | scripts/mdbook_seo.py:73-76 | A last segment survives dot-segment removal exactly in place, unless it is a dot segment, and then the result is a directory. |
| Uri.RemoveDotsExample | scripts/mdbook_seo.py:73-76 | The example of section 5.2.4 of RFC 3986: `/a/b/c/./../../g` becomes `/a/g`. |
| Uri.ResolveExamples | scripts/mdbook_seo.py:73-76 | References of section 5.4.1 of RFC 3986, parsed and resolved against the base of section 5.4. |
| Links.HtmlSuffixExact | scripts/mdbook_seo.py:51 | The suffix expression matches in at most one way, and the model finds that match, the newline that `$` may skip included. |
| Links.CanonicalOf | scripts/mdbook_seo.py:90-97 | A page is served at its folder plus its name, `index` standing for the folder, so its address has the same folder as its file. |
| Links.CanonicalInjective | scripts/mdbook_seo.py:90-97 | Two pages share an address exactly when they are one file, or one is `index.html` and the other `.html` in one folder. |
| Links.CanonicalDistinct | scripts/mdbook_seo.py:90-97 | Two pages with names share an address exactly when they are one file. |
| Links.CanonicalExamples | scripts/mdbook_seo.py:90-97 | The root page is served at `/`, a folder's page at the folder, a named page at its name. |
| Sitemap.SitemapIsStrict | scripts/mdbook_seo.py:326-337 | The sitemap of different files with names lists one location for each, in strictly ascending order. |
| Sitemap.SortedAscends | scripts/mdbook_seo.py:326 | Sorting different locations puts them in strictly ascending order. |
| Sitemap.BeforeExactly | scripts/mdbook_seo.py:326 | One string sorts before another exactly when the two agree up to a place where the first ends or has the smaller character. |
| Links.OtherSitesUntouched | scripts/mdbook_seo.py:49 | References with a scheme or host are never rewritten. |
| Links.AbsoluteExactly | scripts/mdbook_seo.py:49 | A reference is taken for absolute exactly when it has a scheme or a host, opens with `#`, or opens with what would be a scheme but for a dotted or dotless i, a long s or a kelvin sign in it; none without a colon, `//` or `#` is. |
| Links.CleanedExactly | scripts/mdbook_seo.py:68-87 | Every other reference that matches the suffix expression loses `.html`, or `index.html`, or becomes `./`, with its tail kept, and every one that does not match is unchanged. |
| Links.CleanHrefExamples | scripts/mdbook_seo.py:69-78 | The three rewritings the documentation string gives, and references left alone: to another site, to a host, a fragment, a style sheet. |
| Links.UntouchedKeepsResolving | scripts/mdbook_seo.py:73-76 | A reference left as it is resolves the same against the new address of its page as against the old one; a bare query or fragment stays on the page. |
| Links.LinksKeepMeaning | scripts/mdbook_seo.py:68-87 | Main result: a link from a page to a built page leads, rewritten, to the address of that page with query and fragment unchanged, exactly when it is empty, or free of a would-be scheme with an odd letter (`Links.AbsoluteExactly`), free of newlines after the path, and its name is `index`, or not a dot segment and not ending in `index`; a nameless file needs a folder in the link or the page to be its own folder. |
| Links.NewTarget | scripts/mdbook_seo.py:84-87 | From any folder, the new name resolves to where the page is served for exactly those names. |
| Links.NewlineSpoils | scripts/mdbook_seo.py:51 | A newline after the path leaves the reference untouched or is lost from its query or fragment. |
| Links.IndexSuffixIsLost | scripts/mdbook_seo.py:85-86 | A name that goes on to end in `index` is cut short and leads elsewhere: `myindex.html` becomes `my`. |
| Paragraph.FirstParagraph | scripts/mdbook_seo.py:110-142 | Returns the stripped lines of the first maximal run of prose joined by spaces, and the empty string exactly when there is no prose. |
| Paragraph.TrimmedIs | scripts/mdbook_seo.py:117-118 | White space around a line changes neither what is kept of it nor what kind of line it is. |
| Paragraph.FenceLines | scripts/mdbook_seo.py:120-124 | Three backquotes or tildes make a fence. |
| Paragraph.HashLines | scripts/mdbook_seo.py:133-139 | A line that opens with hashes is skipped exactly when there are one to six of them with white space after them, and is prose otherwise. |
| Paragraph.DigitLines | scripts/mdbook_seo.py:133-139 | A line that opens with digits is skipped exactly when a full stop and white space follow them. |
| Paragraph.FirstCharacters | scripts/mdbook_seo.py:133-139 | A line that opens with a letter is prose; one that opens with `>`, a bar, `<` or two braces is skipped; one that opens with a dash, star or plus is skipped exactly when white space follows. |
| Paragraph.SpacedConcat | scripts/mdbook_seo.py:142 | The lines of a paragraph stand in order with one space between them. |
| Paragraph.ParagraphExample | scripts/mdbook_seo.py:110-142 | A heading, an empty line and two lines of text: the paragraph is the two lines, stripped and joined. |
| Paragraph.ParagraphExists | scripts/mdbook_seo.py:110-142 | There is such a run whenever any line is prose. |
| Paragraph.ParagraphsAgree | scripts/mdbook_seo.py:110-142 | There is only one first run. |
| Paragraph.FrontMatterInvisible | scripts/mdbook_seo.py:119-138 | Lines without prose whose fences are closed can be put in front without changing what is extracted. |
| GraphRag.Discover | examples/go/main.go:289-345 | The counting loops tally every discovering path, in the order they meet them. |
| GraphRag.PathsEnumerated | examples/python/paper_graph_rag.py:176-205 | The loops meet every path by outgoing citation, incoming citation or shared author exactly once. |
| GraphRag.PathsInOrder | examples/python/paper_graph_rag.py:176-205 | Paths are met seed by seed, and for each seed its outgoing citations first, then its incoming ones, then shared authors, each in the order of the edges. |
| GraphRag.ExpansionCounts | examples/go/main.go:272-345 | A node is discovered exactly when some path from a seed leads to it and it is no seed, and its count is the number of such paths. |
| GraphRag.DiscoveredExactly | examples/go/main.go:289-345 | By the edges alone: a node is discovered exactly when it is no seed and a seed cites it, it cites a seed, or it shares an author with one. |
| GraphRag.FirstIsKept | examples/ts/paper_graph_rag.ts:221-226 | The label of a node is that of the path met first. |
| GraphRag.KeysAreFirsts | examples/python/paper_graph_rag.py:172-205 | The maps hold the nodes in the order of their first discovery, each once. |
| GraphRag.FirstsExact | examples/python/paper_graph_rag.py:172-205 | First occurrences hold every node once, and what was met before stays in front. |
| GraphRag.OrderIsHidden | examples/go/main.go:347-362 | Any list of the discovered nodes by count, then tie-breaker, is the one list: neither the iteration order of the map nor the sorting algorithm shows. |
| GraphRag.TiesAreBroken | examples/ts/paper_graph_rag.ts:265-267 | Node ids (Go) and insertion positions (the stable sorts of Python and TypeScript) both order the discovered nodes completely. |
| GraphRag.SortedAscends | examples/go/main.go:356-362 | The output is sorted: of any two nodes the earlier has more paths, or as many and the smaller tie-breaker. |
| GraphRag.Merge | examples/python/paper_graph_rag.py:282-306 | The merged list is the concatenation vector, expanded, full-text without later repeats of a node. |
| GraphRag.FirstOccurrencesExact | examples/ts/paper_graph_rag.ts:346-371 | First occurrences repeat no node and lose none. |
| GraphRag.KeptAsFirst | examples/ts/paper_graph_rag.ts:346-371 | What is kept of a node is the paper that came first. |
| GraphRag.PrefixKept | examples/ts/paper_graph_rag.ts:346-371 | What is merged later never displaces what was merged before. |
| GraphRag.MergeGrowth | examples/python/paper_graph_rag.py:282-306 | For distinct vector results: they all come first, the nodes are the union, and the list grows by the number of nodes not found by vector search. |
| GraphRag.MergeLabels | examples/python/paper_graph_rag.py:282-306 | Papers found by vector search are labelled so; papers that expansion found otherwise keep their own label; the rest are labelled full-text search. |

## Left out

- The engine (storage, write-ahead log, snapshots, vector and text search): only what its C interface does with handles and with the writer slot is modelled. Why a call is refused, and what a refused commit leaves on disk, are left out.
- Engine.NextConsistent: handles are numbers that are not used again while their memory is kept; that freed memory may come back as another handle after close is not modelled. Prepared queries and results also keep a database from closing; every modelled request frees its own before it returns.
- cgo, ctypes, koffi, numpy and reflect are not modelled beyond the typed reads and writes the bindings ask of them. That koffi stops decoding `char` data at a zero byte, and that CPython's `string_at` takes its size as a C `int`, are modelled; a size that becomes -1, for which `string_at` looks for a zero byte itself, counts as a failure.
- Floats are opaque bits, so the widening of float32 to float64 is not computed; text is taken to be well-formed UTF-8.
- GoNormalize.NormalizeValue: which error is returned is reduced to none; values that contain themselves, on which the source does not return, are left out.
- GoBinding.EncodeValue: the encoder is given the value read from the normalised copy, rather than the reference to it. `reflect` is modelled as far as `normalizeValue` uses it, `reflect.Copy` as panicking on unequal element types.
- GoEncode.FillValue: the size of a Go object is bounded by 2^48 bytes, as the Go runtime bounds it.
- PyEncode.FillObject: ctypes zeroes what it allocates; here those bytes count as unwritten until the code writes them, which only makes reading them harder to justify. The same size bound of 2^48 is used.
- PyEncode.FillArray: the array is one-dimensional float32 and is copied; conversion from other shapes and element types, and sharing the buffer of an array that is already contiguous, are not modelled.
- PyDecode.ValueToPython: the insertion order of the resulting dict is not captured, a map has no order here.
- TsEncode.RoundTripsToCanon: laying the struct out in memory is koffi's work; the result holds for every layout that encodes the value, integers outside int64 taken modulo 2^64. Shared and cyclic JavaScript objects are left out.
- TsDecode.NativeValueToJs: lengths of 2^53 and more, which a JavaScript number would round, are read exactly. The struct walk is modelled on pointers that koffi did not decode by itself.
- TsDecode.LatticeValueToJs: as for the offset walk, and a pointer that koffi has already decoded as a string is left out. The binding itself calls this walk only from within; a test calls it from outside (bindings/typescript/tests/basic.test.ts:315).
- TsEncode.ToJsInjective: floats are told apart by their bits, so NaNs that JavaScript does not tell apart count as different.
- Lifecycle.WholeRunSafety: reopening a closed database object, beginning one Python transaction object twice, and query result handles that outlive a call are left out. Uses of a transaction after it ended return an error before any call and are modelled as no call. In Go the wrapper of `Update` is local to it; here a wrapper is never forgotten, and `Interleaving` has the scoped runs.
- Interleaving.InterleavingsKeepInv: the database stays open while the runs last, and reads and writes inside a transaction are left out, since they move no handle. Every turn is atomic at one engine call. A Go body may panic; panics elsewhere in a run are left out.
- QueryRun.QueryPython: result sets are finite; which exception is raised, and the values of rows, are left out.
- QueryRun.QueryTypeScript: as for Python.
- Go `DB.Query` evaluates `result` and the call that fills it in one return statement, in an order the language leaves open; only its transaction is modelled.
- Ownership.ReadAll: one method stands for the stream, edge and search readers, whose loops differ only in the call they make.
- Ownership.LookupPython: out-pointers are null when a call fails, as the engine sets them first.
- Label strings, serialized databases and embedding vectors, which are also handed over, are not accounted for.
- Links.LinksKeepMeaning: paths are compared as written, without percent-encoding; a page with `#` or `?` in its name is never reached by a link.
- Sitemap.SitemapIsStrict: insertion sort stands for `sorted`, and strings are compared by code point; the XML text is left out.
- Paragraph.FirstParagraph: takes the document as lines already split, and `\d` as the ASCII digits.
- GraphRag.Discover: failing reads, which abort the expansion with the error, and the text of the labels are left out; the label is the path it describes.
- GraphRag.SortedAscends: insertion sort stands for `sort.Slice`, `most_common` and `Array.sort`; `GraphRag.OrderIsHidden` makes the choice irrelevant.
- GraphRag.Merge: Python writes `via` into the dicts of the vector results in place; here the merged list carries the new label and the vector list is not changed.
- Library discovery, packaging, command-line tools, embedding clients, sitemap and page head rendering, `serialize` and `get_node` buffers: plumbing around the parts above.
