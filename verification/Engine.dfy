/** The native engine as its C interface keeps handles (include/lattice.h and src/api/c_api.zig): which
    answers a call may get, and what an answer does to the handles and to the writer slot. */
module Engine {

  datatype Mode = ReadOnly | ReadWrite

  /** The writer slot: free, held by a live transaction, or lost to one that no handle reaches any more. */
  datatype Slot = Free | HeldBy(txn: nat) | Lost

  /** One opened database: whether its handle is live; its live transactions; the consumed transaction
      handles, whose memory is kept until close, and those that close has freed; and the writer slot. */
  datatype State = State(open: bool, txns: map<nat, Mode>, retired: set<nat>, freed: set<nat>, writer: Slot)

  const OPENED: State := State(true, map[], {}, {}, Free)

  datatype Call =
    | Begin(mode: Mode)
    | Commit(txn: nat)
    | Rollback(txn: nat)
    | UseTxn(txn: nat)   // any other call on a transaction handle
    | UseDb              // any other call on the database handle
    | Close

  /** A refusal says whether it consumed the transaction handle it was passed; a refused begin, whether it left
      behind a transaction that it had started and could not abort. */
  datatype Answer = Ok | OkTxn(handle: nat) | IoError | InvalidArg | Refused(consumed: bool)

  /** Every handle the call passes is live. */
  predicate HandlesLive(e: State, c: Call) {
    match c
    case Begin(_) => e.open
    case Commit(h) => h in e.txns
    case Rollback(h) => h in e.txns
    case UseTxn(h) => h in e.txns
    case UseDb => e.open
    case Close => e.open
  }

  /** The answers a call may get. A second writer is refused while the slot is not free. Close goes through
      exactly when no transaction is live. A commit or rollback of a live transaction may be refused with or
      without consuming the handle; a handle that is not live only ever gets a refusal. */
  predicate Allowed(e: State, c: Call, a: Answer) {
    match c
    case Begin(mode) =>
      if a.OkTxn? then
        e.open && a.handle != 0 && a.handle !in e.txns && a.handle !in e.retired && (mode.ReadWrite? ==> e.writer.Free?)
      else a == Refused(false) || (a == Refused(true) && e.open && mode.ReadWrite? && e.writer.Free?)
    case Commit(h) => if h in e.txns then a.Ok? || a.Refused? else a == Refused(false)
    case Rollback(h) => if h in e.txns then a.Ok? || a.Refused? else a == Refused(false)
    case UseTxn(h) => (a.Ok? && h in e.txns) || a == Refused(false)
    case UseDb => (a.Ok? && e.open) || a == Refused(false)
    case Close => if e.open && e.txns == map[] then a.Ok? || a.IoError? else a.InvalidArg?
  }

  /** What the engine on disk does beyond that: a refused rollback always consumes the handle. */
  predicate AsBuilt(e: State, c: Call, a: Answer) {
    c.Rollback? && c.txn in e.txns && a.Refused? ==> a.consumed
  }

  function Next(e: State, c: Call, a: Answer): State {
    match c
    case Begin(mode) =>
      if a.OkTxn? then
        e.(txns := e.txns[a.handle := mode], writer := if mode.ReadWrite? then HeldBy(a.handle) else e.writer)
      else if a == Refused(true) && mode.ReadWrite? then e.(writer := Lost)
      else e
    case Commit(h) => Resolved(e, h, a)
    case Rollback(h) => Resolved(e, h, a)
    case Close => if a.Ok? || a.IoError? then State(false, map[], {}, e.freed + e.retired, Free) else e
    case _ => e
  }

  /** A granted ending frees the writer slot; a refusal that consumes the handle does not. */
  function Resolved(e: State, h: nat, a: Answer): State {
    if a.Ok? || a == Refused(true) then
      e.(txns := e.txns - {h}, retired := e.retired + {h},
         writer := if e.writer != HeldBy(h) then e.writer else if a.Ok? then Free else Lost)
    else e
  }

  /** The writer slot is held by the one live writer, if there is one, and once the database is closed nothing is
      left of it. */
  ghost predicate Consistent(e: State) {
    && (forall h | h in e.txns && e.txns[h] == ReadWrite :: e.writer == HeldBy(h))
    && (e.writer.HeldBy? ==> e.writer.txn in e.txns && e.txns[e.writer.txn] == ReadWrite)
    && (forall h | h in e.retired :: h !in e.txns)
    && 0 !in e.txns && 0 !in e.retired
    && (e.open ==> e.freed == {})
    && (!e.open ==> e.txns == map[] && e.retired == {} && e.writer.Free?)
  }

  lemma NextConsistent(e: State, c: Call, a: Answer)
    requires Consistent(e) && Allowed(e, c, a)
    ensures Consistent(Next(e, c, a))
  {
  }

  /** A consumed handle is refused and changes nothing. */
  lemma StaleChangesNothing(e: State, c: Call, a: Answer)
    requires Allowed(e, c, a) && !HandlesLive(e, c) && !c.Close?
    ensures a == Refused(false) && Next(e, c, a) == e
  {
  }

  /** There is at most one live writer, and none when another begins. */
  lemma OneWriter(e: State, a: Answer)
    requires Consistent(e)
    ensures forall g, h | g in e.txns && h in e.txns && e.txns[g] == e.txns[h] == ReadWrite :: g == h
    ensures Allowed(e, Begin(ReadWrite), a) && a.OkTxn? ==> forall h | h in e.txns :: e.txns[h] == ReadOnly
  {
  }

  /** A transaction is ended by a granted commit or rollback, and by a refusal that consumes its handle, which from
      then on is refused whatever it is passed to; another refusal ends nothing. */
  lemma EndedForGood(e: State, h: nat, commits: bool, a: Answer)
    requires Consistent(e) && h in e.txns && Allowed(e, if commits then Commit(h) else Rollback(h), a)
    ensures var f := Next(e, if commits then Commit(h) else Rollback(h), a);
            if a == Refused(false) then f == e
            else
              && f.txns == e.txns - {h} && f.open == e.open
              && (forall b | Allowed(f, Commit(h), b) || Allowed(f, Rollback(h), b) || Allowed(f, UseTxn(h), b) ::
                    b == Refused(false))
              && (a == Ok && e.txns[h] == ReadWrite ==> f.writer == Free)
  {
  }

  /** An open database is closed exactly when it has no live transaction, even when that ends in an I/O error. */
  lemma ClosedExactly(e: State, a: Answer)
    requires Consistent(e) && e.open && Allowed(e, Close, a)
    ensures e.txns == map[] <==> !Next(e, Close, a).open
    ensures e.txns == map[] <==> a == Ok || a == IoError
    ensures e.txns != map[] ==> a == InvalidArg && Next(e, Close, a) == e
  {
  }

  // ------------------------------------------------------------------ several calls in a row

  datatype Made = Made(call: Call, answer: Answer)

  function Play(e: State, ms: seq<Made>): State
    decreases |ms|
  {
    if ms == [] then e else Play(Next(e, ms[0].call, ms[0].answer), ms[1..])
  }

  predicate LawfulPlay(e: State, ms: seq<Made>)
    decreases |ms|
  {
    ms != [] ==>
      && Allowed(e, ms[0].call, ms[0].answer)
      && LawfulPlay(Next(e, ms[0].call, ms[0].answer), ms[1..])
  }

  predicate SafePlay(e: State, ms: seq<Made>)
    decreases |ms|
  {
    ms != [] ==> HandlesLive(e, ms[0].call) && SafePlay(Next(e, ms[0].call, ms[0].answer), ms[1..])
  }

  predicate AsBuiltPlay(e: State, ms: seq<Made>)
    decreases |ms|
  {
    ms != [] ==>
      && AsBuilt(e, ms[0].call, ms[0].answer)
      && AsBuiltPlay(Next(e, ms[0].call, ms[0].answer), ms[1..])
  }

  /** Some refusal consumed the handle of the live writer, or left a writer behind that it had begun. */
  predicate LosesSlot(e: State, ms: seq<Made>)
    decreases |ms|
  {
    ms != [] &&
    (|| (ms[0].answer == Refused(true) && AsWriter(e, ms[0].call))
     || LosesSlot(Next(e, ms[0].call, ms[0].answer), ms[1..]))
  }

  predicate AsWriter(e: State, c: Call) {
    c == Begin(ReadWrite) || ((c.Commit? || c.Rollback?) && c.txn in e.txns && e.txns[c.txn] == ReadWrite)
  }

  lemma PlayFirst(e: State, m: Made, rest: seq<Made>)
    ensures var f := Next(e, m.call, m.answer);
            && Play(e, [m] + rest) == Play(f, rest)
            && (LawfulPlay(e, [m] + rest) <==> Allowed(e, m.call, m.answer) && LawfulPlay(f, rest))
            && (SafePlay(e, [m] + rest) <==> HandlesLive(e, m.call) && SafePlay(f, rest))
            && (AsBuiltPlay(e, [m] + rest) <==> AsBuilt(e, m.call, m.answer) && AsBuiltPlay(f, rest))
  {
    assert ([m] + rest)[1..] == rest;
  }

  lemma PlayOne(e: State, m: Made)
    ensures Play(e, [m]) == Next(e, m.call, m.answer)
    ensures LawfulPlay(e, [m]) <==> Allowed(e, m.call, m.answer)
    ensures SafePlay(e, [m]) <==> HandlesLive(e, m.call)
    ensures AsBuiltPlay(e, [m]) <==> AsBuilt(e, m.call, m.answer)
  {
    assert [m] + [] == [m];
    PlayFirst(e, m, []);
  }

  lemma PlayTwo(e: State, m: Made, n: Made)
    ensures var f := Next(e, m.call, m.answer);
            && Play(e, [m] + [n]) == Next(f, n.call, n.answer)
            && (LawfulPlay(e, [m] + [n]) <==> Allowed(e, m.call, m.answer) && Allowed(f, n.call, n.answer))
            && (SafePlay(e, [m] + [n]) <==> HandlesLive(e, m.call) && HandlesLive(f, n.call))
            && (AsBuiltPlay(e, [m] + [n]) <==> AsBuilt(e, m.call, m.answer) && AsBuilt(f, n.call, n.answer))
  {
    PlayFirst(e, m, [n]);
    PlayOne(Next(e, m.call, m.answer), n);
  }

  lemma {:induction false} PlayConsistent(e: State, ms: seq<Made>)
    requires Consistent(e) && LawfulPlay(e, ms)
    ensures Consistent(Play(e, ms))
    decreases |ms|
  {
    if ms != [] {
      NextConsistent(e, ms[0].call, ms[0].answer);
      PlayConsistent(Next(e, ms[0].call, ms[0].answer), ms[1..]);
    }
  }

  /** A lost slot stays lost, and no writer begins, until the database is closed. */
  lemma SlotStays(e: State, c: Call, a: Answer)
    requires Consistent(e) && Allowed(e, c, a) && e.writer.Lost? && Next(e, c, a).open
    ensures Next(e, c, a).writer.Lost?
    ensures c == Begin(ReadWrite) ==> a == Refused(false)
  {
  }

  /** In an open database the slot is lost exactly when it was, or some refusal lost it. */
  lemma {:induction false} SlotLostExactly(e: State, ms: seq<Made>)
    requires Consistent(e) && LawfulPlay(e, ms) && Play(e, ms).open
    ensures Play(e, ms).writer.Lost? <==> e.writer.Lost? || LosesSlot(e, ms)
    decreases |ms|
  {
    if ms != [] {
      var f := Next(e, ms[0].call, ms[0].answer);
      NextConsistent(e, ms[0].call, ms[0].answer);
      NeverReopened(f, ms[1..]);
      SlotLostExactly(f, ms[1..]);
    }
  }

  lemma {:induction false} NeverReopened(e: State, ms: seq<Made>)
    requires Play(e, ms).open
    ensures e.open
    decreases |ms|
  {
    if ms != [] {
      NeverReopened(Next(e, ms[0].call, ms[0].answer), ms[1..]);
    }
  }
}
