/** `Database.query` in Python and TypeScript when any native call, and any conversion in between, may
    fail (bindings/python/src/latticedb/database.py, bindings/typescript/src/database.ts). */
module QueryRun {
  import opened Languages

  /** Go's `DB.Query` goes through `View` and `Update` instead. */
  type QueryLang = lang: Lang | !lang.Go? witness Python

  datatype Op =
    | Prepare | Bind | AskWrites | BeginRead | BeginWrite | Execute
    | ColumnName | NextRow | GetCell | FreeResult | CommitTxn | RollbackTxn | FreeQuery
    | Convert  // encoding a parameter, decoding a name or a cell: no native call, but it may raise

  /** A native call and its answer: success, or the boolean that `AskWrites` and `NextRow` report. */
  datatype Event = Event(op: Op, yes: bool)

  // ------------------------------------------------------------------ the discipline

  datatype Handle = Absent | Live | Gone

  /** What the calls made so far have left behind. */
  datatype Use = Use(query: Handle, txn: Handle, result: Handle, asked: bool, writes: bool,
                     exhausted: bool, cellFailed: bool, refused: bool, committed: bool)

  const UNUSED: Use := Use(Absent, Absent, Absent, false, false, false, false, false, false)

  datatype Maybe = Broken | Fine(use: Use)

  /** One more call, if it is a proper one at this point. */
  function Proper(lang: QueryLang, u: Use, e: Event): Maybe {
    match e.op
    case Prepare =>
      if u == UNUSED then Fine(u.(query := if e.yes then Live else Absent, refused := !e.yes)) else Broken
    case Bind => if u.query.Live? && u.txn.Absent? && !u.asked then Fine(u) else Broken
    case Convert => if u.query.Live? then Fine(u) else Broken
    case AskWrites => if u.query.Live? && !u.asked then Fine(u.(asked := true, writes := e.yes)) else Broken
    case BeginRead => BeginIs(u, e.yes, false)
    case BeginWrite => BeginIs(u, e.yes, true)
    case Execute =>
      if u.query.Live? && u.txn.Live? && u.result.Absent? && !u.refused
      then Fine(u.(result := if e.yes then Live else Absent, refused := !e.yes)) else Broken
    case ColumnName => if u.result.Live? && !u.exhausted then Fine(u) else Broken
    case NextRow =>
      if u.result.Live? && !u.exhausted && !u.cellFailed then Fine(u.(exhausted := !e.yes)) else Broken
    case GetCell =>
      if u.result.Live? && !u.exhausted && !u.cellFailed then Fine(u.(cellFailed := !e.yes)) else Broken
    case FreeResult => if u.result.Live? && u.txn.Live? then Fine(u.(result := Gone)) else Broken
    case CommitTxn =>
      // Only a writing query whose rows were all collected, once its result is freed.
      if u.txn.Live? && u.result.Gone? && u.writes && u.exhausted && !u.refused
      then Fine(u.(txn := if e.yes || lang.Python? then Gone else Live, refused := !e.yes, committed := e.yes))
      else Broken
    case RollbackTxn =>
      // Execution has been tried, and any result freed.
      if u.txn.Live? && !u.result.Live? && (u.refused || u.result.Gone?) then Fine(u.(txn := Gone)) else Broken
    case FreeQuery =>
      if u.query.Live? && !u.txn.Live? && !u.result.Live? then Fine(u.(query := Gone)) else Broken
  }

  function BeginIs(u: Use, yes: bool, writes: bool): Maybe {
    if u.query.Live? && u.asked && u.writes == writes && u.txn.Absent? && !u.refused
    then Fine(u.(txn := if yes then Live else Absent, refused := !yes)) else Broken
  }

  function After(lang: QueryLang, log: seq<Event>): Maybe {
    if log == [] then Fine(UNUSED)
    else
      var before := After(lang, log[..|log| - 1]);
      if before.Fine? then Proper(lang, before.use, log[|log| - 1]) else Broken
  }

  /** Proper at every call, and nothing left live at the end. */
  predicate Disciplined(lang: QueryLang, log: seq<Event>) {
    var u := After(lang, log);
    u.Fine? && !u.use.query.Live? && !u.use.txn.Live? && !u.use.result.Live?
  }

  // ------------------------------------------------------------------ what the discipline means

  /** How often each thing happened in a run. */
  datatype Tally = Tally(
    prepared: nat, queriesFreed: nat, executed: nat, resultsFreed: nat,
    begun: nat, writesBegun: nat, commits: nat, committed: nat, rollbacks: nat,
    saidWrites: nat, saidDone: nat, cellsFailed: nat)

  function One(b: bool): nat { if b then 1 else 0 }

  function Add(t: Tally, e: Event): Tally {
    match e.op
    case Prepare => t.(prepared := t.prepared + One(e.yes))
    case FreeQuery => t.(queriesFreed := t.queriesFreed + 1)
    case Execute => t.(executed := t.executed + One(e.yes))
    case FreeResult => t.(resultsFreed := t.resultsFreed + 1)
    case BeginRead => t.(begun := t.begun + One(e.yes))
    case BeginWrite => t.(begun := t.begun + One(e.yes), writesBegun := t.writesBegun + One(e.yes))
    case CommitTxn => t.(commits := t.commits + 1, committed := t.committed + One(e.yes))
    case RollbackTxn => t.(rollbacks := t.rollbacks + 1)
    case AskWrites => t.(saidWrites := t.saidWrites + One(e.yes))
    case NextRow => t.(saidDone := t.saidDone + One(!e.yes))
    case GetCell => t.(cellsFailed := t.cellsFailed + One(!e.yes))
    case _ => t
  }

  function Count(log: seq<Event>): Tally {
    if log == [] then Tally(0, 0, 0, 0, 0, 0, 0, 0, 0, 0, 0, 0)
    else Add(Count(log[..|log| - 1]), log[|log| - 1])
  }

  /** What follows what, whatever the answers. */
  ghost predicate Ordered(u: Use) {
    && (u.query.Absent? ==> u.txn.Absent? && !u.asked)
    && (u.query.Gone? ==> !u.txn.Live? && !u.result.Live?)
    && (u.txn.Absent? ==> u.result.Absent?)
    && (!u.txn.Absent? ==> u.asked)
    && (u.writes ==> u.asked)
    && (u.result.Absent? ==> !u.exhausted && !u.cellFailed)
    && !(u.cellFailed && u.exhausted)
    && (u.committed ==> u.txn.Gone?)
  }

  /** The handles tell how often each resource was acquired and released. */
  ghost predicate HandlesBalanced(lang: QueryLang, u: Use, t: Tally) {
    ResourcesBalanced(u, t) && TxnBalanced(lang, u, t)
  }

  ghost predicate ResourcesBalanced(u: Use, t: Tally) {
    && t.prepared == One(!u.query.Absent?) && t.queriesFreed == One(u.query.Gone?)
    && t.executed == One(!u.result.Absent?) && t.resultsFreed == One(u.result.Gone?)
    && t.begun == One(!u.txn.Absent?)
  }

  ghost predicate TxnBalanced(lang: QueryLang, u: Use, t: Tally) {
    && (if lang.Python? then t.commits else t.committed) + t.rollbacks == One(u.txn.Gone?)
    && (t.commits > 0 ==> u.result.Gone? && (u.txn.Live? ==> u.refused))
  }

  ghost predicate RowsBalanced(u: Use, t: Tally) {
    && t.writesBegun == One(!u.txn.Absent? && u.writes)
    && t.saidWrites == One(u.writes)
    && t.saidDone == One(u.exhausted) && t.cellsFailed == One(u.cellFailed)
    && t.committed == One(u.committed)
  }

  ghost predicate Balanced(lang: QueryLang, u: Use, t: Tally) {
    Ordered(u) && HandlesBalanced(lang, u, t) && RowsBalanced(u, t)
  }

  lemma StepOrdered(lang: QueryLang, u: Use, e: Event)
    requires Ordered(u) && Proper(lang, u, e).Fine?
    ensures Ordered(Proper(lang, u, e).use)
  {
    match e.op
    case Prepare =>
    case AskWrites =>
    case Execute =>
    case CommitTxn =>
    case _ =>
  }

  lemma StepResources(lang: QueryLang, u: Use, t: Tally, e: Event)
    requires Ordered(u) && ResourcesBalanced(u, t) && Proper(lang, u, e).Fine?
    ensures ResourcesBalanced(Proper(lang, u, e).use, Add(t, e))
  {
    match e.op
    case Prepare =>
    case BeginRead =>
    case BeginWrite =>
    case Execute =>
    case FreeResult =>
    case FreeQuery =>
    case _ =>
  }

  lemma StepTxn(lang: QueryLang, u: Use, t: Tally, e: Event)
    requires Ordered(u) && TxnBalanced(lang, u, t) && Proper(lang, u, e).Fine?
    ensures TxnBalanced(lang, Proper(lang, u, e).use, Add(t, e))
  {
    match e.op
    case Execute =>
    case FreeResult =>
    case CommitTxn =>
    case RollbackTxn =>
    case _ =>
  }

  lemma StepRows(lang: QueryLang, u: Use, t: Tally, e: Event)
    requires Ordered(u) && RowsBalanced(u, t) && Proper(lang, u, e).Fine?
    ensures RowsBalanced(Proper(lang, u, e).use, Add(t, e))
  {
    match e.op
    case Prepare =>
    case AskWrites =>
    case CommitTxn =>
    case NextRow =>
    case GetCell =>
    case _ =>
  }

  lemma StepBalanced(lang: QueryLang, u: Use, t: Tally, e: Event)
    requires Balanced(lang, u, t) && Proper(lang, u, e).Fine?
    ensures Balanced(lang, Proper(lang, u, e).use, Add(t, e))
  {
    hide Proper, Add, Ordered, ResourcesBalanced, TxnBalanced, RowsBalanced;
    StepOrdered(lang, u, e);
    StepResources(lang, u, t, e);
    StepTxn(lang, u, t, e);
    StepRows(lang, u, t, e);
  }

  lemma {:induction false} RunBalanced(lang: QueryLang, log: seq<Event>)
    requires After(lang, log).Fine?
    ensures Balanced(lang, After(lang, log).use, Count(log))
  {
    hide Balanced, Proper, Add;
    if log == [] {
      NothingBalanced(lang);
    } else {
      RunBalanced(lang, log[..|log| - 1]);
      StepBalanced(lang, After(lang, log[..|log| - 1]).use, Count(log[..|log| - 1]), log[|log| - 1]);
    }
  }

  lemma NothingBalanced(lang: QueryLang)
    ensures Balanced(lang, UNUSED, Count([]))
  {
  }

  /** A finished query frees the prepared query and any result exactly once, and resolves any transaction
      it began: in Python by exactly one call, in TypeScript by a rollback exactly when no commit succeeded. */
  lemma ReleasedOnce(lang: QueryLang, log: seq<Event>)
    requires Disciplined(lang, log)
    ensures var t := Count(log);
            && t.queriesFreed == t.prepared <= 1
            && t.resultsFreed == t.executed <= 1
            && t.begun <= 1
            && (lang.Python? ==> t.commits + t.rollbacks == t.begun)
            && (lang.TypeScript? ==> t.rollbacks == t.begun - t.committed)
  {
    RunBalanced(lang, log);
  }

  lemma {:induction false} PrefixFine(lang: QueryLang, log: seq<Event>, n: nat)
    requires n <= |log| && After(lang, log).Fine?
    ensures After(lang, log[..n]).Fine?
    ensures n < |log| ==> After(lang, log[..n + 1]).Fine?
    ensures n < |log| ==> Proper(lang, After(lang, log[..n]).use, log[n]) == After(lang, log[..n + 1])
    decreases |log|
  {
    hide Proper;
    if n < |log| {
      var init := log[..|log| - 1];
      if n < |init| {
        PrefixFine(lang, init, n);
        assert init[..n] == log[..n] && init[..n + 1] == log[..n + 1];
      } else {
        assert log[..n] == init && log[..n + 1] == log;
      }
    } else {
      assert log[..n] == log;
    }
  }

  predicate StillGone(u: Use, v: Use) {
    (u.txn.Gone? ==> v.txn.Gone?) && (u.query.Gone? ==> v.query.Gone?) && (u.result.Gone? ==> v.result.Gone?)
  }

  lemma StepStillGone(lang: QueryLang, u: Use, e: Event)
    requires Proper(lang, u, e).Fine?
    ensures StillGone(u, Proper(lang, u, e).use)
  {
    match e.op
    case Prepare =>
    case Execute =>
    case CommitTxn =>
    case _ =>
  }

  /** What has been released stays released. */
  lemma {:induction false} GoneStays(lang: QueryLang, log: seq<Event>, i: nat, j: nat)
    requires i <= j <= |log| && After(lang, log).Fine?
    ensures After(lang, log[..i]).Fine? && After(lang, log[..j]).Fine?
    ensures StillGone(After(lang, log[..i]).use, After(lang, log[..j]).use)
    decreases j - i
  {
    hide Proper;
    PrefixFine(lang, log, i);
    if i < j {
      StepStillGone(lang, After(lang, log[..i]).use, log[i]);
      GoneStays(lang, log, i + 1, j);
    }
  }

  /** The result is freed before the transaction is resolved, and freeing the query is the last call. */
  lemma ReleasedInOrder(lang: QueryLang, log: seq<Event>, i: nat, j: nat)
    requires Disciplined(lang, log) && i < j < |log|
    ensures log[i].op.RollbackTxn? || log[i].op.CommitTxn? ==> !log[j].op.FreeResult?
    ensures !log[i].op.FreeQuery?
  {
    hide Proper, Balanced, After;
    PrefixFine(lang, log, i);
    PrefixFine(lang, log, j);
    GoneStays(lang, log, i + 1, j);
    RunBalanced(lang, log[..j]);
    OrderStep(lang, After(lang, log[..i]).use, After(lang, log[..i + 1]).use, After(lang, log[..j]).use,
              Count(log[..j]), log[i], log[j]);
  }

  lemma OrderStep(lang: QueryLang, u: Use, v: Use, w: Use, t: Tally, first: Event, later: Event)
    requires Proper(lang, u, first) == Fine(v) && StillGone(v, w) && Balanced(lang, w, t)
    requires Proper(lang, w, later).Fine?
    ensures first.op.RollbackTxn? || first.op.CommitTxn? ==> !later.op.FreeResult?
    ensures !first.op.FreeQuery?
  {
  }

  /** A commit is attempted only by a query the engine reported as writing, in a write transaction, after
      the engine said there were no more rows, with no cell failed and the result freed. */
  lemma CommitNeedsRows(lang: QueryLang, log: seq<Event>, i: nat)
    requires i < |log| && After(lang, log).Fine? && log[i].op.CommitTxn?
    ensures var t := Count(log[..i]);
            t.saidWrites == t.writesBegun == t.saidDone == t.resultsFreed == 1 && t.cellsFailed == t.commits == 0
  {
    PrefixFine(lang, log, i);
    RunBalanced(lang, log[..i]);
  }

  /** A query the engine reports as non-writing never asks for a write transaction. */
  lemma ReadersNeverBeginWrites(lang: QueryLang, log: seq<Event>, i: nat)
    requires i < |log| && After(lang, log).Fine? && log[i].op.BeginWrite?
    ensures Count(log[..i]).saidWrites == 1
  {
    PrefixFine(lang, log, i);
    RunBalanced(lang, log[..i]);
  }

  // ------------------------------------------------------------------ the two implementations

  /** The engine and the conversions around it, failing wherever they like. */
  class Session {
    var log: seq<Event>
    var rowsLeft: nat              // results are finite; how many rows this one has is arbitrary
    const script: nat -> bool

    constructor (script: nat -> bool, rows: nat)
      ensures log == []
    {
      this.script, log, rowsLeft := script, [], rows;
    }

    method Invoke(op: Op) returns (yes: bool)
      modifies this`log
      ensures log == old(log) + [Event(op, yes)]
    {
      yes := script(|log|);
      log := log + [Event(op, yes)];
    }

    method Next() returns (more: bool)
      modifies this
      ensures log == old(log) + [Event(NextRow, more)]
      ensures more ==> rowsLeft < old(rowsLeft)
    {
      more := rowsLeft > 0;
      if more {
        rowsLeft := rowsLeft - 1;
      }
      log := log + [Event(NextRow, more)];
    }
  }

  lemma Started(lang: QueryLang)
    ensures After(lang, []) == Fine(UNUSED) && Well(lang, []) && Seen([]) == Progress(0, 0, 0, 0)
  {
  }

  lemma Logged(lang: QueryLang, log: seq<Event>, e: Event)
    requires After(lang, log).Fine?
    ensures After(lang, log + [e]) == Proper(lang, After(lang, log).use, e)
    ensures Well(lang, log + [e]) <==> Well(lang, log) && !Fatal(lang, e)
    ensures Seen(log + [e]) == Saw(Seen(log), e)
  {
    assert (log + [e])[..|log|] == log;
  }

  /** Bind every parameter: encoding one may raise, and so may the call. */
  method BindAll(lang: QueryLang, s: Session, parameters: nat) returns (ok: bool)
    requires After(lang, s.log) == Fine(UNUSED.(query := Live)) && Well(lang, s.log)
    modifies s
    ensures After(lang, s.log) == Fine(UNUSED.(query := Live)) && (ok <==> Well(lang, s.log))
    ensures ok ==> Seen(s.log) == old(Seen(s.log)).(bound := old(Seen(s.log)).bound + parameters)
  {
    hide Well, Seen, After;
    ok := true;
    for i := 0 to parameters
      invariant After(lang, s.log) == Fine(UNUSED.(query := Live)) && ok && Well(lang, s.log)
      invariant Seen(s.log) == old(Seen(s.log)).(bound := old(Seen(s.log)).bound + i)
    {
      ghost var log1 := s.log;
      ok := s.Invoke(Convert);
      Logged(lang, log1, Event(Convert, ok));
      if !ok {
        return;
      }
      ghost var log2 := s.log;
      ok := s.Invoke(Bind);
      Logged(lang, log2, Event(Bind, ok));
      if !ok {
        return;
      }
    }
  }

  /** Read the column names, then every cell of every row; naming or converting may raise midway. */
  method Collect(lang: QueryLang, s: Session, columns: nat) returns (ok: bool)
    requires After(lang, s.log).Fine?
    requires var u := After(lang, s.log).use; u.query.Live? && u.result.Live? && !u.exhausted && !u.cellFailed
    requires Well(lang, s.log)
    modifies s
    ensures After(lang, s.log).Fine? && (ok <==> Well(lang, s.log))
    ensures ok && old(NothingRead(s.log)) ==> AllRead(s.log, old(Seen(s.log)).bound, columns)
    ensures var u := old(After(lang, s.log)).use;
            if ok then After(lang, s.log).use == u.(exhausted := true)
            else exists failed, done :: After(lang, s.log).use == u.(cellFailed := failed, exhausted := done)
  {
    hide Proper, Well, Seen, After;
    ghost var u := After(lang, s.log).use;
    ghost var bound, untouched := Seen(s.log).bound, NothingRead(s.log);
    ok := true;
    assert u == u.(cellFailed := false, exhausted := false);
    ok := CollectNames(lang, s, columns, u);
    if !ok {
      return;
    }
    var more := true;
    ghost var rows := 0;
    assert rows * columns == 0;
    while more
      invariant After(lang, s.log) == Fine(if more then u else u.(exhausted := true)) && ok && Well(lang, s.log)
      invariant untouched ==> Seen(s.log) == Progress(bound, columns, rows * columns, rows)
      decreases more, s.rowsLeft
    {
      ghost var before := s.log;
      more := s.Next();
      Logged(lang, before, Event(NextRow, more));
      RowStep(lang, u, more);
      if more {
        ok := CollectRow(lang, s, columns, u);
        if !ok {
          return;
        }
        OneMoreRow(rows, columns);
        rows := rows + 1;
      }
    }
  }

  lemma OneMoreRow(rows: nat, columns: nat)
    ensures (rows + 1) * columns == rows * columns + columns
  {
  }

  lemma NameStep(lang: QueryLang, u: Use, yes: bool)
    requires u.result.Live? && !u.exhausted
    ensures Proper(lang, u, Event(ColumnName, yes)) == Fine(u)
  {
  }

  lemma ConvertStep(lang: QueryLang, u: Use, yes: bool)
    requires u.query.Live?
    ensures Proper(lang, u, Event(Convert, yes)) == Fine(u)
  {
  }

  lemma RowStep(lang: QueryLang, u: Use, more: bool)
    requires u.result.Live? && !u.exhausted && !u.cellFailed
    ensures Proper(lang, u, Event(NextRow, more)) == Fine(u.(exhausted := !more))
    ensures more ==> u.(exhausted := !more) == u
  {
  }

  /** The column names, each converted. */
  method CollectNames(lang: QueryLang, s: Session, columns: nat, ghost u: Use) returns (ok: bool)
    requires After(lang, s.log) == Fine(u) && u.query.Live? && u.result.Live? && !u.exhausted && !u.cellFailed
    requires Well(lang, s.log)
    modifies s`log
    ensures After(lang, s.log) == Fine(u) && (ok <==> Well(lang, s.log))
    ensures old(NothingRead(s.log)) && ok ==> Seen(s.log) == Progress(old(Seen(s.log)).bound, columns, 0, 0)
  {
    hide Well, Seen, After;
    ok := true;
    ghost var bound, untouched := Seen(s.log).bound, NothingRead(s.log);
    for i := 0 to columns
      invariant After(lang, s.log) == Fine(u) && ok && Well(lang, s.log)
      invariant untouched ==> Seen(s.log) == Progress(bound, i, 0, 0)
    {
      ghost var log1 := s.log;
      var name := s.Invoke(ColumnName);
      Logged(lang, log1, Event(ColumnName, name));
      NameStep(lang, u, name);
      ghost var log2 := s.log;
      ok := s.Invoke(Convert);
      Logged(lang, log2, Event(Convert, ok));
      ConvertStep(lang, u, ok);
      if !ok {
        return;
      }
    }
  }

  method CollectRow(lang: QueryLang, s: Session, columns: nat, ghost u: Use) returns (ok: bool)
    requires After(lang, s.log) == Fine(u) && u.query.Live? && u.result.Live? && !u.exhausted && !u.cellFailed
    requires Well(lang, s.log)
    modifies s`log
    ensures After(lang, s.log).Fine? && (ok <==> Well(lang, s.log))
    ensures if ok then After(lang, s.log).use == u
            else exists failed :: After(lang, s.log).use == u.(cellFailed := failed, exhausted := false)
    ensures ok ==> Seen(s.log) == old(Seen(s.log)).(cells := old(Seen(s.log)).cells + columns)
  {
    hide Well, Seen, After;
    ok := true;
    for i := 0 to columns
      invariant After(lang, s.log) == Fine(u) && ok && Well(lang, s.log)
      invariant Seen(s.log) == old(Seen(s.log)).(cells := old(Seen(s.log)).cells + i)
    {
      ghost var log1 := s.log;
      ok := s.Invoke(GetCell);
      Logged(lang, log1, Event(GetCell, ok));
      if !ok {
        assert After(lang, s.log).use == u.(cellFailed := true, exhausted := false);
        return;
      }
      ghost var log2 := s.log;
      ok := s.Invoke(Convert);
      Logged(lang, log2, Event(Convert, ok));
      if !ok {
        assert After(lang, s.log).use == u.(cellFailed := false, exhausted := false);
        return;
      }
    }
  }

  /** The event makes the query fail. A row or a result that ends does not, nor does a missing column name, nor, in
      Python, a rollback that is refused. */
  predicate Fatal(lang: QueryLang, e: Event) {
    !e.yes &&
    match e.op
    case ColumnName => false
    case NextRow => false
    case AskWrites => false
    case FreeResult => false
    case FreeQuery => false
    case RollbackTxn => lang.TypeScript?
    case _ => true
  }

  /** So many parameters bound, columns named, cells read and rows met. */
  datatype Progress = Progress(bound: nat, named: nat, cells: nat, rows: nat)

  function Saw(p: Progress, e: Event): Progress {
    match e.op
    case Bind => p.(bound := p.bound + 1)
    case ColumnName => p.(named := p.named + 1)
    case GetCell => p.(cells := p.cells + 1)
    case NextRow => p.(rows := p.rows + One(e.yes))
    case _ => p
  }

  function Seen(log: seq<Event>): Progress {
    if log == [] then Progress(0, 0, 0, 0) else Saw(Seen(log[..|log| - 1]), log[|log| - 1])
  }

  /** Every parameter was bound, every column named, and every cell of every row read. */
  predicate AllRead(log: seq<Event>, parameters: nat, columns: nat) {
    Seen(log) == Progress(parameters, columns, Seen(log).rows * columns, Seen(log).rows)
  }

  predicate NothingRead(log: seq<Event>) {
    Seen(log) == Progress(Seen(log).bound, 0, 0, 0)
  }

  /** Every call and every conversion went well. */
  predicate Well(lang: QueryLang, log: seq<Event>) {
    forall i | 0 <= i < |log| :: !Fatal(lang, log[i])
  }

  /** All rows were collected, and a writing query was committed. */
  predicate Completed(log: seq<Event>) {
    Count(log).saidDone == 1 && Count(log).committed == Count(log).saidWrites
  }

  predicate SameOutcome(u: Use, v: Use) {
    u.exhausted == v.exhausted && u.writes == v.writes && u.committed == v.committed
  }

  /** Python: one `try`, whose `finally` releases whatever handle is still set. */
  method QueryPython(s: Session, parameters: nat, columns: nat) returns (ok: bool)
    requires s.log == []
    modifies s
    ensures Disciplined(Python, s.log)
    ensures ok <==> Well(Python, s.log)
    ensures ok ==> Completed(s.log) && AllRead(s.log, parameters, columns)
  {
    hide Well, Seen, After, Count;
    Started(Python);
    var query, txn, result := false, false, false;
    ok := false;
    label Try: {
      query := s.Invoke(Prepare);
      Logged(Python, [], Event(Prepare, query));
      if !query { break Try; }
      var bound := BindAll(Python, s, parameters);
      if !bound { break Try; }

      ghost var log1 := s.log;
      var writes := s.Invoke(AskWrites);
      Logged(Python, log1, Event(AskWrites, writes));
      ghost var log2 := s.log;
      var mode := if writes then BeginWrite else BeginRead;
      txn := s.Invoke(mode);
      Logged(Python, log2, Event(mode, txn));
      if !txn { break Try; }

      ghost var log3 := s.log;
      result := s.Invoke(Execute);
      Logged(Python, log3, Event(Execute, result));
      if !result { break Try; }
      var collected := Collect(Python, s, columns);
      if !collected { break Try; }

      ghost var log4 := s.log;
      var _ := s.Invoke(FreeResult);
      Logged(Python, log4, s.log[|log4|]);
      result := false;
      if writes {
        ghost var log5 := s.log;
        var committed := s.Invoke(CommitTxn);
        Logged(Python, log5, Event(CommitTxn, committed));
        txn := false;
        if !committed { break Try; }
      }
      ok := true;
    }
    Finally(s, query, txn, result);
    RunBalanced(Python, s.log);
  }

  method Finally(s: Session, query: bool, txn: bool, result: bool)
    requires After(Python, s.log).Fine?
    requires var u := After(Python, s.log).use;
             && query == u.query.Live? && txn == u.txn.Live? && result == u.result.Live?
             && (result ==> txn) && (txn ==> query) && (txn ==> u.refused || !u.result.Absent?)
    modifies s
    ensures Disciplined(Python, s.log)
    ensures SameOutcome(old(After(Python, s.log)).use, After(Python, s.log).use)
    ensures Well(Python, s.log) <==> old(Well(Python, s.log))
    ensures Seen(s.log) == old(Seen(s.log))
  {
    hide Well, Seen, After;
    if result {
      ghost var log1 := s.log;
      var yes := s.Invoke(FreeResult);
      Logged(Python, log1, Event(FreeResult, yes));
    }
    if txn {
      ghost var log2 := s.log;
      var yes := s.Invoke(RollbackTxn);
      Logged(Python, log2, Event(RollbackTxn, yes));
    }
    if query {
      ghost var log3 := s.log;
      var yes := s.Invoke(FreeQuery);
      Logged(Python, log3, Event(FreeQuery, yes));
    }
  }

  /** TypeScript: three nested `try`/`finally` blocks with the flags `settled` and `resultReleased`. */
  method QueryTypeScript(s: Session, parameters: nat, columns: nat) returns (ok: bool)
    requires s.log == []
    modifies s
    ensures Disciplined(TypeScript, s.log)
    ensures ok <==> Well(TypeScript, s.log)
    ensures ok ==> Completed(s.log) && AllRead(s.log, parameters, columns)
  {
    hide Well, Seen, After, Count;
    Started(TypeScript);
    var query := s.Invoke(Prepare);
    Logged(TypeScript, [], Event(Prepare, query));
    if !query {
      return false;
    }
    ok := BindAll(TypeScript, s, parameters);
    if ok {
      ghost var log1 := s.log;
      var writes := s.Invoke(AskWrites);
      Logged(TypeScript, log1, Event(AskWrites, writes));
      ghost var log2 := s.log;
      var mode := if writes then BeginWrite else BeginRead;
      ok := s.Invoke(mode);
      Logged(TypeScript, log2, Event(mode, ok));
      if ok {
        ok := InTransaction(s, columns, writes);
      }
    }
    ghost var log3 := s.log;
    var yes := s.Invoke(FreeQuery);
    Logged(TypeScript, log3, Event(FreeQuery, yes));
    RunBalanced(TypeScript, s.log);
  }

  method InTransaction(s: Session, columns: nat, writes: bool) returns (ok: bool)
    requires After(TypeScript, s.log) == Fine(UNUSED.(query := Live, asked := true, writes := writes, txn := Live))
    requires Well(TypeScript, s.log)
    modifies s
    ensures After(TypeScript, s.log).Fine? && (ok <==> Well(TypeScript, s.log))
    ensures ok && old(NothingRead(s.log)) ==> AllRead(s.log, old(Seen(s.log)).bound, columns)
    ensures var u := After(TypeScript, s.log).use;
            && u.query.Live? && u.txn.Gone? && !u.result.Live?
            && (ok ==> u.exhausted && u.committed == u.writes)
  {
    hide Well, Seen, After;
    var settled := false;
    ghost var log1 := s.log;
    ok := s.Invoke(Execute);
    Logged(TypeScript, log1, Event(Execute, ok));
    if ok {
      ok, settled := WithResult(s, columns, writes);
    }
    if !settled {
      ghost var log2 := s.log;
      var undone := s.Invoke(RollbackTxn);
      Logged(TypeScript, log2, Event(RollbackTxn, undone));
      ok := ok && undone;
    }
  }

  method WithResult(s: Session, columns: nat, writes: bool) returns (ok: bool, settled: bool)
    requires After(TypeScript, s.log)
          == Fine(UNUSED.(query := Live, asked := true, writes := writes, txn := Live, result := Live))
    requires Well(TypeScript, s.log)
    modifies s
    ensures After(TypeScript, s.log).Fine? && (ok <==> Well(TypeScript, s.log))
    ensures ok && old(NothingRead(s.log)) ==> AllRead(s.log, old(Seen(s.log)).bound, columns)
    ensures var u := After(TypeScript, s.log).use;
            && u.query.Live? && u.result.Gone? && u.writes == writes
            && (settled <==> u.txn.Gone?) && (!settled ==> u.txn.Live?) && (settled ==> u.committed)
            && (ok ==> u.exhausted && (writes <==> settled) && u.committed == settled)
  {
    hide Well, Seen, After;
    var resultReleased := false;
    settled := false;
    ok := Collect(TypeScript, s, columns);
    if ok {
      ghost var log1 := s.log;
      var yes := s.Invoke(FreeResult);
      Logged(TypeScript, log1, Event(FreeResult, yes));
      resultReleased := true;
      if writes {
        ghost var log2 := s.log;
        ok := s.Invoke(CommitTxn);
        Logged(TypeScript, log2, Event(CommitTxn, ok));
        settled := ok;
      }
    }
    if !resultReleased {
      ghost var log3 := s.log;
      var yes := s.Invoke(FreeResult);
      Logged(TypeScript, log3, Event(FreeResult, yes));
    }
  }
}
