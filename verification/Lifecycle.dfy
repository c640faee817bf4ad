/** Whole runs of the three bindings' database and transaction wrappers over the engine
    (bindings/go/tx.go, db.go; bindings/python .../transaction.py, database.py;
    bindings/typescript/src/transaction.ts, database.ts). */
module Lifecycle {
  import opened Languages
  import opened Engine

  datatype Phase = Active | Committed | RolledBack

  /** A transaction wrapper: the native handle it holds (0 for none) and its flags. In Go both endings
      clear one `active` flag; `Committed` and `RolledBack` then only say which call cleared it. */
  datatype Wrapper = Wrapper(handle: nat, phase: Phase)

  // ------------------------------------------------------------------ what a wrapper does

  /** `commit`: the handle passed to the engine, if the wrapper gets that far. */
  predicate CommitCalls(w: Wrapper) {
    w.phase.Active? && w.handle != 0
  }

  function AfterCommit(w: Wrapper, a: Answer): Wrapper {
    if CommitCalls(w) && a.Ok? then Wrapper(0, Committed) else w
  }

  predicate RollbackCalls(w: Wrapper) {
    w.phase.Active? && w.handle != 0
  }

  /** `rollback`: Python lets go of the handle whatever the engine answers; Go and TypeScript keep it
      until the engine agrees. A Python wrapper that was never begun is marked rolled back. */
  function AfterRollback(lang: Lang, w: Wrapper, a: Answer): Wrapper {
    if RollbackCalls(w) then
      if a.Ok? || lang.Python? then Wrapper(0, RolledBack) else w
    else if lang.Python? && w.phase.Active? then w.(phase := RolledBack)
    else w
  }

  /** `close`: OK and IO both consume the handle. */
  predicate CloseConsumes(a: Answer) {
    a.Ok? || a.IoError?
  }

  // ------------------------------------------------------------------ client runs

  /** What a client may ask for; `i` names a wrapper by the order it was begun in. */
  datatype Request =
    | DoBegin(mode: Mode)
    | DoCommit(i: nat)
    | DoRollback(i: nat)
    | DoUse(i: nat)            // any read or write through a transaction
    | DoQuery(i: nat)          // a query in a transaction: prepared on the database, executed on the transaction
    | DoDbQuery(writes: bool, work: Work)  // `Database.query`, which begins and resolves a transaction of its own
    | DoDbUse
    | DoClose

  /** What happens around the native calls of a query: its parameters cannot be bound, all rows are read, a row is
      lost to a failure, or, in Go, a conversion panics, before or after the query is executed. */
  datatype Work = NotBound | AllRead | RowsLost | Panicked(executed: bool)

  /** The database wrapper and every transaction wrapper it has begun, over the engine. */
  datatype World = World(e: State, held: bool, readOnly: bool, ws: seq<Wrapper>)

  /** A request, and what the engine answers to the calls it makes. */
  datatype Event = Event(req: Request, answers: seq<Answer>)

  function Nth(answers: seq<Answer>, k: nat): Answer {
    if k < |answers| then answers[k] else Refused(false)
  }

  /** The native calls a request makes, with their answers. */
  function Calls(lang: Lang, s: World, ev: Event): seq<Made> {
    var a := Nth(ev.answers, 0);
    match ev.req
    case DoBegin(mode) => if s.held && !(s.readOnly && mode.ReadWrite?) then [Made(Begin(mode), a)] else []
    case DoCommit(i) => if i < |s.ws| && CommitCalls(s.ws[i]) then [Made(Commit(s.ws[i].handle), a)] else []
    case DoRollback(i) => if i < |s.ws| && RollbackCalls(s.ws[i]) then [Made(Rollback(s.ws[i].handle), a)] else []
    case DoUse(i) => if i < |s.ws| && CanUse(lang, s.ws[i]) then [Made(UseTxn(s.ws[i].handle), a)] else []
    case DoQuery(i) =>
      // Python checks the database wrapper first, and Go prepares through the bridge's own handle, which is null once
      // the database is closed; TypeScript goes straight to the handle it kept.
      if i < |s.ws| && CanUse(lang, s.ws[i]) && (lang.TypeScript? || s.held) then
        [Made(UseDb, a)] + if a.Ok? then [Made(UseTxn(s.ws[i].handle), Nth(ev.answers, 1))] else []
      else []
    case DoDbQuery(writes, work) => if s.held then QueryCalls(lang, s.readOnly, writes, work, ev.answers) else []
    case DoDbUse => if s.held then [Made(UseDb, a)] else []
    case DoClose => if s.held then [Made(Close, a)] else []
  }

  /** `ensureActive` in Go and TypeScript; Python only looks at the handle. */
  predicate CanUse(lang: Lang, w: Wrapper) {
    w.handle != 0 && (lang.Python? || w.phase.Active?)
  }

  /** The calls of `Database.query`: prepare, begin, execute, resolve. In Go the first prepare only tells whether the
      query writes, one that fails means that it does not, a read-only database is not asked at all, and parameters
      are bound inside the transaction. */
  function QueryCalls(lang: Lang, readOnly: bool, writes: bool, work: Work, answers: seq<Answer>): seq<Made> {
    var prepare, asks := Nth(answers, 0), !(lang.Go? && readOnly);
    var mode := if writes && asks && prepare.Ok? then ReadWrite else ReadOnly;
    var rest :=
      if !lang.Go? && (!prepare.Ok? || work.NotBound?) then []
      else QueryTxn(lang, mode, work, Nth(answers, 1), Nth(answers, 2), Nth(answers, 3), Nth(answers, 4));
    if asks then [Made(UseDb, prepare)] + rest else rest
  }

  function QueryTxn(lang: Lang, mode: Mode, work: Work, begin: Answer, execute: Answer, a: Answer, b: Answer)
    : seq<Made>
  {
    if !begin.OkTxn? then [Made(Begin(mode), begin)]
    else [Made(Begin(mode), begin)] + InTxn(lang, mode, work, begin.handle, execute, a, b)
  }

  predicate Panics(lang: Lang, work: Work) {
    lang.Go? && work.Panicked?
  }

  function InTxn(lang: Lang, mode: Mode, work: Work, h: nat, execute: Answer, a: Answer, b: Answer): seq<Made> {
    var ending :=
      if Panics(lang, work) then [] else Ending(lang, h, mode.ReadWrite? && execute.Ok? && work.AllRead?, a, b);
    if lang.Go? && (work.NotBound? || work == Panicked(false)) then ending
    else [Made(UseTxn(h), execute)] + ending
  }

  /** How the query's transaction is resolved: TypeScript alone rolls back after a refused commit. */
  function Ending(lang: Lang, h: nat, commits: bool, a: Answer, b: Answer): seq<Made> {
    if !commits then [Made(Rollback(h), a)]
    else [Made(Commit(h), a)] + if lang.TypeScript? && !a.Ok? then [Made(Rollback(h), b)] else []
  }

  function Step(lang: Lang, s: World, ev: Event): World {
    var ms, a := Calls(lang, s, ev), Nth(ev.answers, 0);
    var e := Play(s.e, ms);
    match ev.req
    case DoBegin(_) => if ms != [] && a.OkTxn? then s.(e := e, ws := s.ws + [Wrapper(a.handle, Active)]) else s.(e := e)
    case DoCommit(i) => if i < |s.ws| then s.(e := e, ws := s.ws[i := AfterCommit(s.ws[i], a)]) else s
    case DoRollback(i) => if i < |s.ws| then s.(e := e, ws := s.ws[i := AfterRollback(lang, s.ws[i], a)]) else s
    case DoClose => s.(e := e, held := s.held && !CloseConsumes(a))
    case _ => s.(e := e)
  }

  /** Every answer of the run is one the engine may give at that point. */
  predicate Lawful(lang: Lang, s: World, run: seq<Event>)
    decreases |run|
  {
    run != [] ==> LawfulPlay(s.e, Calls(lang, s, run[0])) && Lawful(lang, Step(lang, s, run[0]), run[1..])
  }

  /** No native call of the run passes a handle that has been consumed. */
  predicate Safe(lang: Lang, s: World, run: seq<Event>)
    decreases |run|
  {
    run != [] ==> SafePlay(s.e, Calls(lang, s, run[0])) && Safe(lang, Step(lang, s, run[0]), run[1..])
  }

  function Final(lang: Lang, s: World, run: seq<Event>): World
    decreases |run|
  {
    if run == [] then s else Final(lang, Step(lang, s, run[0]), run[1..])
  }

  function Start(readOnly: bool): World {
    World(OPENED, true, readOnly, [])
  }

  // ------------------------------------------------------------------ which calls are made

  /** A transaction still active reaches the engine with its handle; one that has ended, or a closed database, reaches
      nothing, except that Python looks at the handle alone; and a read-only database begins no writer. */
  lemma WhoReachesTheEngine(lang: Lang, s: World, i: nat, w: Wrapper, answers: seq<Answer>)
    requires i < |s.ws| && w == s.ws[i]
    ensures var (commit, rollback) := (Calls(lang, s, Event(DoCommit(i), answers)),
                                       Calls(lang, s, Event(DoRollback(i), answers)));
            if w.handle != 0 && w.phase == Active
            then commit == [Made(Commit(w.handle), Nth(answers, 0))]
              && rollback == [Made(Rollback(w.handle), Nth(answers, 0))]
            else commit == rollback == []
    ensures Calls(lang, s, Event(DoUse(i), answers)) ==
            if w.handle != 0 && (w.phase == Active || lang == Python)
            then [Made(UseTxn(w.handle), Nth(answers, 0))] else []
    ensures w.handle == 0 || (w.phase != Active && lang != Python) ==> Calls(lang, s, Event(DoQuery(i), answers)) == []
    ensures !s.held ==>
        && (lang != TypeScript ==> Calls(lang, s, Event(DoQuery(i), answers)) == [])
        && forall req: Request | req.DoBegin? || req.DoDbQuery? || req.DoDbUse? || req.DoClose? ::
             Calls(lang, s, Event(req, answers)) == []
    ensures s.held ==> Calls(lang, s, Event(DoBegin(ReadOnly), answers)) == [Made(Begin(ReadOnly), Nth(answers, 0))]
    ensures s.held && !s.readOnly ==>
        Calls(lang, s, Event(DoBegin(ReadWrite), answers)) == [Made(Begin(ReadWrite), Nth(answers, 0))]
    ensures s.readOnly ==> Calls(lang, s, Event(DoBegin(ReadWrite), answers)) == []
  {
  }

  /** Whether some call commits. */
  ghost predicate Commits(ms: seq<Made>) {
    exists m | m in ms :: m.call.Commit?
  }

  /** No transaction is ended but this one, and every begin is in this mode. */
  ghost predicate Only(ms: seq<Made>, mode: Mode, begin: Answer) {
    forall m | m in ms ::
      && (m.call.Begin? ==> m.call.mode == mode)
      && (m.call.Commit? ==> begin.OkTxn? && m.call == Commit(begin.handle))
      && (m.call.Rollback? ==> begin.OkTxn? && m.call == Rollback(begin.handle))
  }

  lemma CallFirst(m: Made, rest: seq<Made>, mode: Mode, begin: Answer)
    ensures Commits([m] + rest) <==> m.call.Commit? || Commits(rest)
    ensures Only([m] + rest, mode, begin) <==> Only([m], mode, begin) && Only(rest, mode, begin)
  {
    assert forall n :: n in [m] + rest <==> n == m || n in rest;
  }

  lemma EndingCommits(lang: Lang, mode: Mode, begin: Answer, commits: bool, a: Answer, b: Answer)
    requires begin.OkTxn?
    ensures Commits(Ending(lang, begin.handle, commits, a, b)) <==> commits
    ensures Only(Ending(lang, begin.handle, commits, a, b), mode, begin)
  {
    var ms := Ending(lang, begin.handle, commits, a, b);
    if commits { assert Made(Commit(begin.handle), a) in ms; }
  }

  lemma InTxnCommits(lang: Lang, mode: Mode, work: Work, begin: Answer, execute: Answer, a: Answer, b: Answer)
    requires begin.OkTxn?
    ensures var ms := InTxn(lang, mode, work, begin.handle, execute, a, b);
            (Commits(ms) <==> mode == ReadWrite && work == AllRead && execute == Ok) && Only(ms, mode, begin)
  {
    hide Commits, Only, Ending;
    var use, commits := Made(UseTxn(begin.handle), execute), mode.ReadWrite? && execute.Ok? && work.AllRead?;
    var ending := if Panics(lang, work) then [] else Ending(lang, begin.handle, commits, a, b);
    EndingCommits(lang, mode, begin, commits, a, b);
    NoCalls(use, mode, begin);
    CallFirst(use, ending, mode, begin);
  }

  lemma TxnCommits(lang: Lang, mode: Mode, work: Work, begin: Answer, execute: Answer, a: Answer, b: Answer)
    ensures var ms := QueryTxn(lang, mode, work, begin, execute, a, b);
            && (Commits(ms) <==> mode == ReadWrite && work == AllRead && begin.OkTxn? && execute == Ok)
            && Only(ms, mode, begin)
  {
    hide Commits, Only, InTxn;
    var first := Made(Begin(mode), begin);
    NoCalls(first, mode, begin);
    if begin.OkTxn? {
      InTxnCommits(lang, mode, work, begin, execute, a, b);
      CallFirst(first, InTxn(lang, mode, work, begin.handle, execute, a, b), mode, begin);
    } else {
      CallFirst(first, [], mode, begin);
      assert [first] + [] == [first];
    }
  }

  lemma NoCalls(m: Made, mode: Mode, begin: Answer)
    ensures !Commits([]) && Only([], mode, begin)
    ensures m.call == Begin(mode) || m.call.UseTxn? || m.call.UseDb? ==> Only([m], mode, begin)
  {
  }

  /** `Database.query` commits exactly when the engine called the query a writing one, every call before went through
      and every row was read; it begins a writer exactly when it was called a writing one; and it ends no transaction
      but the one it began. */
  lemma QueryCommitsExactly(lang: Lang, readOnly: bool, writes: bool, work: Work, answers: seq<Answer>)
    ensures var ms := QueryCalls(lang, readOnly, writes, work, answers);
            var writing := writes && Nth(answers, 0) == Ok && !(lang == Go && readOnly);
            && (Commits(ms) <==> writing && work == AllRead && Nth(answers, 1).OkTxn? && Nth(answers, 2) == Ok)
            && Only(ms, if writing then ReadWrite else ReadOnly, Nth(answers, 1))
  {
    hide Commits, Only, QueryTxn;
    var prepare := Made(UseDb, Nth(answers, 0));
    var mode := if writes && Nth(answers, 0) == Ok && !(lang == Go && readOnly) then ReadWrite else ReadOnly;
    var rest := QueryTxn(lang, mode, work, Nth(answers, 1), Nth(answers, 2), Nth(answers, 3), Nth(answers, 4));
    TxnCommits(lang, mode, work, Nth(answers, 1), Nth(answers, 2), Nth(answers, 3), Nth(answers, 4));
    NoCalls(prepare, mode, Nth(answers, 1));
    CallFirst(prepare, rest, mode, Nth(answers, 1));
    CallFirst(prepare, [], mode, Nth(answers, 1));
  }

  /** A writing query, a reading one, one that fails, and one whose commit is refused, call by call. */
  lemma QueryCallsExamples(lang: Lang, h: nat)
    ensures QueryCalls(lang, false, true, AllRead, [Ok, OkTxn(h), Ok, Ok])
         == [Made(UseDb, Ok), Made(Begin(ReadWrite), OkTxn(h)), Made(UseTxn(h), Ok), Made(Commit(h), Ok)]
    ensures QueryCalls(lang, false, false, AllRead, [Ok, OkTxn(h), Ok, Ok])
         == [Made(UseDb, Ok), Made(Begin(ReadOnly), OkTxn(h)), Made(UseTxn(h), Ok), Made(Rollback(h), Ok)]
    ensures QueryCalls(lang, false, true, AllRead, [Ok, OkTxn(h), IoError, Ok])
         == [Made(UseDb, Ok), Made(Begin(ReadWrite), OkTxn(h)), Made(UseTxn(h), IoError), Made(Rollback(h), Ok)]
    ensures lang != Go ==> QueryCalls(lang, false, true, AllRead, [IoError]) == [Made(UseDb, IoError)]
    ensures lang != Go ==> QueryCalls(lang, false, true, NotBound, [Ok]) == [Made(UseDb, Ok)]
    ensures QueryCalls(Go, true, true, AllRead, [Ok, OkTxn(h), Ok, Ok])
         == [Made(Begin(ReadOnly), OkTxn(h)), Made(UseTxn(h), Ok), Made(Rollback(h), Ok)]
    ensures QueryCalls(Go, false, true, Panicked(true), [Ok, OkTxn(h), Ok])
         == [Made(UseDb, Ok), Made(Begin(ReadWrite), OkTxn(h)), Made(UseTxn(h), Ok)]
  {
  }

  // ------------------------------------------------------------------ what the client can see

  /** A wrapper is spent once the engine has refused it a commit or rollback and consumed the handle. */
  function Spend(lang: Lang, s: World, ev: Event, spent: set<nat>): set<nat> {
    if (ev.req.DoCommit? || ev.req.DoRollback?) && Calls(lang, s, ev) != [] && Nth(ev.answers, 0) == Refused(true)
    then spent + {ev.req.i}
    else spent
  }

  function Spent(lang: Lang, s: World, run: seq<Event>, spent: set<nat>): set<nat>
    decreases |run|
  {
    if run == [] then spent else Spent(lang, Step(lang, s, run[0]), run[1..], Spend(lang, s, run[0], spent))
  }

  predicate Passes(ms: seq<Made>, h: nat) {
    exists m | m in ms :: m.call == Commit(h) || m.call == Rollback(h) || m.call == UseTxn(h)
  }

  /** The request passes on the handle of a spent wrapper, or reaches through it for the database after
      that was closed; or `Database.query` rolls back after a refused commit that consumed its handle. */
  predicate UsesSpent(lang: Lang, s: World, ev: Event, spent: set<nat>) {
    var ms := Calls(lang, s, ev);
    match ev.req
    case DoDbQuery(_, _) => RollsBackConsumed(ms)
    case DoBegin(_) => false
    case DoDbUse => false
    case DoClose => false
    case _ =>
      ev.req.i in spent && ev.req.i < |s.ws| && ms != [] && (Passes(ms, s.ws[ev.req.i].handle) || !s.held)
  }

  /** Nothing is used again after a refusal that consumed its handle. */
  predicate Abstains(lang: Lang, s: World, run: seq<Event>, spent: set<nat>)
    decreases |run|
  {
    run != [] ==>
      && !UsesSpent(lang, s, run[0], spent)
      && Abstains(lang, Step(lang, s, run[0]), run[1..], Spend(lang, s, run[0], spent))
  }

  /** The request gives up a handle whose transaction the engine still has: a Python rollback, or the end of
      a `Database.query`, that was refused without consuming the handle, or a query that panics. */
  predicate Drops(lang: Lang, s: World, ev: Event, spent: set<nat>) {
    var ms := Calls(lang, s, ev);
    match ev.req
    case DoRollback(i) => lang.Python? && ms != [] && i !in spent && Nth(ev.answers, 0) == Refused(false)
    case DoDbQuery(_, _) => GaveUp(ms)
    case _ => false
  }

  /** A query began a transaction, and no call to resolve it was granted or consumed the handle. */
  predicate GaveUp(ms: seq<Made>) {
    (exists m | m in ms :: m.call.Begin? && m.answer.OkTxn?) && Kept(ms)
  }

  predicate DropsNothing(lang: Lang, s: World, run: seq<Event>, spent: set<nat>)
    decreases |run|
  {
    run != [] ==>
      && !Drops(lang, s, run[0], spent)
      && DropsNothing(lang, Step(lang, s, run[0]), run[1..], Spend(lang, s, run[0], spent))
  }

  // ------------------------------------------------------------------ the invariant

  predicate Holds(s: World, h: nat) {
    exists i | 0 <= i < |s.ws| :: s.ws[i].handle == h
  }

  /** A wrapper that holds a handle has a live transaction, unless it is spent: then the engine has the
      handle among those it has consumed. */
  ghost predicate WrapperInv(s: World, i: nat, spent: set<nat>)
    requires i < |s.ws|
  {
    s.ws[i].handle != 0 ==>
      && s.ws[i].phase.Active?
      && if i in spent then s.ws[i].handle in s.e.retired + s.e.freed else s.ws[i].handle in s.e.txns
  }

  ghost predicate Inv(s: World, spent: set<nat>) {
    && Consistent(s.e)
    && (s.held <==> s.e.open)
    && (forall i | 0 <= i < |s.ws| :: WrapperInv(s, i, spent))
    && (forall i, j | 0 <= i < j < |s.ws| && s.ws[i].handle != 0 :: s.ws[i].handle != s.ws[j].handle)
    && (forall i | i in spent :: i < |s.ws|)
  }

  /** Live transactions that no wrapper holds. */
  ghost function Orphans(s: World): set<nat> {
    set h | h in s.e.txns && !Holds(s, h)
  }

  // ------------------------------------------------------------------ one query

  /** Resolving a live transaction: it stays live exactly when every answer was a refusal that kept it. */
  lemma EndingPlays(lang: Lang, e: State, h: nat, commits: bool, a: Answer, b: Answer)
    requires Consistent(e) && h in e.txns && LawfulPlay(e, Ending(lang, h, commits, a, b))
    ensures var ms, f := Ending(lang, h, commits, a, b), Play(e, Ending(lang, h, commits, a, b));
            && (f.txns == if Kept(ms) then e.txns else e.txns - {h})
            && f.open == e.open && f.freed == e.freed
            && (f.retired == if Kept(ms) then e.retired else e.retired + {h})
            && (SafePlay(e, ms) <==> !RollsBackConsumed(ms))
            && (AsBuiltPlay(e, ms) && Kept(ms) ==> !lang.TypeScript? && exists m | m in ms :: m.call.Commit?)
  {
    var commit, rollback := Made(Commit(h), a), Made(Rollback(h), b);
    if !commits {
      PlayOne(e, Made(Rollback(h), a));
    } else if lang.TypeScript? && !a.Ok? {
      PlayTwo(e, commit, rollback);
    } else {
      assert Ending(lang, h, commits, a, b) == [commit];
      assert commit in [commit];
      PlayOne(e, commit);
    }
  }

  predicate Kept(ms: seq<Made>) {
    forall m | m in ms && (m.call.Commit? || m.call.Rollback?) :: m.answer == Refused(false)
  }

  predicate RollsBackConsumed(ms: seq<Made>) {
    exists k | 0 <= k < |ms| - 1 :: ms[k].call.Commit? && ms[k].answer == Refused(true)
  }

  lemma FirstElsewhere(m: Made, rest: seq<Made>)
    requires !m.call.Commit? && !m.call.Rollback?
    ensures Kept([m] + rest) <==> Kept(rest)
    ensures RollsBackConsumed([m] + rest) <==> RollsBackConsumed(rest)
    ensures GaveUp([m] + rest) <==> Kept(rest) && ((m.call.Begin? && m.answer.OkTxn?) || GaveUp(rest))
  {
    var ms := [m] + rest;
    assert forall n :: n in ms <==> n == m || n in rest;
    if RollsBackConsumed(rest) {
      var k :| 0 <= k < |rest| - 1 && rest[k].call.Commit? && rest[k].answer == Refused(true);
      assert ms[k + 1] == rest[k];
    }
    if RollsBackConsumed(ms) {
      var k :| 0 <= k < |ms| - 1 && ms[k].call.Commit? && ms[k].answer == Refused(true);
      assert k > 0 && rest[k - 1] == ms[k];
    }
  }

  /** `Database.query` leaves the engine's live transactions as they were, except for its own when it gave
      that up; it passes a consumed handle only in rolling back after a refused commit. */
  ghost predicate QueryEffect(lang: Lang, work: Work, e: State, ms: seq<Made>) {
    var f := Play(e, ms);
    && f.open == e.open && f.freed == e.freed
    && (forall h | h in e.retired :: h in f.retired)
    && (SafePlay(e, ms) <==> !RollsBackConsumed(ms))
    && (!GaveUp(ms) ==> f.txns == e.txns)
    && (GaveUp(ms) ==> exists m | m in ms && m.answer.OkTxn? :: OneMore(e, f, m.answer.handle))
    && (AsBuiltPlay(e, ms) && GaveUp(ms) ==>
          Panics(lang, work) || (!lang.TypeScript? && exists m | m in ms :: m.call.Commit?))
  }

  ghost predicate OneMore(e: State, f: State, h: nat) {
    h != 0 && h !in e.txns && h !in e.retired && f.txns.Keys == e.txns.Keys + {h}
    && forall g | g in e.txns :: f.txns[g] == e.txns[g]
  }

  /** Inside the transaction. */
  lemma InTxnPlays(lang: Lang, e: State, mode: Mode, work: Work, h: nat, execute: Answer, a: Answer, b: Answer)
    requires Consistent(e) && h in e.txns && LawfulPlay(e, InTxn(lang, mode, work, h, execute, a, b))
    ensures var ms := InTxn(lang, mode, work, h, execute, a, b);
            var f := Play(e, ms);
            && (f.txns == if Kept(ms) then e.txns else e.txns - {h})
            && f.open == e.open && f.freed == e.freed
            && (f.retired == if Kept(ms) then e.retired else e.retired + {h})
            && (SafePlay(e, ms) <==> !RollsBackConsumed(ms))
            && (AsBuiltPlay(e, ms) && Kept(ms) ==>
                  Panics(lang, work) || (!lang.TypeScript? && exists m | m in ms :: m.call.Commit?))
  {
    hide Consistent, Play, SafePlay, AsBuiltPlay, LawfulPlay, Ending, Kept, RollsBackConsumed;
    var use := Made(UseTxn(h), execute);
    var commits := mode.ReadWrite? && execute.Ok? && work.AllRead?;
    var ending := if Panics(lang, work) then [] else Ending(lang, h, commits, a, b);
    PlayFirst(e, use, ending);
    FirstElsewhere(use, ending);
    assert forall m | m in ending :: m in [use] + ending;
    if Panics(lang, work) {
      NothingEnds(e);
    } else {
      EndingPlays(lang, e, h, commits, a, b);
    }
  }

  lemma NothingEnds(e: State)
    ensures Play(e, []) == e && SafePlay(e, []) && Kept([]) && !RollsBackConsumed([])
  {
  }

  lemma QueryTxnPlays(lang: Lang, e: State, mode: Mode, work: Work, begin: Answer, execute: Answer, a: Answer,
                      b: Answer)
    requires Consistent(e) && e.open && LawfulPlay(e, QueryTxn(lang, mode, work, begin, execute, a, b))
    ensures QueryEffect(lang, work, e, QueryTxn(lang, mode, work, begin, execute, a, b))
  {
    hide Consistent, LawfulPlay, SafePlay, Play, AsBuiltPlay, InTxn, Kept, RollsBackConsumed, GaveUp;
    var first := Made(Begin(mode), begin);
    if begin.OkTxn? {
      var inside := InTxn(lang, mode, work, begin.handle, execute, a, b);
      var f := Next(e, first.call, begin);
      PlayFirst(e, first, inside);
      NextConsistent(e, first.call, begin);
      InTxnPlays(lang, f, mode, work, begin.handle, execute, a, b);
      FirstElsewhere(first, inside);
      OwnTxnOnly(lang, work, e, f, first, inside, mode);
    } else {
      FirstElsewhere(first, []);
      assert [first] + [] == [first];
      PlayOne(e, first);
      NothingKept();
    }
  }

  lemma NothingKept()
    ensures !GaveUp([]) && !RollsBackConsumed([])
  {
  }

  lemma OwnTxnOnly(lang: Lang, work: Work, e: State, f: State, first: Made, inside: seq<Made>, mode: Mode)
    requires first.call == Begin(mode) && first.answer.OkTxn? && Allowed(e, first.call, first.answer)
    requires f == Next(e, first.call, first.answer)
    requires var ms, h := [first] + inside, first.answer.handle;
             var g := Play(e, ms);
             && g == Play(f, inside) && e.open
             && g.txns == (if Kept(inside) then f.txns else f.txns - {h})
             && g.retired == (if Kept(inside) then f.retired else f.retired + {h})
             && g.open == f.open && g.freed == f.freed
             && (SafePlay(e, ms) <==> !RollsBackConsumed(inside))
             && (RollsBackConsumed(ms) <==> RollsBackConsumed(inside))
             && (GaveUp(ms) <==> Kept(inside))
             && (AsBuiltPlay(e, ms) && Kept(inside) ==>
                   Panics(lang, work) || (!lang.TypeScript? && exists m | m in inside :: m.call.Commit?))
    ensures QueryEffect(lang, work, e, [first] + inside)
  {
    hide LawfulPlay, SafePlay, Play, AsBuiltPlay, Kept, RollsBackConsumed, GaveUp;
    var ms, h := [first] + inside, first.answer.handle;
    var g := Play(e, ms);
    assert ms[0] == first && first in ms && forall m | m in inside :: m in ms;
    if Kept(inside) {
      assert OneMore(e, g, h);
      if m :| m in inside && m.call.Commit? {
        assert m in ms;
      }
    } else {
      assert f.txns - {h} == e.txns;
    }
  }

  lemma QueryPlays(lang: Lang, e: State, readOnly: bool, writes: bool, work: Work, answers: seq<Answer>)
    requires Consistent(e) && e.open && LawfulPlay(e, QueryCalls(lang, readOnly, writes, work, answers))
    ensures QueryEffect(lang, work, e, QueryCalls(lang, readOnly, writes, work, answers))
  {
    hide Consistent, LawfulPlay, SafePlay, Play, AsBuiltPlay, QueryTxn, Kept, RollsBackConsumed, GaveUp;
    var prepare, asks := Nth(answers, 0), !(lang.Go? && readOnly);
    var mode := if writes && asks && prepare.Ok? then ReadWrite else ReadOnly;
    var rest :=
      if !lang.Go? && (!prepare.Ok? || work.NotBound?) then []
      else QueryTxn(lang, mode, work, Nth(answers, 1), Nth(answers, 2), Nth(answers, 3), Nth(answers, 4));
    PlayFirst(e, Made(UseDb, prepare), rest);
    if !lang.Go? && (!prepare.Ok? || work.NotBound?) {
      NothingEnds(e);
      NothingKept();
    } else {
      QueryTxnPlays(lang, e, mode, work, Nth(answers, 1), Nth(answers, 2), Nth(answers, 3), Nth(answers, 4));
    }
    if asks {
      PrepareFirst(lang, work, e, prepare, rest);
    }
  }

  lemma PrepareFirst(lang: Lang, work: Work, e: State, prepare: Answer, rest: seq<Made>)
    requires QueryEffect(lang, work, e, rest) && e.open
    ensures QueryEffect(lang, work, e, [Made(UseDb, prepare)] + rest)
  {
    hide LawfulPlay, SafePlay, Play, AsBuiltPlay, Kept, RollsBackConsumed;
    var ms := [Made(UseDb, prepare)] + rest;
    PlayFirst(e, Made(UseDb, prepare), rest);
    FirstElsewhere(Made(UseDb, prepare), rest);
    if GaveUp(ms) {
      var m :| m in rest && m.answer.OkTxn? && OneMore(e, Play(e, rest), m.answer.handle);
      assert m in ms && OneMore(e, Play(e, ms), m.answer.handle);
    }
    assert forall m | m in rest :: m in ms;
  }

  // ------------------------------------------------------------------ one step

  /** A wrapper that is not spent and holds a handle has a live transaction on a live database. */
  lemma HeldIsLive(s: World, i: nat, spent: set<nat>)
    requires Inv(s, spent) && i < |s.ws| && s.ws[i].handle != 0
    ensures i !in spent ==> s.ws[i].handle in s.e.txns && s.e.open && s.held
    ensures i in spent ==> s.ws[i].handle !in s.e.txns
  {
    assert WrapperInv(s, i, spent);
  }

  /** What a step on wrapper `i` alone may do. */
  ghost predicate OnlyAt(s: World, t: World, i: nat) {
    && i < |s.ws| == |t.ws| && t.ws == s.ws[i := t.ws[i]]
    && (t.ws[i].handle == s.ws[i].handle || t.ws[i].handle == 0)
    && t.held == s.held && t.e.open == s.e.open && t.e.freed == s.e.freed
    && (forall g | g != s.ws[i].handle :: g in t.e.txns <==> g in s.e.txns)
    && (forall g | g in s.e.retired :: g in t.e.retired)
  }

  lemma ReplaceKeepsInv(s: World, t: World, i: nat, spent: set<nat>, spent': set<nat>)
    requires Inv(s, spent) && Consistent(t.e) && |t.ws| == |s.ws| && OnlyAt(s, t, i)
    requires (spent' == spent || spent' == spent + {i}) && WrapperInv(t, i, spent')
    ensures Inv(t, spent')
  {
    assert forall j | 0 <= j < |s.ws| && j != i :: t.ws[j] == s.ws[j];
    forall j | 0 <= j < |t.ws|
      ensures WrapperInv(t, j, spent')
    {
      if j != i {
        assert WrapperInv(s, j, spent);
        assert s.ws[j].handle != 0 ==> s.ws[j].handle != s.ws[i].handle;
      }
    }
    forall j, k | 0 <= j < k < |t.ws| && t.ws[j].handle != 0
      ensures t.ws[j].handle != t.ws[k].handle
    {
      assert s.ws[j].handle != s.ws[k].handle;
    }
  }

  lemma HoldsElsewhere(s: World, t: World, i: nat, g: nat)
    requires |t.ws| == |s.ws| && OnlyAt(s, t, i) && g != s.ws[i].handle && g != 0
    ensures Holds(t, g) <==> Holds(s, g)
  {
    if Holds(s, g) { var j :| 0 <= j < |s.ws| && s.ws[j].handle == g; assert t.ws[j].handle == g; }
    if Holds(t, g) { var j :| 0 <= j < |t.ws| && t.ws[j].handle == g; assert s.ws[j].handle == g; }
  }

  lemma ReplaceOrphans(s: World, t: World, i: nat, spent: set<nat>)
    requires Inv(s, spent) && Consistent(t.e) && |t.ws| == |s.ws| && OnlyAt(s, t, i)
    ensures Orphans(t)
         == Orphans(s) + if t.ws[i].handle == 0 && s.ws[i].handle in t.e.txns then {s.ws[i].handle} else {}
  {
    var h := s.ws[i].handle;
    assert Holds(s, h);
    forall g | g in t.e.txns && g != h
      ensures Holds(t, g) <==> Holds(s, g)
    {
      HoldsElsewhere(s, t, i, g);
    }
    if t.ws[i].handle == h {
      assert Holds(t, h);
    } else {
      forall j | 0 <= j < |t.ws|
        ensures h != 0 ==> t.ws[j].handle != h
      {
        if j < i { assert s.ws[j].handle != 0 ==> s.ws[j].handle != s.ws[i].handle; }
      }
    }
  }

  /** A commit or rollback of wrapper `i`, from which the account follows. */
  ghost predicate ResolveFacts(lang: Lang, s: World, ev: Event, spent: set<nat>, i: nat) {
    var t := Step(lang, s, ev);
    && OnlyAt(s, t, i) && Consistent(t.e) && WrapperInv(t, i, Spend(lang, s, ev, spent))
    && (SafePlay(s.e, Calls(lang, s, ev)) <==> !UsesSpent(lang, s, ev, spent))
    && (Drops(lang, s, ev, spent) <==> t.ws[i].handle == 0 && s.ws[i].handle in t.e.txns)
  }

  lemma CommitFacts(lang: Lang, s: World, ev: Event, spent: set<nat>)
    requires Inv(s, spent) && LawfulPlay(s.e, Calls(lang, s, ev)) && ev.req.DoCommit? && ev.req.i < |s.ws|
    ensures ResolveFacts(lang, s, ev, spent, ev.req.i)
  {
    var i, ms := ev.req.i, Calls(lang, s, ev);
    assert WrapperInv(s, i, spent);
    if ms != [] {
      PlayOne(s.e, ms[0]);
      NextConsistent(s.e, ms[0].call, ms[0].answer);
      assert ms[0] in ms;
    }
    hide LawfulPlay, Play, SafePlay;
  }

  lemma RollbackFacts(lang: Lang, s: World, ev: Event, spent: set<nat>)
    requires Inv(s, spent) && LawfulPlay(s.e, Calls(lang, s, ev)) && ev.req.DoRollback? && ev.req.i < |s.ws|
    ensures ResolveFacts(lang, s, ev, spent, ev.req.i)
  {
    var i, ms := ev.req.i, Calls(lang, s, ev);
    assert WrapperInv(s, i, spent);
    if ms != [] {
      PlayOne(s.e, ms[0]);
      NextConsistent(s.e, ms[0].call, ms[0].answer);
      assert ms[0] in ms;
    }
    hide LawfulPlay, Play, SafePlay;
  }

  lemma ResolveStep(lang: Lang, s: World, ev: Event, spent: set<nat>)
    requires Inv(s, spent) && LawfulPlay(s.e, Calls(lang, s, ev)) && (ev.req.DoCommit? || ev.req.DoRollback?)
    ensures StepEffect(lang, s, ev, spent)
  {
    var i := ev.req.i;
    if i < |s.ws| {
      if ev.req.DoCommit? { CommitFacts(lang, s, ev, spent); } else { RollbackFacts(lang, s, ev, spent); }
      hide Step, Drops, UsesSpent, SafePlay, LawfulPlay, Consistent;
      ReplaceKeepsInv(s, Step(lang, s, ev), i, spent, Spend(lang, s, ev, spent));
      ReplaceOrphans(s, Step(lang, s, ev), i, spent);
    }
  }

  /** What a step does to the account: the invariant is kept, the calls are safe exactly when nothing spent is
      used, and a transaction becomes an orphan exactly when it is dropped. */
  ghost predicate StepEffect(lang: Lang, s: World, ev: Event, spent: set<nat>) {
    var t := Step(lang, s, ev);
    && Inv(t, Spend(lang, s, ev, spent))
    && (SafePlay(s.e, Calls(lang, s, ev)) <==> !UsesSpent(lang, s, ev, spent))
    && (forall h | h in Orphans(s) :: h in Orphans(t))
    && (Orphans(t) == {} <==> Orphans(s) == {} && !Drops(lang, s, ev, spent))
  }

  /** Wrappers and transactions as they were. */
  lemma SameAccount(s: World, t: World, spent: set<nat>)
    requires Inv(s, spent) && t.ws == s.ws && t.e.txns.Keys == s.e.txns.Keys && Consistent(t.e)
    requires (t.held <==> t.e.open) && forall g | g in s.e.retired + s.e.freed :: g in t.e.retired + t.e.freed
    ensures Inv(t, spent) && Orphans(t) == Orphans(s)
  {
    assert forall h :: Holds(t, h) == Holds(s, h);
    forall j | 0 <= j < |t.ws|
      ensures WrapperInv(t, j, spent)
    {
      assert WrapperInv(s, j, spent);
    }
  }

  lemma BeginStep(lang: Lang, s: World, ev: Event, spent: set<nat>)
    requires Inv(s, spent) && LawfulPlay(s.e, Calls(lang, s, ev)) && ev.req.DoBegin?
    ensures StepEffect(lang, s, ev, spent)
  {
    var ms, t := Calls(lang, s, ev), Step(lang, s, ev);
    if ms != [] {
      PlayOne(s.e, ms[0]);
      NextConsistent(s.e, ms[0].call, ms[0].answer);
    }
    hide LawfulPlay, Play, SafePlay;
    if ms != [] && ms[0].answer.OkTxn? {
      NewWrapper(s, t, ms[0].answer.handle, spent);
    } else {
      SameAccount(s, t, spent);
    }
  }

  lemma NewWrapper(s: World, t: World, h: nat, spent: set<nat>)
    requires Inv(s, spent) && s.e.open && Consistent(t.e) && h != 0 && h !in s.e.txns && h !in s.e.retired
    requires t.e.txns.Keys == s.e.txns.Keys + {h} && t.e.retired == s.e.retired && t.e.open && t.e.freed == s.e.freed
    requires t.held == s.held && t.ws == s.ws + [Wrapper(h, Active)]
    ensures Inv(t, spent) && Orphans(t) == Orphans(s)
  {
    var n := |s.ws|;
    assert t.ws[n].handle == h && forall j | 0 <= j < n :: t.ws[j] == s.ws[j];
    forall j | 0 <= j < |t.ws|
      ensures WrapperInv(t, j, spent) && (j < n ==> t.ws[j].handle != h)
    {
      if j < n { assert WrapperInv(s, j, spent); }
    }
    forall g | g in s.e.txns
      ensures Holds(t, g) <==> Holds(s, g)
    {
      if Holds(s, g) { var j :| 0 <= j < n && s.ws[j].handle == g; assert t.ws[j].handle == g; }
      if Holds(t, g) { var j :| 0 <= j < |t.ws| && t.ws[j].handle == g; assert j < n; }
    }
    assert Holds(t, h);
  }

  lemma UseStep(lang: Lang, s: World, ev: Event, spent: set<nat>)
    requires Inv(s, spent) && LawfulPlay(s.e, Calls(lang, s, ev))
    requires ev.req.DoUse? || ev.req.DoQuery? || ev.req.DoDbUse?
    ensures StepEffect(lang, s, ev, spent)
  {
    var ms := Calls(lang, s, ev);
    UsesAlone(lang, s, ev);
    SameAccount(s, Step(lang, s, ev), spent);
    hide LawfulPlay, Play, SafePlay;
    if !ev.req.DoDbUse? && ev.req.i < |s.ws| && s.ws[ev.req.i].handle != 0 {
      HeldIsLive(s, ev.req.i, spent);
      PassesOwn(ms, s.ws[ev.req.i].handle);
    }
  }

  /** Using a handle leaves the engine's account of handles alone. */
  lemma UsesAlone(lang: Lang, s: World, ev: Event)
    requires LawfulPlay(s.e, Calls(lang, s, ev)) && (ev.req.DoUse? || ev.req.DoQuery? || ev.req.DoDbUse?)
    ensures var ms := Calls(lang, s, ev);
            && Play(s.e, ms) == s.e
            && (SafePlay(s.e, ms) <==> forall m | m in ms :: HandlesLive(s.e, m.call))
            && (forall m | m in ms :: m.call == UseDb || (m.call.UseTxn? && m.call.txn == s.ws[ev.req.i].handle))
            && (ms != [] && (ev.req.DoQuery? || ev.req.DoDbUse?) ==> ms[0].call == UseDb)
  {
    var ms := Calls(lang, s, ev);
    if |ms| == 1 {
      assert ms == [ms[0]];
      PlayOne(s.e, ms[0]);
    } else if |ms| == 2 {
      assert ms == [ms[0]] + [ms[1]];
      PlayTwo(s.e, ms[0], ms[1]);
    }
  }

  lemma PassesOwn(ms: seq<Made>, h: nat)
    requires forall m | m in ms :: m.call == UseDb || (m.call.UseTxn? && m.call.txn == h)
    ensures Passes(ms, h) <==> exists m | m in ms :: m.call.UseTxn?
  {
    if m :| m in ms && m.call.UseTxn? {
      assert m.call == UseTxn(h);
    }
  }

  lemma CloseStep(lang: Lang, s: World, ev: Event, spent: set<nat>)
    requires Inv(s, spent) && LawfulPlay(s.e, Calls(lang, s, ev)) && ev.req.DoClose?
    ensures StepEffect(lang, s, ev, spent)
  {
    var ms := Calls(lang, s, ev);
    if ms != [] {
      PlayOne(s.e, ms[0]);
      NextConsistent(s.e, ms[0].call, ms[0].answer);
    }
    hide LawfulPlay, Play, SafePlay;
    SameAccount(s, Step(lang, s, ev), spent);
  }

  lemma DbQueryStep(lang: Lang, s: World, ev: Event, spent: set<nat>)
    requires Inv(s, spent) && LawfulPlay(s.e, Calls(lang, s, ev)) && ev.req.DoDbQuery?
    ensures StepEffect(lang, s, ev, spent)
  {
    hide LawfulPlay, Play, SafePlay, AsBuiltPlay, GaveUp, RollsBackConsumed, QueryCalls, Consistent, WrapperInv, Holds;
    var ms, t := Calls(lang, s, ev), Step(lang, s, ev);
    PlayConsistent(s.e, ms);
    if s.held {
      QueryPlays(lang, s.e, s.readOnly, ev.req.writes, ev.req.work, ev.answers);
      DbQueryKeeps(lang, ev.req.work, s, t, ms, spent);
    } else {
      NothingKept();
      assert Play(s.e, ms) == s.e && SafePlay(s.e, ms) by { PlayNothing(s.e); }
      SameAccount(s, t, spent);
    }
  }

  lemma PlayNothing(e: State)
    ensures Play(e, []) == e && SafePlay(e, [])
  {
  }

  lemma DbQueryKeeps(lang: Lang, work: Work, s: World, t: World, ms: seq<Made>, spent: set<nat>)
    requires Inv(s, spent) && s.held && QueryEffect(lang, work, s.e, ms)
    requires t == s.(e := Play(s.e, ms)) && Consistent(t.e)
    ensures Inv(t, spent) && (forall h | h in Orphans(s) :: h in Orphans(t))
    ensures Orphans(t) == {} <==> Orphans(s) == {} && !GaveUp(ms)
  {
    hide Play, SafePlay, AsBuiltPlay, GaveUp, RollsBackConsumed, Consistent, WrapperInv, Holds;
    if GaveUp(ms) {
      var m :| m in ms && m.answer.OkTxn? && OneMore(s.e, t.e, m.answer.handle);
      OneMoreOrphan(s, t, m.answer.handle, spent);
      assert m.answer.handle in Orphans(t);
    } else {
      SameAccount(s, t, spent);
    }
  }

  lemma OneMoreOrphan(s: World, t: World, h: nat, spent: set<nat>)
    requires Inv(s, spent) && s.e.open && Consistent(t.e) && OneMore(s.e, t.e, h) && t.ws == s.ws && t.held == s.held
    requires t.e.open && t.e.freed == s.e.freed && forall g | g in s.e.retired :: g in t.e.retired
    ensures Inv(t, spent) && Orphans(t) == Orphans(s) + {h}
  {
    forall j | 0 <= j < |t.ws|
      ensures WrapperInv(t, j, spent) && t.ws[j].handle != h
    {
      assert WrapperInv(s, j, spent);
    }
    assert forall g :: Holds(t, g) == Holds(s, g);
  }

  lemma StepHas(lang: Lang, s: World, ev: Event, spent: set<nat>)
    requires Inv(s, spent) && LawfulPlay(s.e, Calls(lang, s, ev))
    ensures StepEffect(lang, s, ev, spent)
  {
    match ev.req
    case DoBegin(_) => BeginStep(lang, s, ev, spent);
    case DoCommit(_) => ResolveStep(lang, s, ev, spent);
    case DoRollback(_) => ResolveStep(lang, s, ev, spent);
    case DoDbQuery(_, _) => DbQueryStep(lang, s, ev, spent);
    case DoClose => CloseStep(lang, s, ev, spent);
    case _ => UseStep(lang, s, ev, spent);
  }

  // ------------------------------------------------------------------ every run

  /** In any order of requests and under any answers the engine may give: the calls are safe exactly when
      nothing spent is used again, there is an orphan exactly when there was one or something was dropped,
      and an orphan stays one. */
  lemma {:induction false} RunsKeepAccount(lang: Lang, s: World, run: seq<Event>, spent: set<nat>)
    requires Inv(s, spent) && Lawful(lang, s, run)
    ensures Inv(Final(lang, s, run), Spent(lang, s, run, spent))
    ensures Safe(lang, s, run) <==> Abstains(lang, s, run, spent)
    ensures Orphans(Final(lang, s, run)) == {} <==> Orphans(s) == {} && DropsNothing(lang, s, run, spent)
    ensures forall h | h in Orphans(s) :: h in Orphans(Final(lang, s, run))
    decreases |run|
  {
    hide Inv, Orphans, Step, Spend, UsesSpent, Drops, Calls, LawfulPlay, SafePlay;
    if run != [] {
      StepHas(lang, s, run[0], spent);
      RunsKeepAccount(lang, Step(lang, s, run[0]), run[1..], Spend(lang, s, run[0], spent));
    }
  }

  lemma StartInv(readOnly: bool)
    ensures Inv(Start(readOnly), {}) && Orphans(Start(readOnly)) == {}
  {
  }

  /** From a freshly opened database: no native call receives a consumed handle exactly when nothing is used
      after a refusal that consumed its handle; a wrapper that is not spent and holds a handle has a live
      transaction on a live, held database; every live transaction is held by a wrapper exactly when nothing
      was dropped; and after close, the only handles that can still be passed are those of spent wrappers,
      and they are freed. */
  lemma WholeRunSafety(lang: Lang, readOnly: bool, run: seq<Event>)
    requires Lawful(lang, Start(readOnly), run)
    ensures var s, spent := Final(lang, Start(readOnly), run), Spent(lang, Start(readOnly), run, {});
            && (Safe(lang, Start(readOnly), run) <==> Abstains(lang, Start(readOnly), run, {}))
            && (forall i | 0 <= i < |s.ws| && s.ws[i].handle != 0 && i !in spent ::
                  s.ws[i].handle in s.e.txns && s.e.open && s.held)
            && ((forall h | h in s.e.txns :: Holds(s, h)) <==> DropsNothing(lang, Start(readOnly), run, {}))
            && (!s.held ==>
                  && s.e.txns == map[]
                  && forall i | 0 <= i < |s.ws| && s.ws[i].handle != 0 :: i in spent && s.ws[i].handle in s.e.freed)
  {
    hide Lawful, Safe, Abstains, DropsNothing, Final, Spent;
    StartInv(readOnly);
    RunsKeepAccount(lang, Start(readOnly), run, {});
    var s, spent := Final(lang, Start(readOnly), run), Spent(lang, Start(readOnly), run, {});
    forall i | 0 <= i < |s.ws| && s.ws[i].handle != 0
      ensures i !in spent ==> s.ws[i].handle in s.e.txns && s.e.open && s.held
      ensures !s.held ==> i in spent && s.ws[i].handle in s.e.freed
    {
      assert WrapperInv(s, i, spent);
      HeldIsLive(s, i, spent);
    }
    assert Orphans(s) == {} <==> forall h | h in s.e.txns :: Holds(s, h) by { NoOrphans(s); }
  }

  lemma NoOrphans(s: World)
    ensures Orphans(s) == {} <==> forall h | h in s.e.txns :: Holds(s, h)
  {
    forall h | h in s.e.txns && !Holds(s, h)
      ensures Orphans(s) != {}
    {
      assert h in Orphans(s);
    }
  }

  /** Closing a held database goes through exactly when nothing was dropped on the way and every wrapper has
      let go of its handle or is spent. */
  lemma CloseSucceedsExactly(lang: Lang, readOnly: bool, run: seq<Event>, a: Answer)
    requires Lawful(lang, Start(readOnly), run)
    requires Final(lang, Start(readOnly), run).held && Allowed(Final(lang, Start(readOnly), run).e, Close, a)
    ensures var s, spent := Final(lang, Start(readOnly), run), Spent(lang, Start(readOnly), run, {});
            CloseConsumes(a) <==>
            && DropsNothing(lang, Start(readOnly), run, {})
            && forall i | 0 <= i < |s.ws| && s.ws[i].handle != 0 :: i in spent
  {
    hide Lawful, Safe, Abstains, DropsNothing, Final, Spent;
    StartInv(readOnly);
    RunsKeepAccount(lang, Start(readOnly), run, {});
    NothingLive(Final(lang, Start(readOnly), run), Spent(lang, Start(readOnly), run, {}));
  }

  lemma NothingLive(s: World, spent: set<nat>)
    requires Inv(s, spent)
    ensures s.e.txns == map[] <==>
            Orphans(s) == {} && forall i | 0 <= i < |s.ws| && s.ws[i].handle != 0 :: i in spent
  {
    NoOrphans(s);
    if s.e.txns == map[] {
      forall i | 0 <= i < |s.ws| && s.ws[i].handle != 0
        ensures i in spent
      {
        assert WrapperInv(s, i, spent);
      }
    } else if forall i | 0 <= i < |s.ws| && s.ws[i].handle != 0 :: i in spent {
      var h :| h in s.e.txns;
      forall i | 0 <= i < |s.ws|
        ensures s.ws[i].handle != h
      {
        assert WrapperInv(s, i, spent);
      }
      assert !Holds(s, h);
    }
  }

  /** A dropped transaction stays live, so the database stays open and close is refused ever after. */
  lemma DroppedStaysLive(lang: Lang, s: World, run: seq<Event>, spent: set<nat>, h: nat, a: Answer)
    requires Inv(s, spent) && Lawful(lang, s, run) && h in Orphans(s)
    requires Allowed(Final(lang, s, run).e, Close, a)
    ensures var t := Final(lang, s, run); h in t.e.txns && !Holds(t, h) && t.held && !CloseConsumes(a)
  {
    hide Lawful, Safe, Abstains, DropsNothing, Final, Spent;
    RunsKeepAccount(lang, s, run, spent);
    assert h in Orphans(Final(lang, s, run));
  }

  // ------------------------------------------------------------------ on the engine as it is built

  predicate AsBuiltRun(lang: Lang, s: World, run: seq<Event>)
    decreases |run|
  {
    run != [] ==> AsBuiltPlay(s.e, Calls(lang, s, run[0])) && AsBuiltRun(lang, Step(lang, s, run[0]), run[1..])
  }

  /** A `Database.query` of Go or Python that was writing and whose commit was refused without consuming the handle, or
      one of Go that panicked, leaves a transaction. */
  predicate GivesUp(lang: Lang, s: World, ev: Event) {
    && ev.req.DoDbQuery? && GaveUp(Calls(lang, s, ev))
    && (|| Panics(lang, ev.req.work)
        || (!lang.TypeScript? && exists m | m in Calls(lang, s, ev) :: m.call.Commit?))
  }

  predicate GivesUpNone(lang: Lang, s: World, run: seq<Event>)
    decreases |run|
  {
    run != [] ==> !GivesUp(lang, s, run[0]) && GivesUpNone(lang, Step(lang, s, run[0]), run[1..])
  }

  lemma DropsAsBuilt(lang: Lang, s: World, ev: Event, spent: set<nat>)
    requires Inv(s, spent) && LawfulPlay(s.e, Calls(lang, s, ev)) && AsBuiltPlay(s.e, Calls(lang, s, ev))
    ensures Drops(lang, s, ev, spent) <==> GivesUp(lang, s, ev)
  {
    hide LawfulPlay, AsBuiltPlay, QueryCalls, GaveUp, Play, SafePlay, RollsBackConsumed, Consistent;
    var ms := Calls(lang, s, ev);
    match ev.req
    case DoRollback(i) =>
      if i < |s.ws| && ms != [] {
        PlayOne(s.e, ms[0]);
        HeldIsLive(s, i, spent);
      }
    case DoDbQuery(_, _) =>
      if s.held { QueryPlays(lang, s.e, s.readOnly, ev.req.writes, ev.req.work, ev.answers); } else { NothingKept(); }
    case _ =>
  }

  /** On the engine as built, whose refused rollbacks always consume the handle, the only transactions that
      are dropped live belong to writing queries of Go and Python whose commit was refused, and to queries of Go
      that panicked. A Python rollback never loses one, and TypeScript, which rolls back after a refused commit,
      loses none at all. */
  lemma {:induction false} DroppedAsBuilt(lang: Lang, s: World, run: seq<Event>, spent: set<nat>)
    requires Inv(s, spent) && Lawful(lang, s, run) && AsBuiltRun(lang, s, run)
    ensures DropsNothing(lang, s, run, spent) <==> GivesUpNone(lang, s, run)
    ensures lang.TypeScript? ==> DropsNothing(lang, s, run, spent)
    decreases |run|
  {
    hide Inv, Orphans, Step, Spend, UsesSpent, Drops, Calls, LawfulPlay, SafePlay, AsBuiltPlay;
    if run != [] {
      DropsAsBuilt(lang, s, run[0], spent);
      StepHas(lang, s, run[0], spent);
      DroppedAsBuilt(lang, Step(lang, s, run[0]), run[1..], Spend(lang, s, run[0], spent));
    }
  }

  // ------------------------------------------------------------------ the writer slot

  predicate LosesSlotIn(lang: Lang, s: World, run: seq<Event>)
    decreases |run|
  {
    run != [] && (LosesSlot(s.e, Calls(lang, s, run[0])) || LosesSlotIn(lang, Step(lang, s, run[0]), run[1..]))
  }

  /** While the database is open, the writer slot is lost exactly when a commit or rollback of a writer was refused and
      consumed its handle, or a begin was refused that left its writer behind. */
  lemma {:induction false} WriterSlotLostExactly(lang: Lang, s: World, run: seq<Event>, spent: set<nat>)
    requires Inv(s, spent) && Lawful(lang, s, run) && Final(lang, s, run).e.open
    ensures Final(lang, s, run).e.writer.Lost? <==> s.e.writer.Lost? || LosesSlotIn(lang, s, run)
    decreases |run|
  {
    hide Calls, LawfulPlay, Play, LosesSlot, UsesSpent, Drops, Spend, WrapperInv;
    if run != [] {
      var t := Step(lang, s, run[0]);
      assert t.e == Play(s.e, Calls(lang, s, run[0])) by { StepPlays(lang, s, run[0]); }
      StepHas(lang, s, run[0], spent);
      StaysClosed(lang, t, run[1..], Spend(lang, s, run[0], spent));
      SlotLostExactly(s.e, Calls(lang, s, run[0]));
      WriterSlotLostExactly(lang, t, run[1..], Spend(lang, s, run[0], spent));
    }
  }

  lemma StepPlays(lang: Lang, s: World, ev: Event)
    ensures Step(lang, s, ev).e == Play(s.e, Calls(lang, s, ev))
  {
  }

  lemma {:induction false} StaysClosed(lang: Lang, s: World, run: seq<Event>, spent: set<nat>)
    requires Inv(s, spent) && Lawful(lang, s, run) && Final(lang, s, run).e.open
    ensures s.e.open
    decreases |run|
  {
    hide Calls, LawfulPlay, Play, UsesSpent, Drops, Spend, WrapperInv;
    if run != [] {
      StepHas(lang, s, run[0], spent);
      StaysClosed(lang, Step(lang, s, run[0]), run[1..], Spend(lang, s, run[0], spent));
      assert Step(lang, s, run[0]).e.open;
      assert Step(lang, s, run[0]).held;
    }
  }

  // ------------------------------------------------------------------ runs that show it

  lemma RunFirst(lang: Lang, s: World, ev: Event, rest: seq<Event>)
    ensures var t, ms := Step(lang, s, ev), Calls(lang, s, ev);
            && Final(lang, s, [ev] + rest) == Final(lang, t, rest)
            && (Lawful(lang, s, [ev] + rest) <==> LawfulPlay(s.e, ms) && Lawful(lang, t, rest))
            && (AsBuiltRun(lang, s, [ev] + rest) <==> AsBuiltPlay(s.e, ms) && AsBuiltRun(lang, t, rest))
            && (Safe(lang, s, [ev] + rest) <==> SafePlay(s.e, ms) && Safe(lang, t, rest))
  {
    assert ([ev] + rest)[1..] == rest;
  }

  lemma RunNothing(lang: Lang, s: World)
    ensures Final(lang, s, []) == s && Lawful(lang, s, []) && AsBuiltRun(lang, s, []) && Safe(lang, s, [])
  {
  }

  /** One call, its answer and what they make of the world. */
  lemma OneCall(lang: Lang, s: World, ev: Event, m: Made)
    requires Calls(lang, s, ev) == [m] && Allowed(s.e, m.call, m.answer) && AsBuilt(s.e, m.call, m.answer)
    ensures LawfulPlay(s.e, Calls(lang, s, ev)) && AsBuiltPlay(s.e, Calls(lang, s, ev))
    ensures SafePlay(s.e, Calls(lang, s, ev)) <==> HandlesLive(s.e, m.call)
    ensures Step(lang, s, ev).e == Next(s.e, m.call, m.answer)
  {
    PlayOne(s.e, m);
  }

  /** Go and TypeScript keep a handle that a refused rollback has consumed. Close goes through, and a later
      commit passes the handle of freed memory. */
  lemma SpentHandleExample(lang: Lang)
    requires !lang.Python?
    ensures var begin, rollback := Event(DoBegin(ReadWrite), [OkTxn(7)]), Event(DoRollback(0), [Refused(true)]);
            var close, commit := Event(DoClose, [Ok]), Event(DoCommit(0), [Refused(false)]);
            var run := [begin] + ([rollback] + ([close] + ([commit] + [])));
            && Lawful(lang, Start(false), run) && AsBuiltRun(lang, Start(false), run) && !Safe(lang, Start(false), run)
            && Final(lang, Start(false), run).ws == [Wrapper(7, Active)]
            && Final(lang, Start(false), run).e.freed == {7}
  {
    hide LawfulPlay, AsBuiltPlay, SafePlay, Play, Lawful, AsBuiltRun, Safe, Final;
    var begin, rollback := Event(DoBegin(ReadWrite), [OkTxn(7)]), Event(DoRollback(0), [Refused(true)]);
    var close, commit := Event(DoClose, [Ok]), Event(DoCommit(0), [Refused(false)]);
    var s0 := Start(false);
    OneCall(lang, s0, begin, Made(Begin(ReadWrite), OkTxn(7)));
    var s1 := Step(lang, s0, begin);
    assert s1 == World(State(true, map[7 := ReadWrite], {}, {}, HeldBy(7)), true, false, [Wrapper(7, Active)]);
    OneCall(lang, s1, rollback, Made(Rollback(7), Refused(true)));
    var s2 := Step(lang, s1, rollback);
    assert s2.e == State(true, map[], {7}, {}, Lost) && s2.ws == s1.ws;
    OneCall(lang, s2, close, Made(Close, Ok));
    var s3 := Step(lang, s2, close);
    assert s3.e == State(false, map[], {}, {7}, Free) && s3.ws == s1.ws;
    OneCall(lang, s3, commit, Made(Commit(7), Refused(false)));
    var s4 := Step(lang, s3, commit);
    assert s4.e == s3.e && s4.ws == s1.ws;
    RunNothing(lang, s4);
    RunFirst(lang, s3, commit, []);
    RunFirst(lang, s2, close, [commit] + []);
    RunFirst(lang, s1, rollback, [close] + ([commit] + []));
    RunFirst(lang, s0, begin, [rollback] + ([close] + ([commit] + [])));
  }

  /** The same refusal keeps the writer slot, in every binding: no writer can begin until close. */
  lemma WriterSlotExample(lang: Lang, h: nat)
    ensures var begin, rollback := Event(DoBegin(ReadWrite), [OkTxn(7)]), Event(DoRollback(0), [Refused(true)]);
            var run := [begin] + ([rollback] + []);
            && Lawful(lang, Start(false), run) && AsBuiltRun(lang, Start(false), run)
            && Final(lang, Start(false), run).e.txns == map[]
            && !Allowed(Final(lang, Start(false), run).e, Begin(ReadWrite), OkTxn(h))
  {
    hide LawfulPlay, AsBuiltPlay, SafePlay, Play, Lawful, AsBuiltRun, Safe, Final;
    var begin, rollback := Event(DoBegin(ReadWrite), [OkTxn(7)]), Event(DoRollback(0), [Refused(true)]);
    var s0 := Start(false);
    OneCall(lang, s0, begin, Made(Begin(ReadWrite), OkTxn(7)));
    var s1 := Step(lang, s0, begin);
    assert s1 == World(State(true, map[7 := ReadWrite], {}, {}, HeldBy(7)), true, false, [Wrapper(7, Active)]);
    OneCall(lang, s1, rollback, Made(Rollback(7), Refused(true)));
    var s2 := Step(lang, s1, rollback);
    assert s2.e == State(true, map[], {7}, {}, Lost);
    RunNothing(lang, s2);
    RunFirst(lang, s1, rollback, []);
    RunFirst(lang, s0, begin, [rollback] + []);
  }

  /** A writing query of Go or Python whose commit is refused leaves its transaction live with nobody to
      resolve it, so the database cannot be closed. */
  lemma DroppedQueryExample(lang: Lang, a: Answer)
    requires !lang.TypeScript?
    ensures var run := [Event(DoDbQuery(true, AllRead), [Ok, OkTxn(7), Ok, Refused(false)])] + [];
            && Lawful(lang, Start(false), run) && AsBuiltRun(lang, Start(false), run)
            && Final(lang, Start(false), run).e.txns == map[7 := ReadWrite] && Final(lang, Start(false), run).ws == []
            && (Allowed(Final(lang, Start(false), run).e, Close, a) ==> a == InvalidArg)
  {
    hide LawfulPlay, AsBuiltPlay, SafePlay, Play, Lawful, AsBuiltRun, Safe, Final;
    var ev, s0 := Event(DoDbQuery(true, AllRead), [Ok, OkTxn(7), Ok, Refused(false)]), Start(false);
    var begin, commit := Made(Begin(ReadWrite), OkTxn(7)), Made(Commit(7), Refused(false));
    var ms := [Made(UseDb, Ok)] + ([begin] + ([Made(UseTxn(7), Ok)] + [commit]));
    assert Calls(lang, s0, ev) == ms;
    DroppedPlay();
    var e := State(true, map[7 := ReadWrite], {}, {}, HeldBy(7));
    RunNothing(lang, Step(lang, s0, ev));
    RunFirst(lang, s0, ev, []);
    assert 7 in e.txns;
  }

  lemma DroppedPlay()
    ensures var begin, commit := Made(Begin(ReadWrite), OkTxn(7)), Made(Commit(7), Refused(false));
            var ms := [Made(UseDb, Ok)] + ([begin] + ([Made(UseTxn(7), Ok)] + [commit]));
            && Play(OPENED, ms) == State(true, map[7 := ReadWrite], {}, {}, HeldBy(7))
            && LawfulPlay(OPENED, ms) && AsBuiltPlay(OPENED, ms)
  {
    hide LawfulPlay, AsBuiltPlay, SafePlay, Play;
    var begin, use, commit := Made(Begin(ReadWrite), OkTxn(7)), Made(UseTxn(7), Ok), Made(Commit(7), Refused(false));
    var e := State(true, map[7 := ReadWrite], {}, {}, HeldBy(7));
    PlayFirst(OPENED, Made(UseDb, Ok), [begin] + ([use] + [commit]));
    PlayFirst(OPENED, begin, [use] + [commit]);
    assert Next(OPENED, begin.call, begin.answer) == e;
    PlayTwo(e, use, commit);
  }

  /** A query of Go that panics after it has begun leaves its transaction live as well. */
  lemma PanickedQueryExample(a: Answer)
    ensures var run := [Event(DoDbQuery(true, Panicked(false)), [Ok, OkTxn(7)])] + [];
            && Lawful(Go, Start(false), run) && AsBuiltRun(Go, Start(false), run)
            && Final(Go, Start(false), run).e.txns == map[7 := ReadWrite] && Final(Go, Start(false), run).ws == []
            && (Allowed(Final(Go, Start(false), run).e, Close, a) ==> a == InvalidArg)
  {
    hide LawfulPlay, AsBuiltPlay, SafePlay, Play, Lawful, AsBuiltRun, Safe, Final;
    var ev, s0 := Event(DoDbQuery(true, Panicked(false)), [Ok, OkTxn(7)]), Start(false);
    var prepare, begin := Made(UseDb, Ok), Made(Begin(ReadWrite), OkTxn(7));
    assert Calls(Go, s0, ev) == [prepare] + [begin];
    PlayTwo(OPENED, prepare, begin);
    RunNothing(Go, Step(Go, s0, ev));
    RunFirst(Go, s0, ev, []);
    assert 7 in Step(Go, s0, ev).e.txns;
  }
}
