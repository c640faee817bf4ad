/** Scoped runs interleaved on one database: Go `View`, `Update` and `DB.Query`, Python `Database.query`
    and `with` blocks, TypeScript `Database.query`, `read` and `write`
    (bindings/go/db.go, bindings/python .../database.py and transaction.py, bindings/typescript/src/database.ts). */
module Interleaving {
  import opened Options
  import opened Languages
  import opened Engine
  import opened Lifecycle
  import L = Lifecycle

  /** `writes` is what the engine reported for the query, or the mode of the `with` block. */
  datatype Kind =
    | GoView | GoUpdate | GoQuery(writes: bool)
    | PyQuery(writes: bool) | PyWith(writes: bool)
    | TsQuery(writes: bool) | TsRead | TsWrite

  function LangOf(k: Kind): Lang {
    match k
    case GoView => Go
    case GoUpdate => Go
    case GoQuery(_) => Go
    case PyQuery(_) => Python
    case PyWith(_) => Python
    case _ => TypeScript
  }

  /** The mode a run begins its transaction in. */
  function ModeOf(k: Kind): Mode {
    match k
    case GoUpdate => ReadWrite
    case TsWrite => ReadWrite
    case GoView => ReadOnly
    case TsRead => ReadOnly
    case _ => if k.writes then ReadWrite else ReadOnly
  }

  /** Runs that hand their transaction to a callback, which may itself commit or roll it back. */
  predicate HasCallback(k: Kind) {
    k.GoView? || k.GoUpdate? || k.PyWith? || k.TsRead? || k.TsWrite?
  }

  datatype Ending = DoCommitIt | DoRollbackIt

  /** What a run does when its body has ended, well or badly. */
  function EndingOf(k: Kind, bodyOk: bool): Ending {
    match k
    case GoView => DoRollbackIt
    case TsRead => DoRollbackIt
    case PyWith(_) => DoRollbackIt
    case GoUpdate => if bodyOk then DoCommitIt else DoRollbackIt
    case TsWrite => if bodyOk then DoCommitIt else DoRollbackIt
    case _ => if bodyOk && k.writes then DoCommitIt else DoRollbackIt
  }

  /** TypeScript rolls back after a commit that threw; the others let the failure stand. */
  predicate RollsBackFailedCommit(k: Kind) {
    k.TsQuery? || k.TsWrite?
  }

  /** `Unwound` is the end of a Go run whose body panicked: nothing there is deferred. */
  datatype Pc = Waiting | Body | Ending1(e: Ending) | Ending2 | Done | Unwound

  /** What became of the last commit or rollback a run asked for, or of a begin that left its writer behind. */
  datatype Last = NotAsked | Granted | Kept | Consumed

  /** A run: where it is, its wrapper (for `Database.query`, its local handle), the handle of the transaction
      it began (0 for none), and how its last commit or rollback was answered. */
  datatype Run = Run(kind: Kind, pc: Pc, w: Wrapper, txn: nat, last: Last)

  datatype System = System(e: State, runs: seq<Run>)

  datatype Input =
    | Proceed(a: Answer)                   // the run takes its next step, answered by the engine
    | BodyEnds(ok: bool)
    | BodyPanics
    | CallbackEnds(e: Ending, a: Answer)   // the callback ends the transaction itself

  datatype Turn = Turn(i: nat, input: Input)

  // ------------------------------------------------------------------ one turn

  /** The engine call a turn makes, if any. */
  function CallOf(r: Run, input: Input): seq<Call> {
    match r.pc
    case Waiting => if input.Proceed? then [Begin(ModeOf(r.kind))] else []
    case Body => if input.CallbackEnds? && HasCallback(r.kind) then EndCall(r.w, input.e) else []
    case Ending1(e) => if input.Proceed? then EndCall(r.w, e) else []
    case Ending2 => if input.Proceed? then EndCall(r.w, DoRollbackIt) else []
    case _ => []
  }

  function EndCall(w: Wrapper, e: Ending): seq<Call> {
    match e
    case DoCommitIt => if CommitCalls(w) then [Commit(w.handle)] else []
    case DoRollbackIt => if RollbackCalls(w) then [Rollback(w.handle)] else []
  }

  /** `PyQuery` forgets its handle after asking, whatever the answer; the rest go through their wrapper. */
  function EndWrapper(k: Kind, w: Wrapper, e: Ending, a: Answer): Wrapper {
    if k.PyQuery? && CommitCalls(w) then Wrapper(0, if e.DoCommitIt? then Committed else RolledBack)
    else if e.DoCommitIt? then AfterCommit(w, a)
    else AfterRollback(LangOf(k), w, a)
  }

  /** The run's own bookkeeping after an ending step. */
  function Ended(r: Run, e: Ending, a: Answer): Run {
    r.(w := EndWrapper(r.kind, r.w, e, a), last := if EndCall(r.w, e) == [] then r.last else AfterAnswer(r.last, a))
  }

  /** A handle that was consumed stays consumed, however often it is refused again. */
  function AfterAnswer(last: Last, a: Answer): Last {
    if a.Ok? then Granted else if a == Refused(true) || last.Consumed? then Consumed else Kept
  }

  /** A commit that did not go through, refused by the engine or by the wrapper itself, has thrown. */
  predicate Threw(r: Run, e: Ending, a: Answer) {
    e.DoCommitIt? && !(CommitCalls(r.w) && a.Ok?)
  }

  function Advance(r: Run, input: Input): Run {
    match r.pc
    case Waiting =>
      if !input.Proceed? then r
      else if input.a.OkTxn? then r.(pc := Body, w := Wrapper(input.a.handle, Active), txn := input.a.handle)
      else r.(pc := Done, last := if input.a == Refused(true) then Consumed else NotAsked)
    case Body =>
      (match input
       case BodyEnds(ok) => r.(pc := Ending1(EndingOf(r.kind, ok)))
       case BodyPanics => if LangOf(r.kind).Go? then r.(pc := Unwound) else r
       case CallbackEnds(e, a) => if HasCallback(r.kind) then Ended(r, e, a) else r
       case Proceed(_) => r)
    case Ending1(e) =>
      if !input.Proceed? then r
      // a Python `with` block checks both flags before rolling back, so it asks only when still active
      else Ended(r, e, input.a).(pc := if Threw(r, e, input.a) && RollsBackFailedCommit(r.kind) then Ending2 else Done)
    case Ending2 => if input.Proceed? then Ended(r, DoRollbackIt, input.a).(pc := Done) else r
    case _ => r
  }

  function AnswerOf(input: Input): Answer {
    match input
    case Proceed(a) => a
    case CallbackEnds(_, a) => a
    case _ => Refused(false)
  }

  function Take(s: System, t: Turn): System {
    if t.i >= |s.runs| then s
    else
      var calls := CallOf(s.runs[t.i], t.input);
      System(if calls == [] then s.e else Next(s.e, calls[0], AnswerOf(t.input)),
             s.runs[t.i := Advance(s.runs[t.i], t.input)])
  }

  predicate LawfulTurn(s: System, t: Turn) {
    t.i < |s.runs| ==>
      forall c | c in CallOf(s.runs[t.i], t.input) :: Allowed(s.e, c, AnswerOf(t.input))
  }

  predicate LawfulRun(s: System, turns: seq<Turn>)
    decreases |turns|
  {
    turns != [] ==> LawfulTurn(s, turns[0]) && LawfulRun(Take(s, turns[0]), turns[1..])
  }

  function FinalSystem(s: System, turns: seq<Turn>): System
    decreases |turns|
  {
    if turns == [] then s else FinalSystem(Take(s, turns[0]), turns[1..])
  }

  function Fresh(k: Kind): Run {
    Run(k, Waiting, Wrapper(0, Active), 0, NotAsked)
  }

  // ------------------------------------------------------------------ safe turns

  /** The turn passes a handle that a refusal has consumed, as the run can tell. */
  predicate Reuses(r: Run, input: Input) {
    r.last.Consumed? && CallOf(r, input) != []
  }

  predicate NoReuse(s: System, turns: seq<Turn>)
    decreases |turns|
  {
    turns != [] ==>
      && (turns[0].i < |s.runs| ==> !Reuses(s.runs[turns[0].i], turns[0].input))
      && NoReuse(Take(s, turns[0]), turns[1..])
  }

  predicate SafeTurn(s: System, t: Turn) {
    t.i < |s.runs| ==> forall c | c in CallOf(s.runs[t.i], t.input) :: HandlesLive(s.e, c)
  }

  /** No turn passes a handle that is not live. */
  predicate SafeTurns(s: System, turns: seq<Turn>)
    decreases |turns|
  {
    turns != [] ==> SafeTurn(s, turns[0]) && SafeTurns(Take(s, turns[0]), turns[1..])
  }

  // ------------------------------------------------------------------ the invariant of one run

  /** The live transaction a run owns (0 for none). */
  function Own(r: Run): nat {
    if r.last.NotAsked? || r.last.Kept? then r.txn else 0
  }

  /** The run keeps the writer slot from being free. */
  predicate Occupies(r: Run) {
    ModeOf(r.kind).ReadWrite? && !r.last.Granted? && (r.txn != 0 || r.last.Consumed?)
  }

  predicate Over(r: Run) {
    r.pc.Done? || r.pc.Unwound?
  }

  ghost predicate RunInv(e: State, r: Run) {
    && (r.txn != 0 ==>
          if Own(r) != 0 then r.txn in e.txns && e.txns[r.txn] == ModeOf(r.kind) else r.txn in e.retired)
    && (r.txn == 0 ==> r.last.NotAsked? || (r.last.Consumed? && r.pc.Done?))
    && (r.w.handle != 0 ==> r.w.handle == r.txn && r.w.phase.Active? && !r.last.Granted?)
    && (Own(r) != 0 && r.w.handle == 0 ==> r.last.Kept?)
    && (r.pc.Waiting? ==> r.txn == 0 && r.w == Wrapper(0, Active))
    && (r.pc.Done? && Own(r) != 0 ==> r.last.Kept?)
    && (r.pc.Unwound? ==> LangOf(r.kind).Go?)
    && (Occupies(r) ==> e.writer == if r.last.Consumed? then Lost else HeldBy(r.txn))
  }

  /** Against the engine as it was before: the runs' transactions are new and distinct, what was there is
      still there, and the rest of the live transactions, and the writer slot if it changed, are the runs'. */
  ghost predicate SystemInv(before: State, s: System) {
    && Consistent(s.e) && s.e.open && Consistent(before)
    && (forall i | 0 <= i < |s.runs| :: RunInv(s.e, s.runs[i]))
    && (forall i, j | 0 <= i < j < |s.runs| && s.runs[i].txn != 0 :: s.runs[i].txn != s.runs[j].txn)
    && (forall i | 0 <= i < |s.runs| && s.runs[i].txn != 0 ::
          s.runs[i].txn !in before.txns && s.runs[i].txn !in before.retired)
    && (forall h | h in before.txns :: h in s.e.txns && s.e.txns[h] == before.txns[h])
    && (forall h | h in before.retired :: h in s.e.retired)
    && (forall h | h in s.e.txns :: h in before.txns || exists i | 0 <= i < |s.runs| :: Own(s.runs[i]) == h)
    && SlotInv(before, s)
  }

  /** At most one run occupies the writer slot, it took the slot when it was free, and but for it the slot is as it
      was. */
  ghost predicate SlotInv(before: State, s: System) {
    && (forall i, j | 0 <= i < j < |s.runs| && Occupies(s.runs[i]) :: !Occupies(s.runs[j]))
    && (forall i | 0 <= i < |s.runs| && Occupies(s.runs[i]) :: before.writer.Free? && !s.e.writer.Free?)
    && ((forall i | 0 <= i < |s.runs| :: !Occupies(s.runs[i])) ==> s.e.writer == before.writer)
  }

  // ------------------------------------------------------------------ one turn

  /** Between engines `e` and `e'`, one run went from `r` to `r'`. */
  ghost predicate RunStep(e: State, r: Run, e': State, r': Run) {
    && RunInv(e', r') && Consistent(e') && e'.open && r'.kind == r.kind
    && (r'.txn == r.txn || (r.txn == 0 && r'.txn !in e.txns && r'.txn !in e.retired))
    && (forall h | h != r'.txn :: (h in e'.txns <==> h in e.txns) && (h in e.txns ==> e'.txns[h] == e.txns[h]))
    && (forall h | h in e.retired :: h in e'.retired)
    && (if Occupies(r) then Occupies(r') || e'.writer.Free?
        else if Occupies(r') then e.writer.Free?
        else e'.writer == e.writer)
  }

  function EngineAfter(e: State, r: Run, input: Input): State {
    var calls := CallOf(r, input);
    if calls == [] then e else Next(e, calls[0], AnswerOf(input))
  }

  /** An ending step, whatever comes next. */
  lemma EndStep(e: State, r: Run, ending: Ending, a: Answer, pc: Pc)
    requires RunInv(e, r) && Consistent(e) && e.open
    requires !pc.Waiting? && !pc.Unwound? && (r.txn == 0 ==> pc.Done? || r.last.NotAsked?)
    requires forall c | c in EndCall(r.w, ending) :: Allowed(e, c, a)
    ensures var calls := EndCall(r.w, ending);
            && RunStep(e, r, if calls == [] then e else Next(e, calls[0], a), Ended(r, ending, a).(pc := pc))
            && ((forall c | c in calls :: HandlesLive(e, c)) <==> !(r.last.Consumed? && calls != []))
  {
    var calls := EndCall(r.w, ending);
    if calls != [] {
      assert calls[0] in calls;
      NextConsistent(e, calls[0], a);
    }
    hide Consistent, LangOf;
  }

  lemma TurnOfRun(e: State, r: Run, input: Input)
    requires RunInv(e, r) && Consistent(e) && e.open
    requires forall c | c in CallOf(r, input) :: Allowed(e, c, AnswerOf(input))
    ensures RunStep(e, r, EngineAfter(e, r, input), Advance(r, input))
    ensures (forall c | c in CallOf(r, input) :: HandlesLive(e, c)) <==> !Reuses(r, input)
  {
    var a, pc := AnswerOf(input), Advance(r, input).pc;
    match r.pc
    case Waiting => BeginTurn(e, r, input);
    case Body => if input.CallbackEnds? && HasCallback(r.kind) { EndStep(e, r, input.e, a, pc); }
    case Ending1(ending) => if input.Proceed? { EndStep(e, r, ending, a, pc); }
    case Ending2 => if input.Proceed? { EndStep(e, r, DoRollbackIt, a, pc); }
    case _ =>
  }

  lemma BeginTurn(e: State, r: Run, input: Input)
    requires RunInv(e, r) && Consistent(e) && e.open && r.pc.Waiting?
    requires forall c | c in CallOf(r, input) :: Allowed(e, c, AnswerOf(input))
    ensures RunStep(e, r, EngineAfter(e, r, input), Advance(r, input))
    ensures (forall c | c in CallOf(r, input) :: HandlesLive(e, c)) && !Reuses(r, input)
  {
    if input.Proceed? {
      assert Begin(ModeOf(r.kind)) in CallOf(r, input);
      NextConsistent(e, Begin(ModeOf(r.kind)), input.a);
    }
  }

  /** The turn of one run leaves every other run's account alone. */
  lemma OthersKeepInv(e: State, r: Run, e': State, r': Run, other: Run)
    requires RunInv(e, r) && RunInv(e, other) && RunStep(e, r, e', r') && Consistent(e)
    requires (other.txn != 0 ==> other.txn != r.txn) && !(Occupies(other) && Occupies(r))
    ensures RunInv(e', other) && (other.txn != 0 ==> other.txn != r'.txn)
  {
    hide Consistent, ModeOf;
    assert other.txn != 0 ==> other.txn in e.txns || other.txn in e.retired;
  }

  lemma AllKeepInv(s: System, u: System, k: nat)
    requires k < |s.runs| == |u.runs| && u.runs == s.runs[k := u.runs[k]] && Consistent(s.e)
    requires forall j | 0 <= j < |s.runs| :: RunInv(s.e, s.runs[j])
    requires forall i, j | 0 <= i < j < |s.runs| && s.runs[i].txn != 0 :: s.runs[i].txn != s.runs[j].txn
    requires forall i, j | 0 <= i < j < |s.runs| && Occupies(s.runs[i]) :: !Occupies(s.runs[j])
    requires RunStep(s.e, s.runs[k], u.e, u.runs[k])
    ensures forall j | 0 <= j < |s.runs| :: RunInv(u.e, u.runs[j])
    ensures forall j | 0 <= j < |s.runs| && j != k :: u.runs[j] == s.runs[j]
    ensures forall j | 0 <= j < |s.runs| && j != k && u.runs[j].txn != 0 :: u.runs[j].txn != u.runs[k].txn
  {
    hide RunInv, Consistent, Occupies;
    assert RunInv(u.e, u.runs[k]);
    forall j | 0 <= j < |s.runs| && j != k
      ensures u.runs[j] == s.runs[j] && RunInv(u.e, u.runs[j])
      ensures u.runs[j].txn != 0 ==> u.runs[j].txn != u.runs[k].txn
    {
      if j < k {
        assert s.runs[j].txn != 0 ==> s.runs[j].txn != s.runs[k].txn;
      } else if s.runs[k].txn != 0 {
        assert s.runs[k].txn != s.runs[j].txn;
      }
      assert j < k ==> Occupies(s.runs[j]) ==> !Occupies(s.runs[k]);
      assert k < j ==> Occupies(s.runs[k]) ==> !Occupies(s.runs[j]);
      OthersKeepInv(s.e, s.runs[k], u.e, u.runs[k], s.runs[j]);
    }
  }

  lemma TxnsAreDistinct(runs: seq<Run>, runs': seq<Run>, k: nat)
    requires k < |runs| == |runs'|
    requires forall j | 0 <= j < |runs| && j != k :: runs'[j] == runs[j]
    requires forall j | 0 <= j < |runs| && j != k && runs'[j].txn != 0 :: runs'[j].txn != runs'[k].txn
    requires forall i, j | 0 <= i < j < |runs| && runs[i].txn != 0 :: runs[i].txn != runs[j].txn
    ensures forall i, j | 0 <= i < j < |runs| && runs'[i].txn != 0 :: runs'[i].txn != runs'[j].txn
  {
    forall i, j | 0 <= i < j < |runs| && runs'[i].txn != 0
      ensures runs'[i].txn != runs'[j].txn
    {
      if i != k && j != k {
        assert runs[i].txn != runs[j].txn;
      } else if j == k {
        assert runs'[i].txn != runs'[k].txn;
      } else if runs'[j].txn != 0 {
        assert runs'[j].txn != runs'[k].txn;
      }
    }
  }

  /** Who is live after the turn, and who has the writer slot. */
  lemma WhoIsLive(before: State, s: System, u: System, k: nat)
    requires SystemInv(before, s) && k < |s.runs| == |u.runs| && RunStep(s.e, s.runs[k], u.e, u.runs[k])
    requires forall j | 0 <= j < |s.runs| && j != k :: u.runs[j] == s.runs[j]
    requires forall j | 0 <= j < |s.runs| && j != k && u.runs[j].txn != 0 :: u.runs[j].txn != u.runs[k].txn
    ensures forall i | 0 <= i < |u.runs| && u.runs[i].txn != 0 ::
              u.runs[i].txn !in before.txns && u.runs[i].txn !in before.retired
    ensures forall h | h in before.txns :: h in u.e.txns && u.e.txns[h] == before.txns[h]
    ensures forall h | h in before.retired :: h in u.e.retired
    ensures forall h | h in u.e.txns :: h in before.txns || exists i | 0 <= i < |u.runs| :: Own(u.runs[i]) == h
  {
    hide ModeOf;
    var r, r' := s.runs[k], u.runs[k];
    assert r'.txn != 0 ==> r'.txn !in before.txns && r'.txn !in before.retired;
    forall h | h in u.e.txns
      ensures h in before.txns || exists i | 0 <= i < |u.runs| :: Own(u.runs[i]) == h
    {
      if h == r'.txn {
        assert Own(u.runs[k]) == h;
      } else if h !in before.txns {
        var j :| 0 <= j < |s.runs| && Own(s.runs[j]) == h;
        assert j != k;
        assert Own(u.runs[j]) == h;
      }
    }
  }

  lemma WhoHasTheSlot(before: State, s: System, u: System, k: nat)
    requires SlotInv(before, s) && k < |s.runs| == |u.runs| && RunStep(s.e, s.runs[k], u.e, u.runs[k])
    requires forall j | 0 <= j < |s.runs| :: RunInv(s.e, s.runs[j]) && RunInv(u.e, u.runs[j])
    requires forall j | 0 <= j < |s.runs| && j != k :: u.runs[j] == s.runs[j]
    ensures SlotInv(before, u)
  {
    hide Occupies, Own, Consistent, RunInv;
    OneOccupies(s.e, u.e, s.runs, u.runs, k);
    forall j | 0 <= j < |u.runs| && Occupies(u.runs[j])
      ensures before.writer.Free? && !u.e.writer.Free?
    {
      OccupiedIsTaken(u.e, u.runs[j]);
      if j == k && !Occupies(s.runs[k]) {
        NoneWhenFree(s);
      } else {
        assert Occupies(s.runs[j]);
      }
    }
    if forall j | 0 <= j < |u.runs| :: !Occupies(u.runs[j]) {
      if Occupies(s.runs[k]) {
        assert before.writer.Free? && u.e.writer.Free?;
      } else {
        assert forall j | 0 <= j < |s.runs| && j != k :: u.runs[j] == s.runs[j];
        forall j | 0 <= j < |s.runs|
          ensures !Occupies(s.runs[j])
        {
          assert j != k ==> !Occupies(u.runs[j]);
        }
      }
    }
  }

  lemma NoneWhenFree(s: System)
    requires s.e.writer.Free? && forall j | 0 <= j < |s.runs| :: RunInv(s.e, s.runs[j])
    ensures forall j | 0 <= j < |s.runs| :: !Occupies(s.runs[j])
  {
    hide RunInv, Occupies;
    forall j | 0 <= j < |s.runs|
      ensures !Occupies(s.runs[j])
    {
      if Occupies(s.runs[j]) { OccupiedIsTaken(s.e, s.runs[j]); }
    }
  }

  lemma OneOccupies(e: State, e': State, runs: seq<Run>, runs': seq<Run>, k: nat)
    requires k < |runs| == |runs'| && RunStep(e, runs[k], e', runs'[k])
    requires forall j | 0 <= j < |runs| :: RunInv(e, runs[j])
    requires forall j | 0 <= j < |runs| && j != k :: runs'[j] == runs[j]
    requires forall i, j | 0 <= i < j < |runs| && Occupies(runs[i]) :: !Occupies(runs[j])
    ensures forall i, j | 0 <= i < j < |runs| && Occupies(runs'[i]) :: !Occupies(runs'[j])
  {
    hide Occupies, RunInv, Consistent;
    if Occupies(runs'[k]) && !Occupies(runs[k]) {
      NoneWhenFree(System(e, runs));
    }
    forall i, j | 0 <= i < j < |runs| && Occupies(runs'[i])
      ensures !Occupies(runs'[j])
    {
      if i != k && j != k {
        assert Occupies(runs[i]);
      } else if j == k {
        assert Occupies(runs[i]);
      } else {
        assert runs'[j] == runs[j];
      }
    }
  }

  lemma OccupiedIsTaken(e: State, r: Run)
    requires RunInv(e, r) && Occupies(r)
    ensures !e.writer.Free?
  {
  }

  /** The slot is as before exactly when no run occupies it. */
  lemma SlotOf(before: State, s: System)
    requires SystemInv(before, s)
    ensures s.e.writer == before.writer <==> forall i | 0 <= i < |s.runs| :: !Occupies(s.runs[i])
  {
    hide Occupies, RunInv, Consistent;
  }

  lemma OneAtATime(before: State, s: System)
    requires SlotInv(before, s)
    ensures forall i, j | 0 <= i < j < |s.runs| && Occupies(s.runs[i]) :: !Occupies(s.runs[j])
  {
  }

  lemma TakeKeepsInv(before: State, s: System, t: Turn)
    requires SystemInv(before, s) && LawfulTurn(s, t)
    ensures SystemInv(before, Take(s, t)) && |Take(s, t).runs| == |s.runs|
    ensures forall j | 0 <= j < |s.runs| :: Take(s, t).runs[j].kind == s.runs[j].kind
    ensures SafeTurn(s, t) <==> t.i < |s.runs| ==> !Reuses(s.runs[t.i], t.input)
  {
    hide Advance, CallOf, Consistent, HandlesLive, Allowed, Next, RunInv, Own, Occupies, SlotInv, Reuses;
    if t.i < |s.runs| {
      var u := Take(s, t);
      assert RunInv(s.e, s.runs[t.i]);
      TurnOfRun(s.e, s.runs[t.i], t.input);
      assert u.e == EngineAfter(s.e, s.runs[t.i], t.input) && u.runs == s.runs[t.i := u.runs[t.i]];
      hide Take;
      OneAtATime(before, s);
      AllKeepInv(s, u, t.i);
      TxnsAreDistinct(s.runs, u.runs, t.i);
      WhoIsLive(before, s, u, t.i);
      WhoHasTheSlot(before, s, u, t.i);
    }
  }

  // ------------------------------------------------------------------ every interleaving

  /** In every interleaving, under any answers the engine may give, the account is kept, and no consumed handle
      is passed exactly when no run asks again after a refusal that consumed its handle. */
  lemma {:induction false} InterleavingsKeepInv(before: State, s: System, turns: seq<Turn>)
    requires SystemInv(before, s) && LawfulRun(s, turns)
    ensures SystemInv(before, FinalSystem(s, turns)) && |FinalSystem(s, turns).runs| == |s.runs|
    ensures forall j | 0 <= j < |s.runs| :: FinalSystem(s, turns).runs[j].kind == s.runs[j].kind
    ensures SafeTurns(s, turns) <==> NoReuse(s, turns)
    decreases |turns|
  {
    hide SystemInv, Take, LawfulTurn, SafeTurn, Reuses;
    if turns != [] {
      TakeKeepsInv(before, s, turns[0]);
      InterleavingsKeepInv(before, Take(s, turns[0]), turns[1..]);
    }
  }

  ghost predicate StartOf(s: System, kinds: seq<Kind>) {
    && Consistent(s.e) && s.e.open && |s.runs| == |kinds|
    && forall i | 0 <= i < |kinds| :: s.runs[i] == Fresh(kinds[i])
  }

  lemma StartHasInv(s: System, kinds: seq<Kind>)
    requires StartOf(s, kinds)
    ensures SystemInv(s.e, s)
  {
    hide Consistent;
  }

  /** Readers: `View`, `read`, and queries the engine reports as non-writing. */
  predicate Reader(k: Kind) {
    ModeOf(k).ReadOnly?
  }

  /** In every interleaving, a writer slot that is not as it was at the start was free then and is kept by exactly one
      run, which is not a reader; no reader ever asks for it. */
  lemma WriterIsAWritingRun(s: System, kinds: seq<Kind>, turns: seq<Turn>)
    requires StartOf(s, kinds) && LawfulRun(s, turns)
    ensures var f := FinalSystem(s, turns);
            f.e.writer == s.e.writer ||
            (s.e.writer.Free? && exists i | 0 <= i < |f.runs| ::
              && Occupies(f.runs[i]) && !Reader(f.runs[i].kind)
              && (f.e.writer == Lost || f.e.writer == HeldBy(f.runs[i].txn))
              && forall j | 0 <= j < |f.runs| && j != i :: !Occupies(f.runs[j]))
    ensures forall r: Run, input :: Reader(r.kind) ==> Begin(ReadWrite) !in CallOf(r, input)
  {
    hide SystemInv, FinalSystem, LawfulRun, StartOf;
    StartHasInv(s, kinds);
    InterleavingsKeepInv(s.e, s, turns);
    if FinalSystem(s, turns).e.writer != s.e.writer {
      WriterOf(s.e, FinalSystem(s, turns));
    }
    ReadersBeginReading();
  }

  lemma ReadersBeginReading()
    ensures forall r: Run, input :: Reader(r.kind) ==> Begin(ReadWrite) !in CallOf(r, input)
  {
  }

  lemma WriterOf(before: State, f: System)
    requires SystemInv(before, f) && f.e.writer != before.writer
    ensures before.writer.Free?
    ensures exists i | 0 <= i < |f.runs| ::
              && Occupies(f.runs[i]) && !Reader(f.runs[i].kind)
              && (f.e.writer == Lost || f.e.writer == HeldBy(f.runs[i].txn))
              && forall j | 0 <= j < |f.runs| && j != i :: !Occupies(f.runs[j])
  {
    hide ModeOf, Consistent;
    var i :| 0 <= i < |f.runs| && Occupies(f.runs[i]);
    assert RunInv(f.e, f.runs[i]);
    forall j | 0 <= j < |f.runs| && j != i
      ensures !Occupies(f.runs[j])
    {
    }
  }

  /** Once every run is over, the live transactions are those from the start exactly when no run had the last commit
      or rollback it asked for refused with its handle kept, or panicked before it asked; and the writer slot is as at
      the start exactly when every run that began to write, or tried and left a writer behind, had its ending
      granted. */
  lemma FinishedRunsLeaveNothing(s: System, kinds: seq<Kind>, turns: seq<Turn>)
    requires StartOf(s, kinds) && LawfulRun(s, turns)
    requires forall r | r in FinalSystem(s, turns).runs :: Over(r)
    ensures var f := FinalSystem(s, turns);
            && (f.e.txns == s.e.txns <==> forall i | 0 <= i < |f.runs| :: !Leaves(f.runs[i]))
            && (f.e.writer == s.e.writer <==>
                forall i | 0 <= i < |f.runs| ::
                  || Reader(f.runs[i].kind) || f.runs[i].last.Granted?
                  || (f.runs[i].txn == 0 && !f.runs[i].last.Consumed?))
  {
    StartHasInv(s, kinds);
    InterleavingsKeepInv(s.e, s, turns);
    var f := FinalSystem(s, turns);
    forall i | 0 <= i < |f.runs|
      ensures Over(f.runs[i])
    {
      assert f.runs[i] in f.runs;
    }
    SlotOf(s.e, f);
    FinishedTxns(s.e, f);
  }

  /** The run was refused its last ending, its handle kept, or panicked in its body before asking for one. */
  predicate Leaves(r: Run) {
    r.last.Kept? || (r.pc.Unwound? && r.last.NotAsked? && r.txn != 0)
  }

  lemma FinishedTxns(before: State, f: System)
    requires SystemInv(before, f) && forall i | 0 <= i < |f.runs| :: Over(f.runs[i])
    ensures f.e.txns == before.txns <==> forall i | 0 <= i < |f.runs| :: !Leaves(f.runs[i])
  {
    hide ModeOf, Consistent, SlotInv, Occupies;
    if forall i | 0 <= i < |f.runs| :: !Leaves(f.runs[i]) {
      forall i | 0 <= i < |f.runs|
        ensures Own(f.runs[i]) == 0
      {
        assert RunInv(f.e, f.runs[i]);
      }
      assert 0 !in f.e.txns by { ZeroIsNoHandle(f.e); }
      assert f.e.txns.Keys == before.txns.Keys;
      assert f.e.txns == before.txns;
    } else {
      var i :| 0 <= i < |f.runs| && Leaves(f.runs[i]);
      assert RunInv(f.e, f.runs[i]);
      assert f.runs[i].txn in f.e.txns && f.runs[i].txn !in before.txns;
    }
  }

  lemma ZeroIsNoHandle(e: State)
    requires Consistent(e)
    ensures 0 !in e.txns
  {
  }

  // ------------------------------------------------------------------ on the engine as it is built

  predicate AsBuiltTurn(s: System, t: Turn) {
    t.i < |s.runs| ==> forall c | c in CallOf(s.runs[t.i], t.input) :: AsBuilt(s.e, c, AnswerOf(t.input))
  }

  predicate AsBuiltTurns(s: System, turns: seq<Turn>)
    decreases |turns|
  {
    turns != [] ==> AsBuiltTurn(s, turns[0]) && AsBuiltTurns(Take(s, turns[0]), turns[1..])
  }

  /** Runs whose last call can be a commit that nothing follows. */
  predicate CommitsLast(k: Kind) {
    k.GoUpdate? || ((k.GoQuery? || k.PyQuery?) && k.writes)
  }

  predicate KeptInv(r: Run) {
    && (r.last.Kept? ==>
          if r.pc.Done? then CommitsLast(r.kind) else r.pc.Unwound? || (r.w.handle == r.txn && r.w.phase.Active?))
    && (r.pc == Ending1(DoCommitIt) ==> CommitsLast(r.kind) || RollsBackFailedCommit(r.kind))
  }

  lemma TurnKeepsKept(e: State, r: Run, input: Input)
    requires RunInv(e, r) && Consistent(e) && KeptInv(r)
    requires forall c | c in CallOf(r, input) :: Allowed(e, c, AnswerOf(input)) && AsBuilt(e, c, AnswerOf(input))
    ensures KeptInv(Advance(r, input))
  {
    var calls := CallOf(r, input);
    assert calls != [] ==> calls[0] in calls;
    hide Consistent;
  }

  lemma {:induction false} TurnsKeepKept(before: State, s: System, turns: seq<Turn>)
    requires SystemInv(before, s) && LawfulRun(s, turns) && AsBuiltTurns(s, turns)
    requires forall i | 0 <= i < |s.runs| :: KeptInv(s.runs[i])
    ensures var f := FinalSystem(s, turns);
            |f.runs| == |s.runs| && forall i | 0 <= i < |f.runs| :: KeptInv(f.runs[i])
    decreases |turns|
  {
    hide KeptInv, Advance, CallOf, Allowed, AsBuilt, Next, RunInv, Consistent, Own, Occupies, SlotInv;
    if turns != [] {
      var t := turns[0];
      TakeKeepsInv(before, s, t);
      if t.i < |s.runs| {
        assert RunInv(s.e, s.runs[t.i]);
        TurnKeepsKept(s.e, s.runs[t.i], t.input);
        assert Take(s, t).runs == s.runs[t.i := Advance(s.runs[t.i], t.input)];
        forall i | 0 <= i < |s.runs|
          ensures KeptInv(Take(s, t).runs[i])
        {
          assert i != t.i ==> Take(s, t).runs[i] == s.runs[i];
        }
      }
      var next := Take(s, t);
      assert |next.runs| == |s.runs|;
      TurnsKeepKept(before, next, turns[1..]);
    }
  }

  /** On the engine as built, only two kinds of run can end with their transaction still live: `Update` and writing
      queries of Go and Python, after a refused commit, and Go runs whose body panicked. `with` blocks and everything
      of TypeScript leave none. */
  lemma WhoLeavesATransaction(s: System, kinds: seq<Kind>, turns: seq<Turn>, i: nat)
    requires StartOf(s, kinds) && LawfulRun(s, turns) && AsBuiltTurns(s, turns)
    requires i < |FinalSystem(s, turns).runs| && Over(FinalSystem(s, turns).runs[i])
    requires FinalSystem(s, turns).runs[i].txn in FinalSystem(s, turns).e.txns
    ensures var r := FinalSystem(s, turns).runs[i];
            (CommitsLast(r.kind) && r.last.Kept?) || (LangOf(r.kind).Go? && r.pc.Unwound?)
  {
    StartHasInv(s, kinds);
    InterleavingsKeepInv(s.e, s, turns);
    TurnsKeepKept(s.e, s, turns);
    ZeroIsNoHandle(FinalSystem(s, turns).e);
    assert RunInv(FinalSystem(s, turns).e, FinalSystem(s, turns).runs[i]);
  }

  // ------------------------------------------------------------------ what one run asks for

  /** Runs that commit when their body ends well. */
  predicate CommitsWell(k: Kind) {
    k in {GoUpdate, TsWrite, GoQuery(true), PyQuery(true), TsQuery(true)}
  }

  /** Right after the body, a transaction still active is committed exactly when the body ended well and the run is an
      `Update`, a `write` or a writing query; in every other case it is rolled back. */
  lemma EndingAsked(r: Run, ok: bool, a: Answer)
    requires r.pc.Body? && r.w == Wrapper(r.txn, Active) && r.txn != 0
    ensures CallOf(r, BodyEnds(ok)) == []
    ensures var calls := CallOf(Advance(r, BodyEnds(ok)), Proceed(a));
            if ok && r.kind in {GoUpdate, TsWrite, GoQuery(true), PyQuery(true), TsQuery(true)}
            then calls == [Commit(r.txn)]
            else calls == [Rollback(r.txn)]
  {
  }

  /** After a refused commit, `write` and TypeScript queries ask for a rollback, and every other run is over. */
  lemma AfterRefusedCommit(r: Run, a: Answer, b: Answer)
    requires r.pc == Ending1(DoCommitIt) && r.w == Wrapper(r.txn, Active) && r.txn != 0 && a != Ok
    ensures var next := Advance(r, Proceed(a));
            if r.kind == TsWrite || r.kind.TsQuery? then CallOf(next, Proceed(b)) == [Rollback(r.txn)] && !next.pc.Done?
            else next.pc.Done? && CallOf(next, Proceed(b)) == []
  {
  }

  /** A callback can end the transaction only where there is one: in `View`, `Update`, `read`, `write` and `with`; only
      a Go run is cut short by a panic. */
  lemma CallbacksAndPanics(r: Run, a: Answer)
    requires r.pc.Body? && r.w == Wrapper(r.txn, Active) && r.txn != 0
    ensures var callback := r.kind in {GoView, GoUpdate, TsRead, TsWrite, PyWith(true), PyWith(false)};
            && CallOf(r, CallbackEnds(DoCommitIt, a)) == (if callback then [Commit(r.txn)] else [])
            && CallOf(r, CallbackEnds(DoRollbackIt, a)) == (if callback then [Rollback(r.txn)] else [])
    ensures Advance(r, BodyPanics).pc.Unwound? <==>
            r.kind in {GoView, GoUpdate, GoQuery(true), GoQuery(false)}
  {
  }

  function RunAfter(r: Run, ins: seq<Input>): Run
    decreases |ins|
  {
    if ins == [] then r else RunAfter(Advance(r, ins[0]), ins[1..])
  }

  /** The engine calls of one run, given what happens to it. */
  function RunCalls(r: Run, ins: seq<Input>): seq<Call>
    decreases |ins|
  {
    if ins == [] then [] else CallOf(r, ins[0]) + RunCalls(Advance(r, ins[0]), ins[1..])
  }

  /** How the body ended, if it did. */
  function BodySaid(r: Run, ins: seq<Input>): Option<bool>
    decreases |ins|
  {
    if ins == [] then None
    else if r.pc.Body? && ins[0].BodyEnds? then Some(ins[0].ok)
    else BodySaid(Advance(r, ins[0]), ins[1..])
  }

  /** The callback leaves the ending to the run. */
  predicate Quiet(ins: seq<Input>) {
    forall k | 0 <= k < |ins| :: !ins[k].CallbackEnds?
  }

  lemma {:induction false} OverIsSilent(r: Run, ins: seq<Input>)
    requires Over(r)
    ensures RunCalls(r, ins) == [] && RunAfter(r, ins) == r && BodySaid(r, ins) == None
    decreases |ins|
  {
    if ins != [] { OverIsSilent(r, ins[1..]); }
  }

  /** The calls that resolve transaction `h`: TypeScript queries and `write` may follow a commit by a rollback. */
  ghost predicate Resolved(k: Kind, h: nat, commits: bool, calls: seq<Call>) {
    if commits then calls == [Commit(h)] || ((k.TsQuery? || k.TsWrite?) && calls == [Commit(h), Rollback(h)])
    else calls == [Rollback(h)]
  }

  lemma {:induction false} RollbackFollows(r: Run, ins: seq<Input>)
    requires r.pc.Ending2? && r.w == Wrapper(r.txn, Active) && r.txn != 0
    ensures var calls := RunCalls(r, ins);
            if Over(RunAfter(r, ins)) then calls == [Rollback(r.txn)] else calls == []
    ensures !RunAfter(r, ins).pc.Unwound?
    decreases |ins|
  {
    hide EndWrapper, AfterAnswer;
    if ins != [] {
      if ins[0].Proceed? { OverIsSilent(Advance(r, ins[0]), ins[1..]); } else { RollbackFollows(r, ins[1..]); }
    }
  }

  lemma {:induction false} EndingFollows(r: Run, ins: seq<Input>)
    requires r.pc.Ending1? && r.w == Wrapper(r.txn, Active) && r.txn != 0
    ensures var calls := RunCalls(r, ins);
            if Over(RunAfter(r, ins)) then Resolved(r.kind, r.txn, r.pc.e == DoCommitIt, calls)
            else calls == [] || (r.pc.e == DoCommitIt && calls == [Commit(r.txn)])
    ensures !RunAfter(r, ins).pc.Unwound?
    decreases |ins|
  {
    hide AfterAnswer, LangOf;
    if ins != [] {
      var next := Advance(r, ins[0]);
      if !ins[0].Proceed? {
        EndingFollows(r, ins[1..]);
      } else if next.pc.Ending2? {
        assert next.w == r.w && CallOf(r, ins[0]) == [Commit(r.txn)];
        RollbackFollows(next, ins[1..]);
      } else {
        OverIsSilent(next, ins[1..]);
      }
    }
  }

  lemma {:induction false} BodyFollows(r: Run, ins: seq<Input>)
    requires r.pc.Body? && r.w == Wrapper(r.txn, Active) && r.txn != 0 && Quiet(ins)
    ensures var (calls, f, said) := (RunCalls(r, ins), RunAfter(r, ins), BodySaid(r, ins));
            if f.pc.Done? then said.Some? && Resolved(r.kind, r.txn, said.value && CommitsWell(r.kind), calls)
            else calls == [] || (said == Some(true) && CommitsWell(r.kind) && calls == [Commit(r.txn)])
    ensures RunAfter(r, ins).pc.Unwound? ==> RunCalls(r, ins) == [] && BodySaid(r, ins) == None
    decreases |ins|
  {
    hide Resolved;
    if ins != [] {
      var next := Advance(r, ins[0]);
      QuietRest(ins);
      if ins[0].BodyEnds? {
        EndingFollows(next, ins[1..]);
        assert CallOf(r, ins[0]) == [] && RunCalls(r, ins) == RunCalls(next, ins[1..]);
        assert next.pc.e == DoCommitIt <==> ins[0].ok && CommitsWell(r.kind);
      } else if Over(next) {
        OverIsSilent(next, ins[1..]);
      } else {
        assert CallOf(r, ins[0]) == [] && RunCalls(r, ins) == RunCalls(r, ins[1..]);
        BodyFollows(r, ins[1..]);
      }
    }
  }

  lemma QuietRest(ins: seq<Input>)
    requires Quiet(ins) && ins != []
    ensures !ins[0].CallbackEnds? && Quiet(ins[1..])
  {
  }

  /** A run that has begun begins no more, and without a handle it asks for nothing. */
  lemma {:induction false} KeepsTxn(r: Run, ins: seq<Input>)
    requires !r.pc.Waiting?
    ensures RunAfter(r, ins).txn == r.txn && !RunAfter(r, ins).pc.Waiting?
    ensures r.w.handle == 0 ==> RunCalls(r, ins) == []
    decreases |ins|
  {
    hide AfterAnswer, LangOf, EndingOf;
    if ins != [] { KeepsTxn(Advance(r, ins[0]), ins[1..]); }
  }

  /** A run whose callback leaves the ending to it begins once, in write mode exactly for an `Update`, a `write` and
      what writes, and then resolves what it began as its body ended: with a commit exactly when the body ended well
      and the run is an `Update`, a `write` or a writing query, with a rollback otherwise. A panicking Go body gets
      neither. */
  lemma {:induction false} EndsAsItsBodyDid(k: Kind, ins: seq<Input>)
    requires Quiet(ins)
    ensures var (calls, f, said) := (RunCalls(Fresh(k), ins), RunAfter(Fresh(k), ins), BodySaid(Fresh(k), ins));
            var writers := {GoUpdate, TsWrite, GoQuery(true), PyQuery(true), PyWith(true), TsQuery(true)};
            var begin := Begin(if k in writers then ReadWrite else ReadOnly);
            var commits := said == Some(true) && CommitsWell(k);
            if f.pc.Waiting? then calls == []
            else if f.txn == 0 || f.pc.Unwound? then calls == [begin]
            else if f.pc.Done? then
              said.Some? && calls != [] && calls[0] == begin && Resolved(k, f.txn, commits, calls[1..])
            else calls == [begin] || (commits && calls == [begin, Commit(f.txn)])
    decreases |ins|
  {
    hide Resolved;
    if ins != [] {
      var r, next := Fresh(k), Advance(Fresh(k), ins[0]);
      QuietRest(ins);
      if !ins[0].Proceed? {
        assert CallOf(r, ins[0]) == [] && RunCalls(r, ins) == RunCalls(r, ins[1..]);
        EndsAsItsBodyDid(k, ins[1..]);
      } else {
        var rest := RunCalls(next, ins[1..]);
        assert CallOf(r, ins[0]) == [Begin(ModeOf(k))] && RunCalls(r, ins) == [Begin(ModeOf(k))] + rest;
        assert ([Begin(ModeOf(k))] + rest)[1..] == rest;
        KeepsTxn(next, ins[1..]);
        if ins[0].a.OkTxn? && ins[0].a.handle != 0 {
          BodyFollows(next, ins[1..]);
        } else {
          assert next.w.handle == 0;
        }
      }
    }
  }

  /** What happens to run `i` in an interleaving, and the engine calls it makes there. */
  function InputsOf(turns: seq<Turn>, i: nat): seq<Input>
    decreases |turns|
  {
    if turns == [] then []
    else (if turns[0].i == i then [turns[0].input] else []) + InputsOf(turns[1..], i)
  }

  function CallsBy(s: System, turns: seq<Turn>, i: nat): seq<Call>
    decreases |turns|
  {
    if turns == [] then []
    else
      (if turns[0].i == i < |s.runs| then CallOf(s.runs[i], turns[0].input) else [])
      + CallsBy(Take(s, turns[0]), turns[1..], i)
  }

  /** However the runs are interleaved, each goes through what its own inputs make of it, with just those calls. */
  lemma {:induction false} EachRunByItself(s: System, turns: seq<Turn>, i: nat)
    requires i < |s.runs|
    ensures |FinalSystem(s, turns).runs| == |s.runs|
    ensures FinalSystem(s, turns).runs[i] == RunAfter(s.runs[i], InputsOf(turns, i))
    ensures CallsBy(s, turns, i) == RunCalls(s.runs[i], InputsOf(turns, i))
    decreases |turns|
  {
    hide Advance, CallOf, Next;
    if turns != [] {
      var t, rest := turns[0], InputsOf(turns[1..], i);
      EachRunByItself(Take(s, t), turns[1..], i);
      if t.i == i {
        assert InputsOf(turns, i) == [t.input] + rest && ([t.input] + rest)[1..] == rest;
      } else {
        assert InputsOf(turns, i) == [] + rest == rest;
        assert CallsBy(s, turns, i) == [] + CallsBy(Take(s, t), turns[1..], i) == CallsBy(Take(s, t), turns[1..], i);
      }
    }
  }

  /** So in every interleaving a run whose callback leaves the ending to it commits only if its body ended well and
      it is an `Update`, a `write` or a writing query, and once it is over has then asked to commit. */
  lemma CommitsExactlyWhenWell(s: System, kinds: seq<Kind>, turns: seq<Turn>, i: nat)
    requires StartOf(s, kinds) && i < |kinds| && Quiet(InputsOf(turns, i))
    ensures |FinalSystem(s, turns).runs| == |kinds|
    ensures var (calls, said) := (CallsBy(s, turns, i), BodySaid(Fresh(kinds[i]), InputsOf(turns, i)));
            var r := FinalSystem(s, turns).runs[i];
            && (r.txn != 0 && Commit(r.txn) in calls ==>
                  said == Some(true) && kinds[i] in {GoUpdate, TsWrite, GoQuery(true), PyQuery(true), TsQuery(true)})
            && (forall h | Commit(h) in calls || Rollback(h) in calls :: h == r.txn)
            && (r.pc.Done? && r.txn != 0 ==>
                  (Commit(r.txn) in calls <==>
                   said == Some(true) && kinds[i] in {GoUpdate, TsWrite, GoQuery(true), PyQuery(true), TsQuery(true)}))
  {
    hide RunCalls, RunAfter, BodySaid, InputsOf, CallsBy, FinalSystem, Consistent;
    EachRunByItself(s, turns, i);
    EndsAsItsBodyDid(kinds[i], InputsOf(turns, i));
    var calls := CallsBy(s, turns, i);
    assert calls != [] ==> calls == [calls[0]] + calls[1..];
    assert forall c :: calls != [] ==> (c in calls <==> c == calls[0] || c in calls[1..]);
  }

  // ------------------------------------------------------------------ queries, seen twice

  /** The calls a query makes from its first ending step on are those `Lifecycle` lists for it. */
  lemma QueriesEndAlike(r: Run, bodyOk: bool, a: Answer, b: Answer)
    requires r.kind.GoQuery? || r.kind.PyQuery? || r.kind.TsQuery?
    requires r.w == Wrapper(r.txn, Active) && r.txn != 0 && r.pc == Ending1(EndingOf(r.kind, bodyOk))
    ensures var next := Advance(r, Proceed(a));
            var second := CallOf(next, Proceed(b));
            var ending := L.Ending(LangOf(r.kind), r.txn, bodyOk && r.kind.writes, a, b);
            && CallOf(r, Proceed(a)) == [ending[0].call] && ending[0].answer == a
            && (next.pc.Done? <==> |ending| == 1)
            && (|ending| == 2 ==> second == [ending[1].call] && ending[1].answer == b)
  {
  }
}
