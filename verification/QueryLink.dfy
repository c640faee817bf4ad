/** The same query seen twice: as the log `QueryRun` disciplines, and as the calls on handles that `Lifecycle` lists. */
module QueryLink {
  import opened Engine
  import L = Lifecycle
  import Q = QueryRun

  function AnswerIf(yes: bool, granted: Answer, refused: Answer): Answer {
    if yes then granted else refused
  }

  /** The call on a database or transaction handle that a logged call makes, if it makes one. `h` is the transaction
      begun; `commit` and `undo` are the refusals, if a commit or rollback was refused. */
  function CallsOf(e: Q.Event, h: nat, commit: Answer, undo: Answer): seq<Made> {
    match e.op
    case Prepare => [Made(UseDb, AnswerIf(e.yes, Ok, Refused(false)))]
    case BeginRead => [Made(Begin(ReadOnly), AnswerIf(e.yes, OkTxn(h), Refused(false)))]
    case BeginWrite => [Made(Begin(ReadWrite), AnswerIf(e.yes, OkTxn(h), Refused(false)))]
    case Execute => [Made(UseTxn(h), AnswerIf(e.yes, Ok, Refused(false)))]
    case CommitTxn => [Made(Commit(h), AnswerIf(e.yes, Ok, commit))]
    case RollbackTxn => [Made(Rollback(h), AnswerIf(e.yes, Ok, undo))]
    case _ => []
  }

  function Projected(log: seq<Q.Event>, h: nat, commit: Answer, undo: Answer): seq<Made> {
    if log == [] then []
    else Projected(log[..|log| - 1], h, commit, undo) + CallsOf(log[|log| - 1], h, commit, undo)
  }

  function ModeOf(u: Q.Use): Mode {
    if u.writes then ReadWrite else ReadOnly
  }

  /** The calls so far, as the state of a disciplined run tells them; `undone` answers the rollback, if there was
      one. */
  function Told(lang: Q.QueryLang, u: Q.Use, h: nat, commit: Answer, undone: Answer): seq<Made> {
    if u == Q.UNUSED then []
    else if u.query.Absent? then [Made(UseDb, Refused(false))]
    else if u.txn.Absent? then
      [Made(UseDb, Ok)] + if u.refused then [Made(Begin(ModeOf(u)), Refused(false))] else []
    else [Made(UseDb, Ok)] + ([Made(Begin(ModeOf(u)), OkTxn(h))] + ToldInside(lang, u, h, commit, undone))
  }

  function ToldInside(lang: Q.QueryLang, u: Q.Use, h: nat, commit: Answer, undone: Answer): seq<Made> {
    var rollback := if u.txn.Gone? then [Made(Rollback(h), undone)] else [];
    if u.result.Absent? && u.refused then [Made(UseTxn(h), Refused(false))] + rollback
    else if u.result.Absent? then rollback
    else if u.committed then [Made(UseTxn(h), Ok)] + [Made(Commit(h), Ok)]
    else if !u.refused then [Made(UseTxn(h), Ok)] + rollback
    else if lang.TypeScript? then [Made(UseTxn(h), Ok)] + ([Made(Commit(h), commit)] + rollback)
    else [Made(UseTxn(h), Ok)] + [Made(Commit(h), commit)]
  }

  /** What every state of a disciplined run satisfies besides. */
  predicate Sound(lang: Q.QueryLang, u: Q.Use) {
    && (u.query.Absent? ==> u == Q.UNUSED || u == Q.UNUSED.(refused := true))
    && (u.txn.Absent? ==> u.result.Absent? && !u.committed)
    && (u.committed ==> u.writes && u.result.Gone? && u.txn.Gone?)
    && (u.refused && !u.result.Absent? ==> u.writes && u.result.Gone? && !u.committed)
    && (u.txn.Gone? ==> u.refused || u.result.Gone?)
    && (lang.Python? && u.refused && !u.result.Absent? ==> u.txn.Gone?)
    && (!u.query.Absent? && (u.refused || u.writes || !u.txn.Absent?) ==> u.asked)
  }

  lemma StepSound(lang: Q.QueryLang, u: Q.Use, e: Q.Event)
    requires Sound(lang, u) && Q.Proper(lang, u, e).Fine?
    ensures Sound(lang, Q.Proper(lang, u, e).use) && Q.Proper(lang, u, e).use != Q.UNUSED
  {
    match e.op
    case Prepare =>
    case AskWrites =>
    case Execute =>
    case CommitTxn =>
    case RollbackTxn =>
    case _ =>
  }

  /** The account grows by the call made. */
  ghost predicate Grown(lang: Q.QueryLang, u: Q.Use, v: Q.Use, e: Q.Event, h: nat, commit: Answer, undo: Answer,
                        undone: Answer, undone': Answer) {
    Told(lang, v, h, commit, undone') == Told(lang, u, h, commit, undone) + CallsOf(e, h, commit, undo)
  }

  /** What `Told` looks at. */
  predicate Alike(u: Q.Use, v: Q.Use) {
    && u != Q.UNUSED && v != Q.UNUSED && u.txn == v.txn && u.refused == v.refused && u.committed == v.committed
    && u.result.Absent? == v.result.Absent? && u.query.Absent? == v.query.Absent?
    && (u.writes == v.writes || (u.txn.Absent? && !u.refused))
  }

  lemma AlikeTold(lang: Q.QueryLang, u: Q.Use, v: Q.Use, h: nat, commit: Answer, undone: Answer)
    requires Alike(u, v)
    ensures Told(lang, v, h, commit, undone) == Told(lang, u, h, commit, undone)
  {
  }

  lemma QuietAlike(lang: Q.QueryLang, u: Q.Use, e: Q.Event, h: nat, commit: Answer, undo: Answer)
    requires Sound(lang, u) && Q.Proper(lang, u, e).Fine? && CallsOf(e, h, commit, undo) == []
    ensures Alike(u, Q.Proper(lang, u, e).use)
  {
    match e.op
    case AskWrites =>
    case Bind =>
    case FreeResult =>
    case _ =>
  }

  lemma QuietTold(lang: Q.QueryLang, u: Q.Use, e: Q.Event, h: nat, commit: Answer, undo: Answer, undone: Answer)
    requires Sound(lang, u) && Q.Proper(lang, u, e).Fine? && CallsOf(e, h, commit, undo) == []
    ensures Grown(lang, u, Q.Proper(lang, u, e).use, e, h, commit, undo, undone, undone)
  {
    hide Q.Proper, Told, Sound, Alike;
    QuietAlike(lang, u, e, h, commit, undo);
    AlikeTold(lang, u, Q.Proper(lang, u, e).use, h, commit, undone);
  }

  lemma OpeningTold(lang: Q.QueryLang, u: Q.Use, e: Q.Event, h: nat, commit: Answer, undo: Answer, undone: Answer)
    requires Sound(lang, u) && Q.Proper(lang, u, e).Fine? && (e.op.Prepare? || e.op.BeginRead? || e.op.BeginWrite?)
    ensures Grown(lang, u, Q.Proper(lang, u, e).use, e, h, commit, undo, undone, undone)
  {
  }

  lemma InsideTold(lang: Q.QueryLang, u: Q.Use, e: Q.Event, h: nat, commit: Answer, undo: Answer, undone: Answer)
    returns (undone': Answer)
    requires Sound(lang, u) && Q.Proper(lang, u, e).Fine? && (e.op.Execute? || e.op.CommitTxn? || e.op.RollbackTxn?)
    ensures Grown(lang, u, Q.Proper(lang, u, e).use, e, h, commit, undo, undone, undone')
  {
    undone' := if e.op.RollbackTxn? then AnswerIf(e.yes, Ok, undo) else undone;
    var v := Q.Proper(lang, u, e).use;
    assert ToldInside(lang, v, h, commit, undone')
        == ToldInside(lang, u, h, commit, undone) + CallsOf(e, h, commit, undo);
    InsideGrows(lang, u, v, e, h, commit, undo, undone, undone');
  }

  lemma InsideGrows(lang: Q.QueryLang, u: Q.Use, v: Q.Use, e: Q.Event, h: nat, commit: Answer, undo: Answer,
                    undone: Answer, undone': Answer)
    requires !u.query.Absent? && !v.query.Absent? && !u.txn.Absent? && !v.txn.Absent? && u.writes == v.writes
    requires ToldInside(lang, v, h, commit, undone')
          == ToldInside(lang, u, h, commit, undone) + CallsOf(e, h, commit, undo)
    ensures Grown(lang, u, v, e, h, commit, undo, undone, undone')
  {
    hide ToldInside, CallsOf;
  }

  lemma StepTold(lang: Q.QueryLang, u: Q.Use, e: Q.Event, h: nat, commit: Answer, undo: Answer, undone: Answer)
    returns (undone': Answer)
    requires Sound(lang, u) && Q.Proper(lang, u, e).Fine?
    ensures Grown(lang, u, Q.Proper(lang, u, e).use, e, h, commit, undo, undone, undone')
  {
    hide Q.Proper, Grown, Sound;
    undone' := undone;
    if e.op.Prepare? || e.op.BeginRead? || e.op.BeginWrite? {
      OpeningTold(lang, u, e, h, commit, undo, undone);
    } else if e.op.Execute? || e.op.CommitTxn? || e.op.RollbackTxn? {
      undone' := InsideTold(lang, u, e, h, commit, undo, undone);
    } else {
      QuietTold(lang, u, e, h, commit, undo, undone);
    }
  }

  lemma {:induction false} LogTold(lang: Q.QueryLang, log: seq<Q.Event>, h: nat, commit: Answer, undo: Answer)
    returns (undone: Answer)
    requires Q.After(lang, log).Fine?
    ensures Sound(lang, Q.After(lang, log).use) && (log != [] ==> Q.After(lang, log).use != Q.UNUSED)
    ensures Projected(log, h, commit, undo) == Told(lang, Q.After(lang, log).use, h, commit, undone)
  {
    hide Q.Proper, Told, CallsOf, Sound;
    undone := Ok;
    if log == [] {
      NothingTold(lang, h, commit, undone);
    } else {
      var front := log[..|log| - 1];
      undone := LogTold(lang, front, h, commit, undo);
      StepSound(lang, Q.After(lang, front).use, log[|log| - 1]);
      undone := StepTold(lang, Q.After(lang, front).use, log[|log| - 1], h, commit, undo, undone);
    }
  }

  lemma NothingTold(lang: Q.QueryLang, h: nat, commit: Answer, undone: Answer)
    ensures Sound(lang, Q.UNUSED) && Told(lang, Q.UNUSED, h, commit, undone) == []
  {
  }

  /** The calls of any disciplined run, whichever of them were refused and how, are calls that `Lifecycle` counts with
      for `Database.query`. */
  lemma DisciplinedIsQuery(lang: Q.QueryLang, log: seq<Q.Event>, h: nat, commit: bool, undo: bool)
    returns (writes: bool, work: L.Work, answers: seq<Answer>)
    requires log != [] && Q.Disciplined(lang, log)
    ensures Projected(log, h, Refused(commit), Refused(undo)) == L.QueryCalls(lang, false, writes, work, answers)
  {
    var undone := LogTold(lang, log, h, Refused(commit), Refused(undo));
    writes, work, answers := ToldIsQuery(lang, Q.After(lang, log).use, h, Refused(commit), undone);
  }

  lemma ToldIsQuery(lang: Q.QueryLang, u: Q.Use, h: nat, commit: Answer, undone: Answer)
    returns (writes: bool, work: L.Work, answers: seq<Answer>)
    requires Sound(lang, u) && u != Q.UNUSED && !u.query.Live? && !u.txn.Live? && !u.result.Live? && !commit.Ok?
    ensures Told(lang, u, h, commit, undone) == L.QueryCalls(lang, false, writes, work, answers)
  {
    writes, work := u.writes, L.AllRead;
    if u.query.Absent? {
      answers := [Refused(false)];
    } else if u.txn.Absent? {
      work := if u.refused then L.AllRead else L.NotBound;
      answers := [Ok, Refused(false)];
    } else if u.result.Absent? {
      answers := [Ok, OkTxn(h), Refused(false), undone];
    } else if u.committed {
      answers := [Ok, OkTxn(h), Ok, Ok];
    } else if u.refused {
      answers := [Ok, OkTxn(h), Ok, commit, undone];
    } else {
      work, answers := L.RowsLost, [Ok, OkTxn(h), Ok, undone];
    }
  }
}
