/** The wrapper objects themselves: their fields, their guards and the order in which they call the
    engine and update those fields. Each method is tied to the step of `Lifecycle` it takes. */
module Wrappers {
  import opened Languages
  import opened Engine
  import opened Lifecycle

  /** The loaded native library. Its answers are arbitrary among those the engine may give. */
  class Native {
    var e: State
    var log: seq<Made>
    const script: nat -> Answer

    constructor (script: nat -> Answer)
      ensures e == OPENED && log == []
    {
      this.script := script;
      e, log := OPENED, [];
    }

    method Invoke(c: Call) returns (a: Answer)
      modifies this
      ensures Allowed(old(e), c, a)
      ensures e == Next(old(e), c, a) && log == old(log) + [Made(c, a)]
    {
      a := script(|log|);
      if !Allowed(e, c, a) {
        a := if !c.Close? then Refused(false) else if e.open && e.txns == map[] then Ok else InvalidArg;
      }
      e, log := Next(e, c, a), log + [Made(c, a)];
    }
  }

  /** The call a method makes, if it gets that far. */
  function When(yes: bool, c: Call, a: Answer): seq<Made> {
    if yes then [Made(c, a)] else []
  }

  /** Go: `tx.raw` and `tx.active`; both endings clear both. */
  class GoTx {
    var raw: nat
    var active: bool
    ghost var ending: Phase

    ghost predicate Valid()
      reads this
    {
      !active ==> !ending.Active?
    }

    ghost function View(): Wrapper
      reads this
    {
      Wrapper(raw, if active then Active else ending)
    }

    constructor (handle: nat)
      ensures Valid() && View() == Wrapper(handle, Active)
    {
      raw, active, ending := handle, true, Active;
    }

    method CommitTx(n: Native) returns (failed: bool, ghost a: Answer)
      requires Valid()
      modifies this, n
      ensures Valid() && View() == AfterCommit(old(View()), a)
      ensures n.log == old(n.log) + When(CommitCalls(old(View())), Commit(old(raw)), a)
      ensures failed <==> !CommitCalls(old(View())) || !a.Ok?
      ensures n.e == if CommitCalls(old(View())) then Next(old(n.e), Commit(old(raw)), a) else old(n.e)
      ensures CommitCalls(old(View())) <==> old(active) && old(raw) != 0
      ensures old(active) && old(raw) != 0 && a.Ok? ==> raw == 0 && !active && ending == Committed && !failed
      ensures failed ==> raw == old(raw) && active == old(active)
    {
      a := Refused(false);
      if !active || raw == 0 {
        return true, a;  // ErrInactiveTx
      }
      var code := n.Invoke(Commit(raw));
      a, failed := code, !code.Ok?;
      if !failed {
        raw, active := 0, false;
        ending := Committed;
      }
    }

    method RollbackTx(n: Native) returns (failed: bool, ghost a: Answer)
      requires Valid()
      modifies this, n
      ensures Valid() && View() == AfterRollback(Go, old(View()), a)
      ensures n.log == old(n.log) + When(RollbackCalls(old(View())), Rollback(old(raw)), a)
      ensures failed <==> RollbackCalls(old(View())) && !a.Ok?
      ensures n.e == if RollbackCalls(old(View())) then Next(old(n.e), Rollback(old(raw)), a) else old(n.e)
      ensures RollbackCalls(old(View())) <==> old(active) && old(raw) != 0
      ensures old(active) && old(raw) != 0 && a.Ok? ==> raw == 0 && !active && ending == RolledBack && !failed
      ensures failed || old(!active || raw == 0) ==> raw == old(raw) && active == old(active)
    {
      a := Refused(false);
      if !active || raw == 0 {
        return false, a;
      }
      var code := n.Invoke(Rollback(raw));
      a, failed := code, !code.Ok?;
      if !failed {
        raw, active := 0, false;
        ending := RolledBack;
      }
    }
  }

  /** Python and TypeScript keep the same three fields and differ only in `rollback`. */
  class FlaggedTx {
    var handle: nat
    var committed: bool
    var rolledBack: bool

    predicate Valid()
      reads this
    {
      !(committed && rolledBack)
    }

    function View(): Wrapper
      reads this
    {
      Wrapper(handle, if committed then Committed else if rolledBack then RolledBack else Active)
    }

    constructor (handle: nat)
      ensures Valid() && View() == Wrapper(handle, Active)
    {
      this.handle := handle;
      committed, rolledBack := false, false;
    }

    /** `raised`: already committed, already rolled back, not started, or refused by the engine. */
    method CommitTx(n: Native) returns (raised: bool, ghost a: Answer)
      requires Valid()
      modifies this, n
      ensures Valid() && View() == AfterCommit(old(View()), a)
      ensures n.log == old(n.log) + When(CommitCalls(old(View())), Commit(old(handle)), a)
      ensures raised <==> !CommitCalls(old(View())) || !a.Ok?
      ensures n.e == if CommitCalls(old(View())) then Next(old(n.e), Commit(old(handle)), a) else old(n.e)
      ensures CommitCalls(old(View())) <==> old(!committed && !rolledBack && handle != 0)
      ensures !raised ==> old(!committed && !rolledBack && handle != 0) && committed && !rolledBack && handle == 0
      ensures raised ==> committed == old(committed) && rolledBack == old(rolledBack) && handle == old(handle)
    {
      a := Refused(false);
      if committed || rolledBack || handle == 0 {
        return true, a;
      }
      var code := n.Invoke(Commit(handle));
      a := code;
      if !code.Ok? {
        return true, a;
      }
      handle, committed := 0, true;
      raised := false;
    }

    /** Python: the handle and the flag change before the answer is looked at. */
    method RollbackPython(n: Native) returns (raised: bool, ghost a: Answer)
      requires Valid()
      modifies this, n
      ensures Valid() && View() == AfterRollback(Python, old(View()), a)
      ensures n.log == old(n.log) + When(RollbackCalls(old(View())), Rollback(old(handle)), a)
      ensures raised <==> old(committed) || (RollbackCalls(old(View())) && !a.Ok?)
      ensures n.e == if RollbackCalls(old(View())) then Next(old(n.e), Rollback(old(handle)), a) else old(n.e)
      ensures RollbackCalls(old(View())) <==> old(!committed && !rolledBack && handle != 0)
      ensures committed == old(committed) && rolledBack == !committed
      ensures handle == if old(committed || rolledBack) then old(handle) else 0
    {
      a := Refused(false);
      if committed {
        return true, a;
      }
      if rolledBack {
        return false, a;
      }
      if handle == 0 {
        rolledBack := true;
        return false, a;
      }
      var code := n.Invoke(Rollback(handle));
      a := code;
      handle, rolledBack := 0, true;
      raised := !code.Ok?;
    }

    /** TypeScript: a refused rollback throws before any field changes. */
    method RollbackTypeScript(n: Native) returns (raised: bool, ghost a: Answer)
      requires Valid()
      modifies this, n
      ensures Valid() && View() == AfterRollback(TypeScript, old(View()), a)
      ensures n.log == old(n.log) + When(RollbackCalls(old(View())), Rollback(old(handle)), a)
      ensures raised <==> old(committed) || (RollbackCalls(old(View())) && !a.Ok?)
      ensures n.e == if RollbackCalls(old(View())) then Next(old(n.e), Rollback(old(handle)), a) else old(n.e)
      ensures RollbackCalls(old(View())) <==> old(!committed && !rolledBack && handle != 0)
      ensures RollbackCalls(old(View())) && !raised ==> !committed && rolledBack && handle == 0
      ensures raised || !RollbackCalls(old(View())) ==>
          committed == old(committed) && rolledBack == old(rolledBack) && handle == old(handle)
    {
      a := Refused(false);
      if committed {
        return true, a;
      }
      if rolledBack || handle == 0 {
        return false, a;
      }
      var code := n.Invoke(Rollback(handle));
      a := code;
      if !code.Ok? {
        return true, a;
      }
      handle, rolledBack := 0, true;
      raised := false;
    }
  }

  /** The database wrapper: open until a close that consumed the handle. */
  class Db {
    var held: bool

    constructor ()
      ensures held
    {
      held := true;
    }

    method CloseDb(n: Native) returns (failed: bool, ghost a: Answer)
      modifies this, n
      ensures held <==> old(held) && !CloseConsumes(a)
      ensures old(held) ==> (!held <==> a == Ok || a == IoError)
      ensures n.log == old(n.log) + When(old(held), Close, a)
      ensures n.e == if old(held) then Next(old(n.e), Close, a) else old(n.e)
      ensures failed <==> old(held) && !a.Ok?
    {
      a := Ok;
      if !held {
        return false, a;
      }
      var code := n.Invoke(Close);
      a := code;
      if code.Ok? || code.IoError? {
        held := false;
      }
      failed := !code.Ok?;
    }
  }

  // ------------------------------------------------------------------ one ending after another

  /** A client that ends a Python or TypeScript transaction and then ends it again. Once the engine has granted one
      ending, no other reaches it, and the second call is silent exactly when both are rollbacks. */
  method EndTwice(lang: Lang, tx: FlaggedTx, n: Native, commitFirst: bool, commitSecond: bool)
    returns (granted: bool, raised: bool)
    requires tx.Valid() && !lang.Go?
    modifies tx, n
    ensures granted ==> old(tx.handle != 0 && !tx.committed && !tx.rolledBack)
    ensures granted ==> tx.handle == 0 && tx.committed == commitFirst && tx.rolledBack == !commitFirst
    ensures granted ==>
        n.log == old(n.log) + [Made(if commitFirst then Commit(old(tx.handle)) else Rollback(old(tx.handle)), Ok)]
    ensures granted ==> (!raised <==> !commitFirst && !commitSecond)
    ensures !granted ==> n.log == old(n.log) || (|n.log| == |old(n.log)| + 1 && !n.log[|old(n.log)|].answer.Ok?)
  {
    ghost var a, b;
    var made := tx.handle != 0 && !tx.committed && !tx.rolledBack;
    raised, a := End(lang, tx, n, commitFirst);
    granted := made && !raised;
    if granted {
      raised, b := End(lang, tx, n, commitSecond);
    }
  }

  method End(lang: Lang, tx: FlaggedTx, n: Native, commits: bool) returns (raised: bool, ghost a: Answer)
    requires tx.Valid() && !lang.Go?
    modifies tx, n
    ensures tx.Valid()
    ensures old(tx.handle != 0 && !tx.committed && !tx.rolledBack) ==>
        n.log == old(n.log) + [Made(if commits then Commit(old(tx.handle)) else Rollback(old(tx.handle)), a)]
    ensures old(tx.handle != 0 && !tx.committed && !tx.rolledBack) ==>
        && (raised <==> !a.Ok?)
        && (!raised ==> tx.handle == 0 && tx.committed == commits && tx.rolledBack == !commits)
    ensures old(tx.handle == 0) ==> n.log == old(n.log)
    ensures old(tx.committed || tx.rolledBack) ==>
        && n.log == old(n.log) && tx.View() == old(tx.View())
        && (raised <==> commits || old(tx.committed))
        && tx.committed == old(tx.committed) && tx.rolledBack == old(tx.rolledBack)
  {
    if commits {
      raised, a := tx.CommitTx(n);
    } else if lang.Python? {
      raised, a := tx.RollbackPython(n);
    } else {
      raised, a := tx.RollbackTypeScript(n);
    }
  }

  /** The same of a Go transaction: after a granted ending a commit gives `ErrInactiveTx` and a rollback nothing. */
  method EndGoTwice(tx: GoTx, n: Native, commitFirst: bool, commitSecond: bool)
    returns (granted: bool, failed: bool)
    requires tx.Valid()
    modifies tx, n
    ensures granted ==> old(tx.active && tx.raw != 0) && !tx.active && tx.raw == 0
    ensures granted ==>
        n.log == old(n.log) + [Made(if commitFirst then Commit(old(tx.raw)) else Rollback(old(tx.raw)), Ok)]
    ensures granted ==> (failed <==> commitSecond)
    ensures !granted ==> n.log == old(n.log) || (|n.log| == |old(n.log)| + 1 && !n.log[|old(n.log)|].answer.Ok?)
  {
    var made := tx.active && tx.raw != 0;
    failed := EndGo(tx, n, commitFirst);
    granted := made && !failed;
    if granted {
      failed := EndGo(tx, n, commitSecond);
    }
  }

  method EndGo(tx: GoTx, n: Native, commits: bool) returns (failed: bool)
    requires tx.Valid()
    modifies tx, n
    ensures tx.Valid()
    ensures old(tx.active && tx.raw != 0) && failed ==>
        |n.log| == |old(n.log)| + 1 && !n.log[|old(n.log)|].answer.Ok?
    ensures old(tx.active && tx.raw != 0) && !failed ==>
        && n.log == old(n.log) + [Made(if commits then Commit(old(tx.raw)) else Rollback(old(tx.raw)), Ok)]
        && !tx.active && tx.raw == 0
    ensures old(!tx.active || tx.raw == 0) ==>
        && n.log == old(n.log) && tx.active == old(tx.active) && tx.raw == old(tx.raw) && (failed <==> commits)
  {
    ghost var a;
    if commits {
      failed, a := tx.CommitTx(n);
    } else {
      failed, a := tx.RollbackTx(n);
    }
  }
}
