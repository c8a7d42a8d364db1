/** sql: one transaction, and several run as one. */
module SqlTxs {
  import opened Util

  // ----- Errors -----

  /** What went wrong in an ErrTx. */
  datatype Typ = ErrBeginTx | ErrBeforeF | ErrExec | ErrAfterExec | ErrQuery | ErrAfterQuery | ErrUndefinedTy | ErrRollback | ErrCommit

  /** The error a database call or a callback gave: one of the sentinels HasErrTx looks for, or any other. */
  datatype Cause = BeginSentinel | CommitSentinel | RollbackSentinel | Other

  /** An ErrTx with the one before it, or any other error. */
  datatype Err = ErrTx(pre: Option<Err>, typ: Typ, cause: Cause) | Plain

  /** HasErrTx(e, ErrBeginTx, ErrCommit, ErrRollback) */
  predicate Settled(e: Err) {
    match e
    case Plain => false
    case ErrTx(pre, typ, cause) => typ.ErrBeginTx? || typ.ErrCommit? || typ.ErrRollback? || cause != Other
                                   || (pre.Some? && Settled(pre.value))
  }

  // ----- What the database and the callbacks do -----

  datatype Ty = Undefined | Execf | Queryf

  /** A statement: its BeforeF, whether there is any SQL, and what running it and the callback on its result give. */
  datatype Stmt = Stmt(before: Option<Cause>, hasSql: bool, ty: Ty, run: Option<Cause>, after: Option<Cause>)

  datatype Rollback = Done | AlreadyDone | RollbackFails(cause: Cause)

  /** How one element of the list will behave in this run. */
  datatype Behaviour =
    | Func(err: Option<Err>)
    | Sql(begin: Option<Cause>, stmts: seq<Stmt>, commit: Option<Cause>, rollback: Rollback)

  datatype Event =
    | Began(tx: nat)
    | Ran(tx: nat, stmt: nat)
    | Called(tx: nat)
    | Committed(tx: nat, ok: bool)
    | RolledBack(tx: nat)

  // ----- One transaction -----

  /** What do leaves: what happened, the error, and whether a transaction is open. */
  datatype Did = Did(log: seq<Event>, err: Option<Err>, open: bool)

  function Failed(typ: Typ, cause: Cause): Option<Err> { Some(ErrTx(None, typ, cause)) }

  /** The statements from the j-th on, up to the first that fails. */
  function Stmts(i: nat, stmts: seq<Stmt>, j: nat): (d: Did)
    requires j <= |stmts|
    ensures d.open
    decreases |stmts| - j
  {
    if j == |stmts| then Did([], None, true)
    else
      var s := stmts[j];
      if s.before.Some? then Did([], Failed(ErrBeforeF, s.before.value), true)
      else if !s.hasSql then Stmts(i, stmts, j + 1)
      else if s.ty.Undefined? then Did([], Failed(ErrUndefinedTy, Other), true)
      else if s.run.Some? then Did([Ran(i, j)], Failed(if s.ty.Execf? then ErrExec else ErrQuery, s.run.value), true)
      else if s.after.Some? then Did([Ran(i, j)], Failed(if s.ty.Execf? then ErrAfterExec else ErrAfterQuery, s.after.value), true)
      else
        var rest := Stmts(i, stmts, j + 1);
        rest.(log := [Ran(i, j)] + rest.log)
  }

  function DoOf(i: nat, b: Behaviour): Did {
    match b
    case Func(err) => Did([Called(i)], err, false)
    case Sql(begin, stmts, _, _) =>
      if begin.Some? then Did([], Failed(ErrBeginTx, begin.value), false)
      else
        var d := Stmts(i, stmts, 0);
        d.(log := [Began(i)] + d.log)
  }

  /** What commitOrRollback leaves; it panics when an error that is no ErrTx would have to be wrapped. */
  datatype Finish = Finish(log: seq<Event>, err: Option<Err>, panics: bool)

  function FinishOf(i: nat, b: Behaviour, open: bool, err: Option<Err>): Finish {
    if b.Func? || !open then Finish([], err, false)
    else if err.Some? then
      if Settled(err.value) then Finish([], err, false)
      else if b.rollback.RollbackFails? then
        if err.value.Plain? then Finish([RolledBack(i)], err, true)
        else Finish([RolledBack(i)], Some(ErrTx(err, ErrRollback, b.rollback.cause)), false)
      else Finish([RolledBack(i)], err, false)
    else if b.commit.Some? then Finish([Committed(i, false)], Failed(ErrCommit, b.commit.value), false)
    else Finish([Committed(i, true)], None, false)
  }

  class Db {
    var log: seq<Event>
  }

  class Tx {
    const i: nat
    const b: Behaviour
    const db: Db
    /** A database transaction is held. */
    var tx: bool
    var fin: bool

    constructor (i: nat, b: Behaviour, db: Db)
      ensures this.i == i && this.b == b && this.db == db && !tx && !fin
    {
      this.i, this.b, this.db, tx, fin := i, b, db, false, false;
    }

    /** A finished transaction cannot be used again: the source stops the program. */
    method Do() returns (err: Option<Err>)
      requires !fin && !tx
      modifies `tx, db
      ensures var d := DoOf(i, b); db.log == old(db.log) + d.log && err == d.err && tx == d.open
    {
      if b.Func? {
        db.log := db.log + [Called(i)];
        return b.err;
      }
      if b.begin.Some? { return Failed(ErrBeginTx, b.begin.value); }
      tx := true;
      db.log := db.log + [Began(i)];
      err := RunStmts();
      Regroup(old(db.log), [Began(i)], Stmts(i, b.stmts, 0).log);
    }

    /** The loop of do. */
    method RunStmts() returns (err: Option<Err>)
      requires b.Sql?
      modifies db
      ensures var d := Stmts(i, b.stmts, 0); db.log == old(db.log) + d.log && err == d.err
    {
      var j := 0;
      ghost var goal, all := old(db.log) + Stmts(i, b.stmts, 0).log, Stmts(i, b.stmts, 0).err;
      while j < |b.stmts|
        invariant j <= |b.stmts|
        invariant var rest := Stmts(i, b.stmts, j); db.log + rest.log == goal && rest.err == all
      {
        var s := b.stmts[j];
        if s.before.Some? { return Failed(ErrBeforeF, s.before.value); }
        if s.hasSql {
          if s.ty.Undefined? { return Failed(ErrUndefinedTy, Other); }
          ghost var before := db.log;
          db.log := db.log + [Ran(i, j)];
          if s.run.Some? { return Failed(if s.ty.Execf? then ErrExec else ErrQuery, s.run.value); }
          if s.after.Some? { return Failed(if s.ty.Execf? then ErrAfterExec else ErrAfterQuery, s.after.value); }
          Regroup(before, [Ran(i, j)], Stmts(i, b.stmts, j + 1).log);
        }
        j := j + 1;
      }
      return None;
    }

    method CommitOrRollback(errTx: Option<Err>) returns (err: Option<Err>, panics: bool)
      modifies this, db
      ensures var f := FinishOf(i, b, old(tx), errTx); db.log == old(db.log) + f.log && err == f.err && panics == f.panics
      ensures b.Sql? && !panics ==> !tx && fin
      ensures b.Func? ==> tx == old(tx) && fin == old(fin)
    {
      err, panics := errTx, false;
      if b.Func? { return; }
      if tx {
        if err.Some? {
          if !Settled(err.value) {
            db.log := db.log + [RolledBack(i)];
            if b.rollback.RollbackFails? {
              if err.value.Plain? { return err, true; }
              err := Some(ErrTx(err, ErrRollback, b.rollback.cause));
            }
          }
        } else if b.commit.Some? {
          db.log := db.log + [Committed(i, false)];
          err := Failed(ErrCommit, b.commit.value);
        } else {
          db.log := db.log + [Committed(i, true)];
        }
      }
      tx := false;
      fin := true;
    }
  }

  // ----- Several transactions as one -----

  datatype Outcome = Returned(errTxI: nat, err: Option<Err>) | Panicked

  datatype RunResult = RunResult(log: seq<Event>, outcome: Outcome)

  /** The transaction the run stops at: the first whose do fails, or the last. */
  function Last(bs: seq<Behaviour>, i: nat): (cu: nat)
    requires i < |bs|
    ensures i <= cu < |bs| && forall k :: i <= k < cu ==> DoOf(k, bs[k]).err.None?
    ensures DoOf(cu, bs[cu]).err.None? ==> cu == |bs| - 1
    decreases |bs| - i
  {
    if DoOf(i, bs[i]).err.Some? || i == |bs| - 1 then i else Last(bs, i + 1)
  }

  /** What the transactions from i to cu do, one after the other. */
  function Dos(bs: seq<Behaviour>, i: nat, cu: nat): seq<Event>
    requires i <= cu < |bs|
    decreases cu - i
  {
    DoOf(i, bs[i]).log + if i == cu then [] else Dos(bs, i + 1, cu)
  }

  const OTHER: Err := Plain

  /** The transactions before cu are finished last first: rolled back when there is an error, else committed. */
  function Undo(bs: seq<Behaviour>, cu: nat, err: Option<Err>): Finish
    requires cu <= |bs|
  {
    if cu == 0 then Finish([], None, false)
    else
      var f := FinishOf(cu - 1, bs[cu - 1], DoOf(cu - 1, bs[cu - 1]).open, if err.Some? then Some(OTHER) else None);
      if f.panics then f
      else
        var rest := Undo(bs, cu - 1, err);
        rest.(log := f.log + rest.log)
  }

  function RunOf(bs: seq<Behaviour>): RunResult
    requires bs != []
  {
    var cu := Last(bs, 0);
    var d := DoOf(cu, bs[cu]);
    var f := FinishOf(cu, bs[cu], d.open, d.err);
    var u := Undo(bs, cu, f.err);
    var log := Dos(bs, 0, cu) + f.log + u.log;
    if u.panics then RunResult(log, Panicked)
    else RunResult(log, Returned(if f.err.Some? then cu else 0, f.err))
  }

  function Behaviours(txs: seq<Tx>): (bs: seq<Behaviour>)
    ensures |bs| == |txs| && forall k :: 0 <= k < |txs| ==> bs[k] == txs[k].b
  {
    seq(|txs|, (k: nat) requires k < |txs| => txs[k].b)
  }

  class SqlTxs {
    var txs: seq<Tx>
    const db: Db

    /** The list holds different transactions of one database, none of them used before. */
    ghost predicate Ready()
      reads this, txs
    {
      && (forall k :: 0 <= k < |txs| ==> txs[k].i == k && txs[k].db == db && !txs[k].tx && !txs[k].fin)
      && forall j, k :: 0 <= j < k < |txs| ==> txs[j] != txs[k]
    }

    constructor (db: Db)
      ensures Ready() && txs == [] && this.db == db
    {
      txs, this.db := [], db;
    }

    method AddTx(tx: Tx)
      modifies this
      ensures txs == old(txs) + [tx]
      ensures old(Ready()) && tx.i == |old(txs)| && tx.db == db && !tx.tx && !tx.fin && tx !in old(txs) ==> Ready()
    {
      txs := txs + [tx];
    }

    /** The first loop: do, one after the other, up to the first error. */
    method DoAll() returns (cuTx: nat, e: Option<Err>)
      requires Ready() && txs != []
      modifies txs, db
      ensures var bs := Behaviours(txs);
        && cuTx == Last(bs, 0) && e == DoOf(cuTx, bs[cuTx]).err && db.log == old(db.log) + Dos(bs, 0, cuTx)
        && Open(bs, cuTx)
    {
      cuTx, e := 0, None;
      ghost var bs := Behaviours(txs);
      ghost var cu := Last(bs, 0);
      ghost var goal := db.log + Dos(bs, 0, cu);
      var i := 0;
      while i < |txs| && e == None
        invariant i <= |txs| && cuTx == (if i == 0 then 0 else i - 1)
        invariant forall k :: i <= k < |txs| ==> !txs[k].tx && !txs[k].fin
        invariant i > 0 ==> Open(bs, cuTx) && e == DoOf(cuTx, bs[cuTx]).err
        invariant i == 0 ==> e.None?
        invariant if i < |txs| && e.None? then cu == Last(bs, i) && db.log + Dos(bs, i, cu) == goal
                  else cu == cuTx && db.log == goal
      {
        cuTx := i;
        ghost var before, d := db.log, DoOf(i, bs[i]).log;
        e := txs[i].Do();
        ghost var later := if i < cu then Dos(bs, i + 1, cu) else [];
        assert before + (d + later) == goal;
        Regroup(before, d, later);
        i := i + 1;
      }
    }

    /** The transactions up to cu have done their part and are not finished. */
    ghost predicate Open(bs: seq<Behaviour>, cu: nat)
      reads this, txs
    {
      cu < |txs| == |bs| && forall k :: 0 <= k <= cu ==> txs[k].tx == DoOf(k, bs[k]).open && !txs[k].fin
    }

    /** The second loop: the transactions before cu, last first, whose own errors are dropped. */
    method FinishAll(cu: nat, e: Option<Err>, ghost bs: seq<Behaviour>) returns (panics: bool)
      requires bs == Behaviours(txs) && cu < |txs|
      requires forall k :: 0 <= k < |txs| ==> txs[k].i == k && txs[k].db == db
      requires forall j, k :: 0 <= j < k < |txs| ==> txs[j] != txs[k]
      requires forall k :: 0 <= k < cu ==> txs[k].tx == DoOf(k, bs[k]).open && !txs[k].fin
      modifies txs, db
      ensures var u := Undo(bs, cu, e); db.log == old(db.log) + u.log && panics == u.panics
    {
      panics := false;
      ghost var goal, all := db.log + Undo(bs, cu, e).log, Undo(bs, cu, e).panics;
      var cuTx: int := cu - 1;
      while cuTx >= 0
        invariant -1 <= cuTx < cu
        invariant forall k :: 0 <= k <= cuTx ==> txs[k].tx == DoOf(k, bs[k]).open && !txs[k].fin
        invariant var rest := Undo(bs, cuTx + 1, e); db.log + rest.log == goal && rest.panics == all
      {
        ghost var before := db.log;
        ghost var f := FinishOf(cuTx, bs[cuTx], DoOf(cuTx, bs[cuTx]).open, if e.Some? then Some(OTHER) else None);
        Regroup(before, f.log, Undo(bs, cuTx, e).log);
        var ignored;
        ignored, panics := txs[cuTx].CommitOrRollback(if e.Some? then Some(OTHER) else None);
        if panics { return; }
        cuTx := cuTx - 1;
      }
    }

    /** An empty list stops the program. */
    method Run() returns (errTxI: nat, e: Option<Err>, panics: bool)
      requires Ready() && txs != []
      modifies txs, db
      ensures var r := RunOf(Behaviours(txs));
        db.log == old(db.log) + r.log && r.outcome == if panics then Panicked else Returned(errTxI, e)
    {
      errTxI := 0;
      ghost var bs, start := Behaviours(txs), db.log;
      var cuTx;
      cuTx, e := DoAll();
      ghost var f := FinishOf(cuTx, bs[cuTx], DoOf(cuTx, bs[cuTx]).open, e);
      Regroup(start, Dos(bs, 0, cuTx), f.log);
      e, panics := txs[cuTx].CommitOrRollback(e);
      OwnErrorNeverPanics(cuTx, bs[cuTx]);
      if e.Some? { errTxI := cuTx; }
      Regroup(start, Dos(bs, 0, cuTx) + f.log, Undo(bs, cuTx, f.err).log);
      panics := FinishAll(cuTx, e, bs);
    }
  }

  /** A transaction's own error is an ErrTx, so that it can always be wrapped. */
  lemma OwnErrorNeverPanics(i: nat, b: Behaviour)
    ensures var d := DoOf(i, b); !FinishOf(i, b, d.open, d.err).panics
  {
    if b.Sql? && b.begin.None? { StmtErrors(i, b.stmts, 0); }
  }

  lemma {:induction false} StmtErrors(i: nat, stmts: seq<Stmt>, j: nat)
    requires j <= |stmts|
    ensures var e := Stmts(i, stmts, j).err; e.Some? ==> e.value.ErrTx?
    decreases |stmts| - j
  {
    if j < |stmts| { StmtErrors(i, stmts, j + 1); }
  }

  // ----- What a run does to each transaction -----

  /** The events of transaction i. */
  function Of(log: seq<Event>, i: nat): seq<Event> {
    if log == [] then [] else (if log[0].tx == i then [log[0]] else []) + Of(log[1..], i)
  }

  lemma {:induction false} OfJoin(a: seq<Event>, b: seq<Event>, i: nat)
    ensures Of(a + b, i) == Of(a, i) + Of(b, i)
  {
    if a == [] {
      assert a + b == b;
    } else {
      OfJoin(a[1..], b, i);
      assert (a + b)[1..] == a[1..] + b;
      Regroup(if a[0].tx == i then [a[0]] else [], Of(a[1..], i), Of(b, i));
    }
  }

  predicate AllOf(log: seq<Event>, i: nat) { forall k :: 0 <= k < |log| ==> log[k].tx == i }

  lemma {:induction false} OfOwn(log: seq<Event>, i: nat, j: nat)
    requires AllOf(log, i)
    ensures Of(log, j) == if i == j then log else []
  {
    if log != [] { OfOwn(log[1..], i, j); }
  }

  lemma {:induction false} StmtsOwn(i: nat, stmts: seq<Stmt>, j: nat)
    requires j <= |stmts|
    ensures AllOf(Stmts(i, stmts, j).log, i)
    decreases |stmts| - j
  {
    if j < |stmts| { StmtsOwn(i, stmts, j + 1); }
  }

  lemma DoOwn(i: nat, b: Behaviour, j: nat)
    ensures Of(DoOf(i, b).log, j) == if i == j then DoOf(i, b).log else []
  {
    if b.Sql? { StmtsOwn(i, b.stmts, 0); }
    OfOwn(DoOf(i, b).log, i, j);
  }

  lemma {:induction false} DosOf(bs: seq<Behaviour>, i: nat, cu: nat, j: nat)
    requires i <= cu < |bs|
    ensures Of(Dos(bs, i, cu), j) == if i <= j <= cu then DoOf(j, bs[j]).log else []
    decreases cu - i
  {
    DoOwn(i, bs[i], j);
    var rest := if i == cu then [] else Dos(bs, i + 1, cu);
    OfJoin(DoOf(i, bs[i]).log, rest, j);
    if i < cu { DosOf(bs, i + 1, cu, j); }
  }

  /** How a transaction that did its part before the stopping one is finished. */
  function FinishBefore(j: nat, b: Behaviour, err: Option<Err>): Finish {
    FinishOf(j, b, DoOf(j, b).open, if err.Some? then Some(OTHER) else None)
  }

  lemma UndoFirst(bs: seq<Behaviour>, cu: nat, err: Option<Err>)
    requires 0 < cu <= |bs| && !Undo(bs, cu, err).panics
    ensures var f := FinishBefore(cu - 1, bs[cu - 1], err);
      Undo(bs, cu, err).log == f.log + Undo(bs, cu - 1, err).log && !Undo(bs, cu - 1, err).panics && AllOf(f.log, cu - 1)
  {
  }

  lemma UndoOfFirst(bs: seq<Behaviour>, cu: nat, err: Option<Err>)
    requires 0 < cu <= |bs| && !Undo(bs, cu, err).panics
    ensures Of(Undo(bs, cu, err).log, cu - 1)
            == FinishBefore(cu - 1, bs[cu - 1], err).log + Of(Undo(bs, cu - 1, err).log, cu - 1)
  {
    UndoFirst(bs, cu, err);
    OfJoin(FinishBefore(cu - 1, bs[cu - 1], err).log, Undo(bs, cu - 1, err).log, cu - 1);
    OfOwn(FinishBefore(cu - 1, bs[cu - 1], err).log, cu - 1, cu - 1);
  }

  lemma UndoOfOther(bs: seq<Behaviour>, cu: nat, err: Option<Err>, j: nat)
    requires 0 < cu <= |bs| && !Undo(bs, cu, err).panics && j != cu - 1
    ensures Of(Undo(bs, cu, err).log, j) == Of(Undo(bs, cu - 1, err).log, j)
  {
    var f, rest := FinishBefore(cu - 1, bs[cu - 1], err).log, Undo(bs, cu - 1, err).log;
    UndoFirst(bs, cu, err);
    OfJoin(f, rest, j);
    OfOwn(f, cu - 1, j);
    assert [] + Of(rest, j) == Of(rest, j);
  }

  lemma UndoGoesOn(bs: seq<Behaviour>, cu: nat, err: Option<Err>)
    requires 0 < cu <= |bs| && !Undo(bs, cu, err).panics
    ensures !Undo(bs, cu - 1, err).panics
  {
  }

  lemma {:induction false} UndoOf(bs: seq<Behaviour>, cu: nat, err: Option<Err>, j: nat, own: seq<Event>)
    requires cu <= |bs| && !Undo(bs, cu, err).panics
    requires if j < cu then own == FinishBefore(j, bs[j], err).log else own == []
    ensures Of(Undo(bs, cu, err).log, j) == own
  {
    if cu > 0 {
      UndoGoesOn(bs, cu, err);
      if j == cu - 1 {
        UndoOfFirst(bs, cu, err);
        UndoOf(bs, cu - 1, err, j, []);
        assert own + [] == own;
      } else {
        UndoOfOther(bs, cu, err, j);
        UndoOf(bs, cu - 1, err, j, own);
      }
    }
  }

  /** How the transaction the run stops at is finished. */
  function FinishLast(bs: seq<Behaviour>): Finish
    requires bs != []
  {
    var cu := Last(bs, 0);
    FinishOf(cu, bs[cu], DoOf(cu, bs[cu]).open, DoOf(cu, bs[cu]).err)
  }

  lemma RunLog(bs: seq<Behaviour>)
    requires bs != []
    ensures var cu, f := Last(bs, 0), FinishLast(bs);
      && RunOf(bs).log == Dos(bs, 0, cu) + f.log + Undo(bs, cu, f.err).log
      && (RunOf(bs).outcome.Returned? <==> !Undo(bs, cu, f.err).panics)
  {
    OwnErrorNeverPanics(Last(bs, 0), bs[Last(bs, 0)]);
  }

  lemma RunParts(bs: seq<Behaviour>, j: nat, err: Option<Err>, cu: nat, own: seq<Event>)
    requires cu < |bs| && j < |bs| && !Undo(bs, cu, err).panics && AllOf(own, cu)
    ensures Of(Dos(bs, 0, cu) + own + Undo(bs, cu, err).log, j)
            == if j > cu then [] else DoOf(j, bs[j]).log + (if j == cu then own else FinishBefore(j, bs[j], err).log)
  {
    DosOf(bs, 0, cu, j);
    OfOwn(own, cu, j);
    UndoOf(bs, cu, err, j, if j < cu then FinishBefore(j, bs[j], err).log else []);
    var dos, undo := Dos(bs, 0, cu), Undo(bs, cu, err).log;
    OfThree(dos, own, undo, j, Of(dos, j), Of(own, j) + Of(undo, j));
  }

  /** How transaction j is finished in a run that stops at it or after it. */
  function FinishIn(bs: seq<Behaviour>, j: nat): Finish
    requires bs != [] && j <= Last(bs, 0)
  {
    if j == Last(bs, 0) then FinishLast(bs) else FinishBefore(j, bs[j], FinishLast(bs).err)
  }

  /** A run without panic: each transaction up to the stopping one does its part, then is finished; the others do nothing. */
  lemma PerTransaction(bs: seq<Behaviour>, j: nat)
    requires bs != [] && j < |bs| && RunOf(bs).outcome.Returned?
    ensures Of(RunOf(bs).log, j) == if j > Last(bs, 0) then [] else DoOf(j, bs[j]).log + FinishIn(bs, j).log
  {
    RunLog(bs);
    RunParts(bs, j, FinishLast(bs).err, Last(bs, 0), FinishLast(bs).log);
  }

  lemma OfThree(a: seq<Event>, b: seq<Event>, c: seq<Event>, i: nat, first: seq<Event>, others: seq<Event>)
    requires first == Of(a, i) && others == Of(b, i) + Of(c, i)
    ensures Of(a + b + c, i) == first + others
    ensures Of(b, i) == [] ==> others == Of(c, i)
    ensures Of(c, i) == [] ==> others == Of(b, i)
    ensures others == [] ==> Of(a + b + c, i) == first
  {
    OfJoin(a + b, c, i);
    OfJoin(a, b, i);
    Regroup(Of(a, i), Of(b, i), Of(c, i));
  }

  // ----- All or nothing -----

  predicate Finishing(e: Event) { e.Committed? || e.RolledBack? }

  function CountFinishing(log: seq<Event>): nat {
    if log == [] then 0 else (if Finishing(log[0]) then 1 else 0) + CountFinishing(log[1..])
  }

  lemma {:induction false} CountJoin(a: seq<Event>, b: seq<Event>)
    ensures CountFinishing(a + b) == CountFinishing(a) + CountFinishing(b)
  {
    if a == [] {
      assert a + b == b;
    } else {
      CountJoin(a[1..], b);
      assert (a + b)[1..] == a[1..] + b;
    }
  }

  lemma {:induction false} StmtsFinishNothing(i: nat, stmts: seq<Stmt>, j: nat)
    requires j <= |stmts|
    ensures CountFinishing(Stmts(i, stmts, j).log) == 0
    decreases |stmts| - j
  {
    if j < |stmts| {
      StmtsFinishNothing(i, stmts, j + 1);
      CountJoin([Ran(i, j)], Stmts(i, stmts, j + 1).log);
    }
  }

  lemma DoFinishesNothing(i: nat, b: Behaviour)
    ensures CountFinishing(DoOf(i, b).log) == 0
  {
    if b.Sql? {
      StmtsFinishNothing(i, b.stmts, 0);
      CountJoin([Began(i)], Stmts(i, b.stmts, 0).log);
    }
  }

  /** The transaction has been begun in this run. */
  predicate Begun(bs: seq<Behaviour>, j: nat)
    requires bs != [] && j < |bs|
  {
    j <= Last(bs, 0) && bs[j].Sql? && bs[j].begin.None?
  }

  /** The stopping transaction's own error makes its commitOrRollback believe that it has been finished already. */
  predicate LeftOpen(bs: seq<Behaviour>)
    requires bs != []
  {
    var d := DoOf(Last(bs, 0), bs[Last(bs, 0)]);
    d.err.Some? && Settled(d.err.value)
  }

  /**
   * Each transaction begun is finished exactly once and no other is; but the stopping one is not finished at all when
   * a callback or statement failed with one of the three errors that stand for a transaction's own end.
   */
  lemma FinishedExactly(bs: seq<Behaviour>, j: nat)
    requires bs != [] && j < |bs| && RunOf(bs).outcome.Returned?
    ensures CountFinishing(Of(RunOf(bs).log, j)) == if Begun(bs, j) && !(j == Last(bs, 0) && LeftOpen(bs)) then 1 else 0
  {
    PerTransaction(bs, j);
    if j <= Last(bs, 0) {
      DoFinishesNothing(j, bs[j]);
      CountJoin(DoOf(j, bs[j]).log, FinishIn(bs, j).log);
      DoOpens(j, bs[j]);
      var err := if j == Last(bs, 0) then DoOf(j, bs[j]).err else if FinishLast(bs).err.Some? then Some(OTHER) else None;
      FinishCount(j, bs[j], DoOf(j, bs[j]).open, err);
    }
  }

  lemma FinishCount(i: nat, b: Behaviour, open: bool, err: Option<Err>)
    ensures CountFinishing(FinishOf(i, b, open, err).log) == if b.Sql? && open && !(err.Some? && Settled(err.value)) then 1 else 0
  {
  }

  lemma DoOpens(i: nat, b: Behaviour)
    ensures DoOf(i, b).open <==> b.Sql? && b.begin.None?
  {
  }

  /** An error: it is the stopping transaction's, and every one begun before that is rolled back and not committed. */
  lemma ErrorUndoesAll(bs: seq<Behaviour>, j: nat)
    requires bs != [] && j < |bs| && RunOf(bs).outcome.Returned? && RunOf(bs).outcome.err.Some?
    ensures RunOf(bs).outcome.errTxI == Last(bs, 0)
    ensures j < Last(bs, 0) && Begun(bs, j) ==> Of(RunOf(bs).log, j) == DoOf(j, bs[j]).log + [RolledBack(j)]
    ensures j > Last(bs, 0) ==> Of(RunOf(bs).log, j) == []
  {
    PerTransaction(bs, j);
    RunLog(bs);
    DoOpens(j, bs[j]);
    if j < Last(bs, 0) && Begun(bs, j) { RolledBackBefore(j, bs[j], FinishLast(bs).err); }
  }

  lemma RolledBackBefore(j: nat, b: Behaviour, err: Option<Err>)
    requires err.Some? && b.Sql? && DoOf(j, b).open
    ensures FinishBefore(j, b, err).log == [RolledBack(j)]
  {
  }

  /** No error: all did their part, and each was finished by a commit, the last one's with success. */
  lemma NilCommitsAll(bs: seq<Behaviour>, j: nat)
    requires bs != [] && j < |bs| && RunOf(bs).outcome.Returned? && RunOf(bs).outcome.err.None?
    ensures Last(bs, 0) == |bs| - 1 && DoOf(j, bs[j]).err.None?
    ensures bs[j].Sql? ==> Of(RunOf(bs).log, j) == DoOf(j, bs[j]).log + [Committed(j, bs[j].commit.None?)]
    ensures bs[|bs| - 1].Sql? ==> bs[|bs| - 1].commit.None?
  {
    var cu := Last(bs, 0);
    OwnErrorNeverPanics(cu, bs[cu]);
    NilMeansDone(bs[cu], cu);
    PerTransaction(bs, j);
  }

  lemma NilMeansDone(b: Behaviour, i: nat)
    ensures var d := DoOf(i, b); FinishOf(i, b, d.open, d.err).err.None? ==> d.err.None?
  {
  }

  /** Every transaction of the run has taken effect. */
  predicate AllCommitted(bs: seq<Behaviour>)
    requires bs != []
  {
    forall j :: 0 <= j < |bs| && bs[j].Sql? ==> Committed(j, true) in Of(RunOf(bs).log, j)
  }

  /** A run that returns no error has committed everything exactly when no commit failed: failures before the last are dropped. */
  lemma NilAllCommittedExactly(bs: seq<Behaviour>)
    requires bs != [] && RunOf(bs).outcome.Returned? && RunOf(bs).outcome.err.None?
    ensures AllCommitted(bs) <==> forall j :: 0 <= j < |bs| && bs[j].Sql? ==> bs[j].commit.None?
  {
    forall j | 0 <= j < |bs| && bs[j].Sql?
      ensures Committed(j, true) in Of(RunOf(bs).log, j) <==> bs[j].commit.None?
    {
      NilCommitsAll(bs, j);
      DoFinishesNothing(j, bs[j]);
      var did := DoOf(j, bs[j]).log;
      if Committed(j, true) in did { CountsFinishing(did, Committed(j, true)); }
    }
  }

  lemma {:induction false} CountsFinishing(log: seq<Event>, e: Event)
    requires e in log && Finishing(e)
    ensures CountFinishing(log) > 0
  {
    if log[0] != e { CountsFinishing(log[1..], e); }
  }

  /** Two transactions, the first of whose commits fails: no error is returned. */
  lemma LostCommit()
    ensures var bs := [Sql(None, [], Some(Other), Done), Sql(None, [], None, Done)];
      RunOf(bs) == RunResult([Began(0), Began(1), Committed(1, true), Committed(0, false)], Returned(0, None))
  {
    var bs := [Sql(None, [], Some(Other), Done), Sql(None, [], None, Done)];
    assert DoOf(0, bs[0]) == Did([Began(0)], None, true) && DoOf(1, bs[1]) == Did([Began(1)], None, true);
    assert Last(bs, 1) == 1 && Last(bs, 0) == 1;
    assert Dos(bs, 1, 1) == [Began(1)];
    assert Dos(bs, 0, 1) == [Began(0), Began(1)];
    assert Undo(bs, 0, None) == Finish([], None, false);
    assert Undo(bs, 1, None).log == [Committed(0, false)];
  }

  /** A run panics exactly when it has an error and a rollback before the stopping transaction fails. */
  lemma PanicsExactly(bs: seq<Behaviour>)
    requires bs != []
    ensures RunOf(bs).outcome.Panicked? <==>
            FinishLast(bs).err.Some? && exists j :: 0 <= j < Last(bs, 0) && RollbackLost(bs, j)
  {
    var cu := Last(bs, 0);
    OwnErrorNeverPanics(cu, bs[cu]);
    UndoPanics(bs, cu, FinishLast(bs).err);
  }

  predicate RollbackLost(bs: seq<Behaviour>, j: nat)
    requires j < |bs|
  {
    DoOf(j, bs[j]).open && bs[j].rollback.RollbackFails?
  }

  lemma {:induction false} UndoPanics(bs: seq<Behaviour>, cu: nat, err: Option<Err>)
    requires cu <= |bs|
    ensures Undo(bs, cu, err).panics <==> err.Some? && exists j :: 0 <= j < cu && RollbackLost(bs, j)
  {
    if cu > 0 {
      UndoPanics(bs, cu - 1, err);
      DoOpens(cu - 1, bs[cu - 1]);
      assert FinishBefore(cu - 1, bs[cu - 1], err).panics <==> err.Some? && RollbackLost(bs, cu - 1);
    }
  }

  // ----- Order -----

  /** Which transactions are begun, in order. */
  function Begins(log: seq<Event>): seq<nat> {
    if log == [] then [] else (if log[0].Began? then [log[0].tx] else []) + Begins(log[1..])
  }

  /** Those of the transactions from i to cu that begin. */
  function Beginners(bs: seq<Behaviour>, i: nat, cu: nat): seq<nat>
    requires i <= cu < |bs|
    decreases cu - i
  {
    (if bs[i].Sql? && bs[i].begin.None? then [i] else []) + if i == cu then [] else Beginners(bs, i + 1, cu)
  }

  lemma {:induction false} BeginsJoin(a: seq<Event>, b: seq<Event>)
    ensures Begins(a + b) == Begins(a) + Begins(b)
  {
    if a == [] {
      assert a + b == b;
    } else {
      BeginsJoin(a[1..], b);
      assert (a + b)[1..] == a[1..] + b;
      Regroup(if a[0].Began? then [a[0].tx] else [], Begins(a[1..]), Begins(b));
    }
  }

  lemma {:induction false} StmtsBeginNothing(i: nat, stmts: seq<Stmt>, j: nat)
    requires j <= |stmts|
    ensures Begins(Stmts(i, stmts, j).log) == []
    decreases |stmts| - j
  {
    if j < |stmts| {
      StmtsBeginNothing(i, stmts, j + 1);
      BeginsJoin([Ran(i, j)], Stmts(i, stmts, j + 1).log);
    }
  }

  lemma {:induction false} UndoBeginsNothing(bs: seq<Behaviour>, cu: nat, err: Option<Err>)
    requires cu <= |bs|
    ensures Begins(Undo(bs, cu, err).log) == []
  {
    if cu > 0 {
      UndoBeginsNothing(bs, cu - 1, err);
      BeginsJoin(FinishBefore(cu - 1, bs[cu - 1], err).log, Undo(bs, cu - 1, err).log);
    }
  }

  lemma {:induction false} DosBegin(bs: seq<Behaviour>, i: nat, cu: nat)
    requires i <= cu < |bs|
    ensures Begins(Dos(bs, i, cu)) == Beginners(bs, i, cu)
    decreases cu - i
  {
    if bs[i].Sql? {
      StmtsBeginNothing(i, bs[i].stmts, 0);
      BeginsJoin([Began(i)], Stmts(i, bs[i].stmts, 0).log);
    }
    BeginsJoin(DoOf(i, bs[i]).log, if i == cu then [] else Dos(bs, i + 1, cu));
    if i < cu { DosBegin(bs, i + 1, cu); }
  }

  /** Transactions begin in the order of the list, up to the stopping one. */
  lemma BeginsInOrder(bs: seq<Behaviour>)
    requires bs != []
    ensures Begins(RunOf(bs).log) == Beginners(bs, 0, Last(bs, 0))
  {
    var cu, f := Last(bs, 0), FinishLast(bs);
    DosBegin(bs, 0, cu);
    UndoBeginsNothing(bs, cu, f.err);
    BeginsJoin(Dos(bs, 0, cu), f.log);
    BeginsJoin(Dos(bs, 0, cu) + f.log, Undo(bs, cu, f.err).log);
  }
}
