/** sql: which statements of a transaction are run, and which failure its error tells. */
module SqlStmts {
  import opened Util
  import opened SqlTxs

  // ----- One statement -----

  /** Nothing is wrong with the statement: its callbacks and the database accept it. */
  predicate Sound(s: Stmt) { s.before.None? && (s.hasSql ==> !s.ty.Undefined? && s.run.None? && s.after.None?) }

  /** The kind and the cause are those of the first thing that is wrong with the statement. */
  predicate Wrong(s: Stmt, typ: Typ, cause: Cause) {
    if typ.ErrBeforeF? then s.before == Some(cause)
    else
      s.before.None? && s.hasSql &&
      if typ.ErrUndefinedTy? then s.ty.Undefined? && cause == Other
      else if s.ty.Execf? then RunWrong(s, typ == ErrExec, typ == ErrAfterExec, cause)
      else s.ty.Queryf? && RunWrong(s, typ == ErrQuery, typ == ErrAfterQuery, cause)
  }

  /** Running it failed, or the callback on its result did. */
  predicate RunWrong(s: Stmt, atRun: bool, after: bool, cause: Cause) {
    (atRun && s.run == Some(cause)) || (after && s.run.None? && s.after == Some(cause))
  }

  /** It got as far as the database. */
  predicate Reached(typ: Typ) { typ.ErrExec? || typ.ErrAfterExec? || typ.ErrQuery? || typ.ErrAfterQuery? }

  lemma SoundOrWrong(s: Stmt)
    ensures Sound(s) <==> !exists typ, cause :: Wrong(s, typ, cause)
  {
    if !Sound(s) {
      if s.before.Some? { assert Wrong(s, ErrBeforeF, s.before.value); }
      else if s.ty.Undefined? { assert Wrong(s, ErrUndefinedTy, Other); }
      else if s.run.Some? { assert Wrong(s, if s.ty.Execf? then ErrExec else ErrQuery, s.run.value); }
      else { assert Wrong(s, if s.ty.Execf? then ErrAfterExec else ErrAfterQuery, s.after.value); }
    }
  }

  // ----- The statements of a transaction -----

  /** The statements with SQL from j up to k, each run once, in order. */
  function Runs(i: nat, stmts: seq<Stmt>, j: nat, k: nat): (log: seq<Event>)
    requires j <= k <= |stmts|
    ensures forall e :: e in log <==> e.Ran? && e.tx == i && j <= e.stmt < k && stmts[e.stmt].hasSql
    ensures forall m, n :: 0 <= m < n < |log| ==> log[m].stmt < log[n].stmt
    decreases k - j
  {
    if j == k then [] else (if stmts[j].hasSql then [Ran(i, j)] else []) + Runs(i, stmts, j + 1, k)
  }

  /** The first k statements are sound and have been run; if there is another, it is wrong, and told as the error. */
  predicate Stopped(i: nat, stmts: seq<Stmt>, j: nat, k: nat, d: Did)
    requires j <= k <= |stmts|
  {
    && (forall l :: j <= l < k ==> Sound(stmts[l]))
    && if k == |stmts| then d.err.None? && d.log == Runs(i, stmts, j, k)
       else
         d.err.Some? && d.err.value.ErrTx? && d.err.value.pre.None? && Wrong(stmts[k], d.err.value.typ, d.err.value.cause)
         && d.log == Runs(i, stmts, j, k) + if Reached(d.err.value.typ) then [Ran(i, k)] else []
  }

  lemma {:induction false} StmtsStop(i: nat, stmts: seq<Stmt>, j: nat, d: Did) returns (k: nat)
    requires j <= |stmts| && d == Stmts(i, stmts, j)
    ensures j <= k <= |stmts| && Stopped(i, stmts, j, k, d)
    decreases |stmts| - j
  {
    k := j;
    if j < |stmts| && Sound(stmts[j]) {
      var rest := Stmts(i, stmts, j + 1);
      k := StmtsStop(i, stmts, j + 1, rest);
      StopLater(i, stmts, j, k, rest, d);
    }
  }

  lemma StopLater(i: nat, stmts: seq<Stmt>, j: nat, k: nat, rest: Did, d: Did)
    requires j < k <= |stmts| && Sound(stmts[j]) && Stopped(i, stmts, j + 1, k, rest)
    requires d.err == rest.err && d.log == (if stmts[j].hasSql then [Ran(i, j)] else []) + rest.log
    ensures Stopped(i, stmts, j, k, d)
  {
    var first := if stmts[j].hasSql then [Ran(i, j)] else [];
    if k < |stmts| {
      Regroup(first, Runs(i, stmts, j + 1, k), if Reached(d.err.value.typ) then [Ran(i, k)] else []);
    }
  }

  // ----- In a run -----

  function Rans(log: seq<Event>): seq<Event> {
    if log == [] then [] else (if log[0].Ran? then [log[0]] else []) + Rans(log[1..])
  }

  lemma {:induction false} RansJoin(a: seq<Event>, b: seq<Event>)
    ensures Rans(a + b) == Rans(a) + Rans(b)
  {
    if a == [] {
      assert a + b == b;
    } else {
      RansJoin(a[1..], b);
      assert (a + b)[1..] == a[1..] + b;
      Regroup(if a[0].Ran? then [a[0]] else [], Rans(a[1..]), Rans(b));
    }
  }

  lemma {:induction false} RansAll(log: seq<Event>)
    requires forall e :: e in log ==> e.Ran?
    ensures Rans(log) == log
  {
    if log != [] {
      assert log[0] in log;
      RansAll(log[1..]);
    }
  }

  lemma FinishRunsNothing(i: nat, b: Behaviour, open: bool, err: Option<Err>)
    ensures Rans(FinishOf(i, b, open, err).log) == []
  {
  }

  /** What transaction j runs in a run is what its part of the run gives. */
  lemma RunsOfPart(bs: seq<Behaviour>, j: nat)
    requires bs != [] && j < |bs| && RunOf(bs).outcome.Returned? && Begun(bs, j)
    ensures Rans(Of(RunOf(bs).log, j)) == Rans(Stmts(j, bs[j].stmts, 0).log)
  {
    PerTransaction(bs, j);
    var part := Stmts(j, bs[j].stmts, 0).log;
    assert DoOf(j, bs[j]).log == [Began(j)] + part;
    RansJoin(DoOf(j, bs[j]).log, FinishIn(bs, j).log);
    RansJoin([Began(j)], part);
    assert Rans([Began(j)]) == [];
    FinishRunsNothing(j, bs[j], DoOf(j, bs[j]).open, DoOf(j, bs[j]).err);
    FinishRunsNothing(j, bs[j], DoOf(j, bs[j]).open, if FinishLast(bs).err.Some? then Some(OTHER) else None);
  }

  predicate RanUpTo(i: nat, stmts: seq<Stmt>, k: nat, typ: Typ, log: seq<Event>)
    requires k <= |stmts|
  {
    log == Runs(i, stmts, 0, k) + if Reached(typ) then [Ran(i, k)] else []
  }

  /**
   * The statements a transaction runs are those with SQL up to the first that is wrong, once each and in order, and that one
   * if it got as far as the database. With all of them sound it has run them all.
   */
  lemma RanExactly(bs: seq<Behaviour>, j: nat) returns (k: nat)
    requires bs != [] && j < |bs| && RunOf(bs).outcome.Returned? && Begun(bs, j)
    ensures var stmts := bs[j].stmts; k <= |stmts| && (forall l :: 0 <= l < k ==> Sound(stmts[l]))
    ensures var stmts := bs[j].stmts; k == |stmts| ==> Rans(Of(RunOf(bs).log, j)) == Runs(j, stmts, 0, k)
    ensures var stmts := bs[j].stmts; k < |stmts| ==>
              && j == Last(bs, 0) && RunOf(bs).outcome.err.Some?
              && exists typ, cause :: Wrong(stmts[k], typ, cause) && RanUpTo(j, stmts, k, typ, Rans(Of(RunOf(bs).log, j)))
  {
    var d := Stmts(j, bs[j].stmts, 0);
    k := StmtsStop(j, bs[j].stmts, 0, d);
    RunsOfPart(bs, j);
    RansAll(d.log);
    if k < |bs[j].stmts| { PartFails(bs, j); }
  }

  lemma PartFails(bs: seq<Behaviour>, j: nat)
    requires bs != [] && j < |bs| && RunOf(bs).outcome.Returned? && Begun(bs, j) && DoOf(j, bs[j]).err.Some?
    ensures j == Last(bs, 0) && RunOf(bs).outcome.err.Some?
  {
    RunError(bs);
  }

  // ----- The error of a run -----

  lemma RunError(bs: seq<Behaviour>)
    requires bs != [] && RunOf(bs).outcome.Returned?
    ensures RunOf(bs).outcome.err == FinishLast(bs).err
    ensures var cu := Last(bs, 0); DoOf(cu, bs[cu]).err.Some? ==> FinishLast(bs).err.Some?
  {
    RunLog(bs);
  }

  /** The error of a transaction's part: its begin failed, or its k-th statement is the first that is wrong. */
  ghost predicate PartError(b: Behaviour, e: Err)
    requires b.Sql?
  {
    e.ErrTx? && if b.begin.Some? then e == ErrTx(None, ErrBeginTx, b.begin.value)
    else exists k :: 0 <= k < |b.stmts| && FirstWrong(b.stmts, k, e)
  }

  predicate FirstWrong(stmts: seq<Stmt>, k: nat, e: Err)
    requires k < |stmts|
  {
    (forall l :: 0 <= l < k ==> Sound(stmts[l])) && e.ErrTx? && e.pre.None? && Wrong(stmts[k], e.typ, e.cause)
  }

  predicate AllSound(b: Behaviour)
    requires b.Sql?
  {
    b.begin.None? && forall k :: 0 <= k < |b.stmts| ==> Sound(b.stmts[k])
  }

  /** A transaction's part fails exactly when its begin or one of its statements does, with that error. */
  lemma PartErrorExactly(i: nat, b: Behaviour)
    requires b.Sql?
    ensures var err := DoOf(i, b).err; if err.None? then AllSound(b) else PartError(b, err.value)
    ensures AllSound(b) <==> DoOf(i, b).err.None?
  {
    if b.begin.None? {
      var d := Stmts(i, b.stmts, 0);
      var k := StmtsStop(i, b.stmts, 0, d);
      if k < |b.stmts| {
        assert FirstWrong(b.stmts, k, d.err.value);
        SoundOrWrong(b.stmts[k]);
      }
    }
  }

  /** A transaction's own error stands for its end exactly if its begin failed or the cause is one of the sentinels. */
  lemma SettledExactly(b: Behaviour, e: Err)
    requires b.Sql? && PartError(b, e)
    ensures Settled(e) <==> b.begin.Some? || e.cause != Other
  {
    if b.begin.None? { var k :| 0 <= k < |b.stmts| && FirstWrong(b.stmts, k, e); }
  }

  /** What the failure of its own rollback makes of an error. */
  function Outer(b: Behaviour, e: Err): Err
    requires b.Sql?
  {
    if e.ErrTx? && b.begin.None? && e.cause == Other && b.rollback.RollbackFails? then
      ErrTx(Some(e), ErrRollback, b.rollback.cause)
    else e
  }

  /**
   * The error of a run, in terms of the transaction it stops at: what its begin, its first wrong statement or its commit gave;
   * with the failure of its own rollback around it, if it is rolled back and that fails.
   */
  lemma ErrorTells(bs: seq<Behaviour>)
    requires bs != [] && RunOf(bs).outcome.Returned? && bs[Last(bs, 0)].Sql?
    ensures var b, err := bs[Last(bs, 0)], RunOf(bs).outcome.err;
      if AllSound(b) then err == if b.commit.Some? then Some(ErrTx(None, ErrCommit, b.commit.value)) else None
      else exists e: Err :: PartError(b, e) && err == Some(Outer(b, e))
  {
    var cu := Last(bs, 0);
    var b := bs[cu];
    RunError(bs);
    PartErrorExactly(cu, b);
    if !AllSound(b) {
      SettledExactly(b, DoOf(cu, b).err.value);
      DoOpens(cu, b);
    }
  }

  /** A run without error has run every statement with SQL of every transaction, once and in order. */
  lemma NilRanAll(bs: seq<Behaviour>, j: nat)
    requires bs != [] && j < |bs| && bs[j].Sql? && RunOf(bs).outcome.Returned? && RunOf(bs).outcome.err.None?
    ensures AllSound(bs[j]) && Rans(Of(RunOf(bs).log, j)) == Runs(j, bs[j].stmts, 0, |bs[j].stmts|)
  {
    NilCommitsAll(bs, j);
    PartErrorExactly(j, bs[j]);
    var k := RanExactly(bs, j);
  }
}
