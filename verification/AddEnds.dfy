/** web.Limits.AddCount: every request comes to its end, and what it has taken comes back. */
module AddEnds {
  import opened Util
  import opened AddCount

  predicate Finished(p: Phase) { p.Done? || p.Refused? || p.Passed? }

  /** Steps a request has before it, in a list of n items. */
  function StepsOf(p: Phase, n: nat): nat {
    match p
    case Scan(i, ms) => if i <= n then 4 * n - i + 8 else 3 * n + 8
    case Queue(ms) => 3 * |ms| + 6
    case Check(ms, i) => if i <= |ms| then 3 * |ms| - i + 5 else 2 * |ms| + 5
    case Take(ms, i) => if i <= |ms| then 2 * |ms| - i + 3 else |ms| + 3
    case Admitted(ms) => |ms| + 2
    case Give(ms, i) => if i <= |ms| then |ms| - i + 1 else 1
    case _ => 0
  }

  function WorkLeft(rs: seq<Request>, n: nat): nat {
    if rs == [] then 0 else WorkLeft(rs[..|rs| - 1], n) + StepsOf(rs[|rs| - 1].phase, n)
  }

  lemma {:induction false} WorkUpdate(rs: seq<Request>, n: nat, r: nat, q: Request)
    requires r < |rs|
    ensures WorkLeft(rs[r := q], n) == WorkLeft(rs, n) - StepsOf(rs[r].phase, n) + StepsOf(q.phase, n)
  {
    var m := |rs| - 1;
    if r < m {
      assert rs[r := q][..m] == rs[..m][r := q];
      WorkUpdate(rs[..m], n, r, q);
    } else {
      assert rs[r := q][..m] == rs[..m];
    }
  }

  lemma {:induction false} WantedFew(want: seq<bool>, n: nat)
    requires n <= |want|
    ensures |Wanted(want, n)| <= n
  {
    if n > 0 { WantedFew(want, n - 1); }
  }

  lemma ScanLess(s: State, r: nat)
    requires Shaped(s) && r < |s.rs| && s.rs[r].phase.Scan?
    ensures var t := OnScan(s, r); t.rs == s.rs[r := t.rs[r]] && StepsOf(t.rs[r].phase, |s.g|) < StepsOf(s.rs[r].phase, |s.g|)
  {
    assert PhaseShaped(s, s.rs[r]);
    WantedFew(s.rs[r].want, |s.g|);
  }

  lemma LockedLess(s: State, r: nat)
    requires Shaped(s) && r < |s.rs| && Locking(s.rs[r].phase) && OnMove(s, r).Some?
    ensures var t := OnMove(s, r).value;
      t.rs == s.rs[r := t.rs[r]] && StepsOf(t.rs[r].phase, |s.g|) < StepsOf(s.rs[r].phase, |s.g|)
  {
    assert PhaseShaped(s, s.rs[r]);
  }

  lemma WaitLess(s: State, r: nat)
    requires Shaped(s) && r < |s.rs| && !Locking(s.rs[r].phase) && !s.rs[r].phase.Scan? && OnMove(s, r).Some?
    ensures var t := OnMove(s, r).value;
      t.rs == s.rs[r := t.rs[r]] && StepsOf(t.rs[r].phase, |s.g|) < StepsOf(s.rs[r].phase, |s.g|)
  {
  }

  lemma MoveLess(s: State, r: nat)
    requires Shaped(s) && Step(s, Move(r)).Some?
    ensures var t := Step(s, Move(r)).value; t.g == s.g && WorkLeft(t.rs, |s.g|) < WorkLeft(s.rs, |s.g|)
  {
    ListKept(s, Move(r));
    if s.rs[r].phase.Scan? { ScanLess(s, r); } else if Locking(s.rs[r].phase) { LockedLess(s, r); } else { WaitLess(s, r); }
    WorkUpdate(s.rs, |s.g|, r, Step(s, Move(r)).value.rs[r]);
  }

  predicate NoArrival(actions: seq<Action>) { forall i :: 0 <= i < |actions| ==> actions[i].Move? }

  /** Without new requests a run has only so many steps. */
  lemma {:induction false} StepsBounded(s: State, actions: seq<Action>)
    requires Inv(s) && NoArrival(actions) && Run(s, actions).Some?
    ensures var t := Run(s, actions).value; Inv(t) && |actions| + WorkLeft(t.rs, |s.g|) <= WorkLeft(s.rs, |s.g|)
  {
    if actions != [] {
      var n := |actions| - 1;
      var t := Run(s, actions[..n]).value;
      StepsBounded(s, actions[..n]);
      RunKeeps(s, actions[..n]);
      RunKeeps(s, actions);
      MoveLess(t, actions[n].r);
    }
  }

  /** Unless all requests are finished, one of them can go on: nobody waits for the lock for ever. */
  lemma SomebodyMoves(s: State, r: nat)
    requires Inv(s) && r < |s.rs| && !Finished(s.rs[r].phase)
    ensures exists q :: 0 <= q < |s.rs| && Step(s, Move(q)).Some?
  {
    if s.lock.Some? {
      HolderMoves(s);
    } else {
      assert Step(s, Move(r)).Some?;
    }
  }

  lemma {:induction false} NothingHeld(g: seq<nat>, rs: seq<Request>, o: nat)
    requires forall r :: 0 <= r < |rs| ==> Finished(rs[r].phase)
    ensures Total(g, rs, o) == 0
  {
    if rs != [] { NothingHeld(g, rs[..|rs| - 1], o); }
  }

  /** When nobody can go on, every request is finished, the lock is free and every counter is back at its maximum. */
  lemma AllReturned(g: seq<nat>, max: seq<int>, actions: seq<Action>)
    requires Listed(g, max) && Run(Init(g, max), actions).Some?
    requires var s := Run(Init(g, max), actions).value; Shaped(s) && forall r :: 0 <= r < |s.rs| ==> Step(s, Move(r)).None?
    ensures var s := Run(Init(g, max), actions).value;
      && (forall r :: 0 <= r < |s.rs| ==> Finished(s.rs[r].phase)) && s.lock.None? && s.avail == max
  {
    var s := Run(Init(g, max), actions).value;
    assert Inv(Init(g, max));
    RunKeeps(Init(g, max), actions);
    forall r | 0 <= r < |s.rs|
      ensures Finished(s.rs[r].phase)
    {
      if !Finished(s.rs[r].phase) { SomebodyMoves(s, r); }
    }
    forall o | 0 <= o < |max|
      ensures s.avail[o] == max[o]
    {
      NothingHeld(g, s.rs, o);
      AvailableIs(g, max, actions, o);
    }
    if s.lock.Some? { HolderMoves(s); }
  }
}
