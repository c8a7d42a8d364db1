/** funcCtrl.BlockSeqFunc: a lock made of a chain of channels, each closed by the one who leaves. */
module BlockSeq {
  import opened Util

  /** A call of Block: its channel made, swapped in and waiting for the one it got, returned, its done called. */
  datatype Phase = New | Waiting(got: nat) | Inside | Left

  /** A call, and (history) its place in the order of Swaps once it has swapped. */
  datatype Blocked = Blocked(phase: Phase, pos: nat)

  /** Channel 0 is the closed one of the constructor; call p makes channel p + 1. */
  datatype State = State(
    closed: seq<bool>,
    l: nat,               // the channel last swapped in
    ps: seq<Blocked>,
    order: seq<nat>,      // history: calls in the order of their Swap
    entered: seq<nat>)    // history: calls in the order in which Block returned

  const INIT := State([true], 0, [], [], [])

  datatype Action = Call | Swap(p: nat) | Receive(p: nat) | Done(p: nat)

  function Own(p: nat): nat { p + 1 }

  function To(s: State, p: nat, phase: Phase): seq<Blocked>
    requires p < |s.ps|
  {
    s.ps[p := s.ps[p].(phase := phase)]
  }

  /** One atomic step. Calling done again closes a closed channel, which stops the program. */
  function Step(s: State, a: Action): Option<State> {
    match a
    case Call => Some(s.(ps := s.ps + [Blocked(New, 0)], closed := s.closed + [false]))
    case Swap(p) =>
      if p < |s.ps| && s.ps[p].phase.New? then
        Some(s.(ps := s.ps[p := Blocked(Waiting(s.l), |s.order|)], l := Own(p), order := s.order + [p]))
      else None
    case Receive(p) =>
      if p < |s.ps| && s.ps[p].phase.Waiting? && s.ps[p].phase.got < |s.closed| && s.closed[s.ps[p].phase.got] then
        Some(s.(ps := To(s, p, Inside), entered := s.entered + [p]))
      else None
    case Done(p) =>
      if p < |s.ps| && s.ps[p].phase.Inside? && Own(p) < |s.closed| then
        Some(s.(ps := To(s, p, Left), closed := s.closed[Own(p) := true]))
      else None
  }

  function Run(s: State, actions: seq<Action>): Option<State> {
    if actions == [] then Some(s)
    else
      var r := Run(s, actions[..|actions| - 1]);
      if r.None? then None else Step(r.value, actions[|actions| - 1])
  }

  // ----- Invariant -----

  /** The channel the k-th in the order waits for. */
  function Before(order: seq<nat>, k: nat): nat
    requires k <= |order|
  {
    if k == 0 then 0 else Own(order[k - 1])
  }

  predicate Channels(s: State) {
    && |s.closed| == |s.ps| + 1 && s.closed[0]
    && (forall p :: 0 <= p < |s.ps| ==> (s.closed[Own(p)] <==> s.ps[p].phase.Left?))
  }

  /** Every call that has swapped is in the order, and the order holds nothing else. */
  predicate Ordered(s: State) {
    && (forall p :: 0 <= p < |s.ps| && !s.ps[p].phase.New? ==> s.ps[p].pos < |s.order| && s.order[s.ps[p].pos] == p)
    && (forall k :: 0 <= k < |s.order| ==>
          s.order[k] < |s.ps| && !s.ps[s.order[k]].phase.New? && s.ps[s.order[k]].pos == k)
  }

  /** A waiting call waits for the channel of the one before it. */
  predicate Chain(s: State) {
    && s.l == Before(s.order, |s.order|)
    && (forall p :: 0 <= p < |s.ps| && s.ps[p].phase.Waiting? && s.ps[p].pos <= |s.order| ==>
          s.ps[p].phase.got == Before(s.order, s.ps[p].pos))
  }

  /** Those who have entered are the first in the order, and all but the last of them have left. */
  predicate Entered(s: State) {
    && |s.entered| <= |s.order| && s.entered == s.order[..|s.entered|]
    && (forall p :: 0 <= p < |s.ps| && !s.ps[p].phase.New? ==>
          (s.ps[p].phase.Waiting? <==> s.ps[p].pos >= |s.entered|)
          && (s.ps[p].pos < |s.entered| - 1 ==> s.ps[p].phase.Left?))
  }

  predicate Inv(s: State) { Channels(s) && Ordered(s) && Chain(s) && Entered(s) }

  lemma SwapOrders(s: State, p: nat)
    requires Ordered(s) && p < |s.ps| && s.ps[p].phase.New?
    ensures Ordered(Step(s, Swap(p)).value) && forall k :: 0 <= k < |s.order| ==> s.order[k] != p
  {
  }

  lemma SwapChains(s: State, p: nat)
    requires Ordered(s) && Chain(s) && p < |s.ps| && s.ps[p].phase.New?
    ensures Chain(Step(s, Swap(p)).value)
  {
    var t := Step(s, Swap(p)).value;
    forall q | 0 <= q < |t.ps| && t.ps[q].phase.Waiting? && t.ps[q].pos <= |t.order|
      ensures t.ps[q].phase.got == Before(t.order, t.ps[q].pos)
    {
      if q != p { assert s.order[s.ps[q].pos] == q; }
    }
  }

  lemma SwapKeeps(s: State, p: nat)
    requires Inv(s) && Step(s, Swap(p)).Some?
    ensures Inv(Step(s, Swap(p)).value)
  {
    var t := Step(s, Swap(p)).value;
    SwapOrders(s, p);
    SwapChains(s, p);
    assert t.order[..|t.entered|] == s.order[..|s.entered|];
  }

  /** Whoever gets through is the first that has not yet. */
  lemma ReceiveNext(s: State, p: nat)
    requires Inv(s) && Step(s, Receive(p)).Some?
    ensures |s.entered| < |s.order| && s.order[|s.entered|] == p && s.ps[p].pos == |s.entered|
    ensures |s.entered| > 0 ==> s.ps[s.order[|s.entered| - 1]].phase.Left?
  {
    var k := s.ps[p].pos;
    if k > 0 {
      var q := s.order[k - 1];
      assert s.closed[Own(q)] && s.ps[q].phase.Left? && s.ps[q].pos == k - 1;
    }
  }

  lemma ReceiveKeeps(s: State, p: nat)
    requires Inv(s) && Step(s, Receive(p)).Some?
    ensures Inv(Step(s, Receive(p)).value)
  {
    ReceiveNext(s, p);
    var m, t := |s.entered|, Step(s, Receive(p)).value;
    assert t.order[..m + 1] == s.order[..m] + [p];
    forall q | 0 <= q < |t.ps| && !t.ps[q].phase.New?
      ensures t.ps[q].phase.Waiting? <==> t.ps[q].pos >= m + 1
      ensures t.ps[q].pos < m ==> t.ps[q].phase.Left?
    {
      if q != p { assert s.order[s.ps[q].pos] == q; }
    }
  }

  lemma DoneKeeps(s: State, p: nat)
    requires Inv(s) && Step(s, Done(p)).Some?
    ensures Inv(Step(s, Done(p)).value)
  {
  }

  lemma CallKeeps(s: State)
    requires Inv(s)
    ensures Inv(Step(s, Call).value)
  {
  }

  lemma {:induction false} StepKeeps(s: State, a: Action)
    requires Inv(s) && Step(s, a).Some?
    ensures Inv(Step(s, a).value)
  {
    match a
    case Call => CallKeeps(s);
    case Swap(p) => SwapKeeps(s, p);
    case Receive(p) => ReceiveKeeps(s, p);
    case Done(p) => DoneKeeps(s, p);
  }

  lemma {:induction false} RunKeeps(actions: seq<Action>)
    requires Run(INIT, actions).Some?
    ensures Inv(Run(INIT, actions).value)
  {
    if actions != [] {
      RunKeeps(actions[..|actions| - 1]);
      StepKeeps(Run(INIT, actions[..|actions| - 1]).value, actions[|actions| - 1]);
    }
  }

  /** At most one call is between the return of Block and its done. */
  lemma MutualExclusion(actions: seq<Action>, p: nat, q: nat)
    requires Run(INIT, actions).Some?
    requires var s := Run(INIT, actions).value;
      p < |s.ps| && q < |s.ps| && s.ps[p].phase.Inside? && s.ps[q].phase.Inside?
    ensures p == q
  {
    RunKeeps(actions);
    var s := Run(INIT, actions).value;
    assert s.ps[p].pos == |s.entered| - 1 && s.ps[q].pos == |s.entered| - 1;
  }

  /** Calls enter in the order of their Swap, one after the other. */
  lemma EntersInOrder(actions: seq<Action>)
    requires Run(INIT, actions).Some?
    ensures var s := Run(INIT, actions).value; s.entered <= s.order
  {
    RunKeeps(actions);
  }

  /** With nobody inside, the next in the order gets through: nobody waits for nothing. */
  lemma NextGetsThrough(actions: seq<Action>)
    requires Run(INIT, actions).Some?
    requires var s := Run(INIT, actions).value;
      |s.entered| < |s.order| && forall p :: 0 <= p < |s.ps| ==> !s.ps[p].phase.Inside?
    ensures var s := Run(INIT, actions).value; Step(s, Receive(s.order[|s.entered|])).Some?
  {
    RunKeeps(actions);
    var s := Run(INIT, actions).value;
    var m := |s.entered|;
    var next := s.order[m];
    assert s.ps[next].phase.Waiting? && s.ps[next].pos == m;
    if m > 0 {
      var last := s.order[m - 1];
      assert s.ps[last].pos == m - 1 && s.ps[last].phase.Left?;
    }
  }

  // ----- Everybody gets through -----

  function StepsOf(p: Phase): nat {
    match p
    case New => 3
    case Waiting(_) => 2
    case Inside => 1
    case Left => 0
  }

  function WorkLeft(ps: seq<Blocked>): nat { if ps == [] then 0 else WorkLeft(ps[..|ps| - 1]) + StepsOf(ps[|ps| - 1].phase) }

  lemma {:induction false} WorkUpdate(ps: seq<Blocked>, p: nat, x: Blocked)
    requires p < |ps|
    ensures WorkLeft(ps[p := x]) == WorkLeft(ps) - StepsOf(ps[p].phase) + StepsOf(x.phase)
  {
    var n := |ps| - 1;
    if p < n {
      assert ps[p := x][..n] == ps[..n][p := x];
      WorkUpdate(ps[..n], p, x);
    } else {
      assert ps[p := x][..n] == ps[..n];
    }
  }

  predicate NoCall(actions: seq<Action>) { forall i :: 0 <= i < |actions| ==> !actions[i].Call? }

  /** Without new calls a run has only so many steps. */
  lemma {:induction false} StepsBounded(s: State, actions: seq<Action>)
    requires NoCall(actions) && Run(s, actions).Some?
    ensures |actions| + WorkLeft(Run(s, actions).value.ps) <= WorkLeft(s.ps)
  {
    if actions != [] {
      var n := |actions| - 1;
      var t, t' := Run(s, actions[..n]).value, Run(s, actions).value;
      StepsBounded(s, actions[..n]);
      WorkUpdate(t.ps, actions[n].p, t'.ps[actions[n].p]);
    }
  }

  predicate CanGo(s: State, p: nat) { Step(s, Swap(p)).Some? || Step(s, Receive(p)).Some? || Step(s, Done(p)).Some? }

  /** Unless all calls have left, one of them can go on. */
  lemma SomebodyGoes(actions: seq<Action>, p: nat)
    requires Run(INIT, actions).Some? && p < |Run(INIT, actions).value.ps| && !Run(INIT, actions).value.ps[p].phase.Left?
    ensures var s := Run(INIT, actions).value; exists q :: 0 <= q < |s.ps| && CanGo(s, q)
  {
    RunKeeps(actions);
    var s := Run(INIT, actions).value;
    if q :| 0 <= q < |s.ps| && (s.ps[q].phase.Inside? || s.ps[q].phase.New?) {
      assert CanGo(s, q);
    } else {
      assert s.ps[p].phase.Waiting? && s.order[s.ps[p].pos] == p;
      NextGetsThrough(actions);
      assert CanGo(s, s.order[|s.entered|]);
    }
  }

  /** When nobody can go on, everybody who called has been inside, in the order of the Swaps, and has left. */
  lemma AllGetThrough(actions: seq<Action>)
    requires Run(INIT, actions).Some?
    requires var s := Run(INIT, actions).value; forall p :: 0 <= p < |s.ps| ==> !CanGo(s, p)
    ensures var s := Run(INIT, actions).value;
      && (forall p :: 0 <= p < |s.ps| ==> s.ps[p].phase.Left? && p in s.entered) && s.entered == s.order
  {
    RunKeeps(actions);
    var s := Run(INIT, actions).value;
    forall p | 0 <= p < |s.ps|
      ensures s.ps[p].phase.Left?
    {
      if !s.ps[p].phase.Left? { SomebodyGoes(actions, p); }
    }
    forall p | 0 <= p < |s.ps|
      ensures p in s.entered
    {
      assert s.entered[s.ps[p].pos] == p;
    }
    forall k | 0 <= k < |s.order|
      ensures s.ps[s.order[k]].pos == k < |s.entered|
    {
      assert s.ps[s.order[k]].phase.Left? && s.ps[s.order[k]].pos == k;
    }
    assert |s.entered| == |s.order|;
  }
}
