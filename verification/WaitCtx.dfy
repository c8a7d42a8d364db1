/** ctx: WithWait and its done, WaitCtx: waiting for a planned number of children, then for all of them. */
module WaitCtx {
  import opened Util

  /** A child context: the first of its two counters changed, both changed, its own done called. */
  datatype Kid = Begun | Registered | Finished

  predicate Live(k: Kid) { k != Finished }

  predicate Counted(k: Kid) { k != Kid.Begun }

  datatype Answer = Nil | NothingWait | WaitTo | DoneCalled

  /**
   * A call of done: before its first step, then knowing whether it is the first call, in the loop on planC, in the loop
   * on actualC, about to return nil, returned. `seen` counts the children there were when actualC was found at zero.
   */
  datatype Phase =
    | Called
    | Entered
    | OnPlan
    | OnActual
    | Clear(seen: nat)
    | Returned(answer: Answer, seen: nat)

  datatype Call = Call(wait: bool, first: bool, phase: Phase)

  datatype State = State(
    planNum: int,
    timed: bool,         // a time limit was given
    planFirst: bool,     // planC changed before actualC: not what the source does
    planC: int,
    actualC: int,
    once: bool,
    kids: seq<Kid>,      // history: every child ever begun, in order
    calls: seq<Call>)

  function Init(planNum: int, timed: bool): State { State(planNum, timed, false, planNum, 0, false, [], []) }

  datatype Action =
    | Begin                // WaitCtx or WithWait on this context: actualC.Add(1)
    | Complete(i: nat)     // ... then planC.Add(-1)
    | Finish(i: nat)       // the child's done, once: actualC.Add(-1)
    | CallDone(wait: bool)
    | Swap(c: nat)         // oncef.CompareAndSwap
    | Check(c: nat)        // planNum == 0 && planC.Load() == 0
    | ReadPlan(c: nat)
    | ReadActual(c: nat)
    | TimeOut(c: nat)
    | Leave(c: nat)        // the last look at the time, then nil

  function At(s: State, c: nat, phase: Phase): State
    requires c < |s.calls|
  {
    s.(calls := s.calls[c := s.calls[c].(phase := phase)])
  }

  function Returns(s: State, c: nat, a: Answer): State
    requires c < |s.calls|
  {
    At(s, c, Returned(a, |s.kids|))
  }

  function OnSwap(s: State, c: nat): Option<State> {
    if !(c < |s.calls| && s.calls[c].phase.Called?) then None
    else
      var first := !s.once;
      if !s.calls[c].wait && !first then Some(Returns(s, c, DoneCalled))
      else Some(s.(once := true, calls := s.calls[c := Call(s.calls[c].wait, first, Entered)]))
  }

  function OnCheck(s: State, c: nat): Option<State> {
    if !(c < |s.calls| && s.calls[c].phase.Entered?) then None
    else if s.planNum == 0 && s.planC == 0 then Some(Returns(s, c, NothingWait))
    else Some(At(s, c, OnPlan))
  }

  function OnReadPlan(s: State, c: nat): Option<State> {
    if !(c < |s.calls| && s.calls[c].phase.OnPlan?) then None
    else if s.planC > 0 then Some(s) else Some(At(s, c, OnActual))
  }

  function OnReadActual(s: State, c: nat): Option<State> {
    if !(c < |s.calls| && s.calls[c].phase.OnActual?) then None
    else if s.actualC > 0 then Some(s) else Some(At(s, c, Clear(|s.kids|)))
  }

  function OnTimeOut(s: State, c: nat): Option<State> {
    if !(s.timed && c < |s.calls|) then None
    else if s.calls[c].phase.OnPlan? || s.calls[c].phase.OnActual? || s.calls[c].phase.Clear? then
      Some(Returns(s, c, WaitTo))
    else None
  }

  function OnLeave(s: State, c: nat): Option<State> {
    if c < |s.calls| && s.calls[c].phase.Clear? then Some(At(s, c, Returned(Nil, s.calls[c].phase.seen))) else None
  }

  function Raised(s: State): State { s.(actualC := s.actualC + 1) }

  function Lowered(s: State): State { s.(planC := s.planC - 1) }

  function OnKid(s: State, a: Action): Option<State>
    requires a.Begin? || a.Complete? || a.Finish?
  {
    match a
    case Begin => Some((if s.planFirst then Lowered(s) else Raised(s)).(kids := s.kids + [Kid.Begun]))
    case Complete(i) =>
      if i < |s.kids| && s.kids[i].Begun? then
        Some((if s.planFirst then Raised(s) else Lowered(s)).(kids := s.kids[i := Registered]))
      else None
    case Finish(i) =>
      if i < |s.kids| && s.kids[i].Registered? then Some(s.(actualC := s.actualC - 1, kids := s.kids[i := Finished]))
      else None
  }

  /** One atomic step; None where the action is not possible. */
  function Step(s: State, a: Action): Option<State> {
    match a
    case Begin => OnKid(s, a)
    case Complete(_) => OnKid(s, a)
    case Finish(_) => OnKid(s, a)
    case CallDone(wait) => Some(s.(calls := s.calls + [Call(wait, false, Called)]))
    case Swap(c) => OnSwap(s, c)
    case Check(c) => OnCheck(s, c)
    case ReadPlan(c) => OnReadPlan(s, c)
    case ReadActual(c) => OnReadActual(s, c)
    case TimeOut(c) => OnTimeOut(s, c)
    case Leave(c) => OnLeave(s, c)
  }

  function Run(s: State, actions: seq<Action>): Option<State> {
    if actions == [] then Some(s)
    else
      var r := Run(s, actions[..|actions| - 1]);
      if r.None? then None else Step(r.value, actions[|actions| - 1])
  }

  // ----- Invariant -----

  /** actualC counts the children not finished; planC is the plan less the completed registrations. */
  predicate Counters(s: State) {
    !s.planFirst && s.actualC == Count(s.kids, Live) && s.planC == s.planNum - Count(s.kids, Counted)
  }

  /** The first n children are all finished, and they are at least as many as planned. */
  predicate AllDone(s: State, n: nat) {
    n <= |s.kids| && n >= s.planNum && forall i :: 0 <= i < n ==> s.kids[i] == Finished
  }

  /** What has been found out by a call that has come this far. */
  predicate CallInv(s: State, c: Call) {
    && (c.phase.OnActual? ==> Count(s.kids, Counted) >= s.planNum)
    && (c.phase.Clear? ==> AllDone(s, c.phase.seen))
    && (c.phase.Returned? && c.phase.answer.Nil? ==> AllDone(s, c.phase.seen))
    && (c.phase.Returned? && c.phase.answer.NothingWait? ==> s.planNum == 0)
    && (c.phase.Returned? && c.phase.answer.DoneCalled? ==> !c.wait && !c.first)
    && (c.phase.Returned? && c.phase.answer.WaitTo? ==> s.timed)
    && (c.first ==> s.once) && (c.phase.Called? ==> !c.first)
    && (!c.phase.Called? && !(c.phase.Returned? && c.phase.answer.DoneCalled?) ==> c.wait || c.first)
  }

  predicate CallsInv(s: State) {
    && (forall c :: 0 <= c < |s.calls| ==> CallInv(s, s.calls[c]))
    && (forall c, d :: 0 <= c < d < |s.calls| ==> !(s.calls[c].first && s.calls[d].first))
  }

  predicate Inv(s: State) { Counters(s) && CallsInv(s) }

  /** What children do: none becomes unfinished or unregistered again. */
  predicate Onward(s: State, t: State) {
    && t.planNum == s.planNum && t.timed == s.timed && t.once == s.once && t.calls == s.calls
    && |t.kids| >= |s.kids| && Count(t.kids, Counted) >= Count(s.kids, Counted)
    && (forall i :: 0 <= i < |s.kids| && s.kids[i] == Finished ==> t.kids[i] == Finished)
  }

  lemma OnwardKeeps(s: State, t: State)
    requires CallsInv(s) && Onward(s, t)
    ensures CallsInv(t)
  {
    forall c | 0 <= c < |t.calls|
      ensures CallInv(t, t.calls[c])
    {
      assert CallInv(s, s.calls[c]);
    }
  }

  lemma KidStep(s: State, a: Action)
    requires (a.Begin? || a.Complete? || a.Finish?) && Inv(s) && OnKid(s, a).Some?
    ensures Inv(OnKid(s, a).value)
  {
    var t := OnKid(s, a).value;
    match a {
      case Begin =>
        CountAppend(s.kids, Kid.Begun, Live);
        CountAppend(s.kids, Kid.Begun, Counted);
      case Complete(i) =>
        CountUpdate(s.kids, i, Registered, Live);
        CountUpdate(s.kids, i, Registered, Counted);
      case Finish(i) =>
        CountUpdate(s.kids, i, Finished, Live);
        CountUpdate(s.kids, i, Finished, Counted);
    }
    OnwardKeeps(s, t);
  }

  /** No child left unfinished where actualC is zero. */
  lemma {:induction false} NoneLive(kids: seq<Kid>)
    requires Count(kids, Live) == 0
    ensures forall i :: 0 <= i < |kids| ==> kids[i] == Finished
  {
    if kids != [] { NoneLive(kids[..|kids| - 1]); }
  }

  lemma {:induction false} CountAtMost(kids: seq<Kid>)
    ensures Count(kids, Counted) <= |kids|
  {
    if kids != [] { CountAtMost(kids[..|kids| - 1]); }
  }

  /** A step of call c alone. */
  lemma CallStep(s: State, t: State, c: nat, call: Call)
    requires CallsInv(s) && c < |s.calls| && (s.once ==> t.once)
    requires t == s.(once := t.once, calls := s.calls[c := call])
    requires CallInv(t, call) && (call.first ==> s.calls[c].first || !s.once)
    ensures CallsInv(t)
  {
    forall d | 0 <= d < |t.calls|
      ensures CallInv(t, t.calls[d])
    {
      assert CallInv(s, s.calls[d]);
    }
    forall d, e | 0 <= d < e < |t.calls|
      ensures !(t.calls[d].first && t.calls[e].first)
    {
      assert CallInv(s, s.calls[d]) && CallInv(s, s.calls[e]);
    }
  }

  lemma NewCall(s: State, wait: bool)
    requires CallsInv(s)
    ensures CallsInv(s.(calls := s.calls + [Call(wait, false, Called)]))
  {
    var t := s.(calls := s.calls + [Call(wait, false, Called)]);
    forall d | 0 <= d < |s.calls|
      ensures CallInv(t, t.calls[d])
    {
      assert CallInv(s, s.calls[d]);
    }
  }

  /** What a call finds out in one step. */
  lemma Learns(s: State, a: Action, c: nat)
    requires Inv(s) && c < |s.calls| && Step(s, a).Some?
    requires a == Swap(c) || a == Check(c) || a == ReadPlan(c) || a == ReadActual(c) || a == TimeOut(c) || a == Leave(c)
    ensures var t := Step(s, a).value;
      && t == s.(once := t.once, calls := s.calls[c := t.calls[c]]) && (s.once ==> t.once)
      && CallInv(t, t.calls[c]) && (t.calls[c].first ==> s.calls[c].first || !s.once)
  {
    assert CallInv(s, s.calls[c]);
    if a == ReadActual(c) && s.actualC <= 0 {
      NoneLive(s.kids);
      CountAtMost(s.kids);
    }
  }

  lemma {:induction false} StepKeeps(s: State, a: Action)
    requires Inv(s) && Step(s, a).Some?
    ensures Inv(Step(s, a).value)
  {
    if a.Begin? || a.Complete? || a.Finish? {
      KidStep(s, a);
    } else if a.CallDone? {
      NewCall(s, a.wait);
    } else {
      Learns(s, a, a.c);
      CallStep(s, Step(s, a).value, a.c, Step(s, a).value.calls[a.c]);
    }
  }

  lemma {:induction false} RunKeeps(s: State, actions: seq<Action>)
    requires Inv(s) && Run(s, actions).Some?
    ensures Inv(Run(s, actions).value)
  {
    if actions != [] {
      RunKeeps(s, actions[..|actions| - 1]);
      StepKeeps(Run(s, actions[..|actions| - 1]).value, actions[|actions| - 1]);
    }
  }

  predicate Reachable(planNum: int, timed: bool, actions: seq<Action>) { Run(Init(planNum, timed), actions).Some? }

  /** In every interleaving the two counters are what they stand for. */
  lemma CountersHold(planNum: int, timed: bool, actions: seq<Action>)
    requires Reachable(planNum, timed, actions)
    ensures Counters(Run(Init(planNum, timed), actions).value)
  {
    RunKeeps(Init(planNum, timed), actions);
  }

  lemma PlanKept(s: State, a: Action)
    requires Step(s, a).Some?
    ensures Step(s, a).value.planNum == s.planNum && Step(s, a).value.timed == s.timed
  {
  }

  lemma {:induction false} RunPlanKept(s: State, actions: seq<Action>)
    requires Run(s, actions).Some?
    ensures Run(s, actions).value.planNum == s.planNum && Run(s, actions).value.timed == s.timed
  {
    if actions != [] {
      RunPlanKept(s, actions[..|actions| - 1]);
      PlanKept(Run(s, actions[..|actions| - 1]).value, actions[|actions| - 1]);
    }
  }

  /**
   * done that returned nil: the children begun before it found actualC at zero are at least as many as planned, and all
   * of them have finished.
   */
  lemma NilMeansFinished(planNum: int, timed: bool, actions: seq<Action>, c: nat)
    requires Reachable(planNum, timed, actions)
    requires var s := Run(Init(planNum, timed), actions).value;
      c < |s.calls| && s.calls[c].phase.Returned? && s.calls[c].phase.answer.Nil?
    ensures var s := Run(Init(planNum, timed), actions).value; var seen := s.calls[c].phase.seen;
      planNum <= seen <= |s.kids| && forall i :: 0 <= i < seen ==> s.kids[i] == Finished
  {
    RunKeeps(Init(planNum, timed), actions);
    RunPlanKept(Init(planNum, timed), actions);
    var s := Run(Init(planNum, timed), actions).value;
    assert CallInv(s, s.calls[c]);
  }

  /** The other answers: who gets ErrDoneCalled, ErrNothingWait and ErrWaitTo; one call at most counts as the first. */
  lemma AnswersMean(planNum: int, timed: bool, actions: seq<Action>, c: nat)
    requires Reachable(planNum, timed, actions) && c < |Run(Init(planNum, timed), actions).value.calls|
    ensures var s := Run(Init(planNum, timed), actions).value; var call := s.calls[c];
      && (call.phase.Returned? ==>
            && (call.phase.answer.DoneCalled? <==> !call.wait && !call.first)
            && (call.phase.answer.NothingWait? ==> planNum == 0)
            && (call.phase.answer.WaitTo? ==> timed))
      && (call.first ==> forall d :: 0 <= d < |s.calls| && d != c ==> !s.calls[d].first)
  {
    RunKeeps(Init(planNum, timed), actions);
    RunPlanKept(Init(planNum, timed), actions);
    var s := Run(Init(planNum, timed), actions).value;
    assert CallInv(s, s.calls[c]);
  }

  /** ErrNothingWait is given only while no child has completed its registration. */
  lemma NothingWaitExactly(s: State, c: nat)
    requires Inv(s) && c < |s.calls| && s.calls[c].phase.Entered?
    ensures Step(s, Check(c)) == Some(Returns(s, c, NothingWait)) <==> s.planNum == 0 && Count(s.kids, Counted) == 0
  {
    var t := Step(s, Check(c)).value;
    assert t.calls[c].phase.Returned? || t.calls[c].phase.OnPlan?;
  }

  /** Once as many children as planned have registered and all have finished, a waiting done gets through. */
  lemma GetsThrough(s: State, c: nat)
    requires Inv(s) && c < |s.calls| && s.calls[c].phase.OnPlan?
    requires Count(s.kids, Counted) >= s.planNum && Count(s.kids, Live) == 0
    ensures var t := Run(s, [ReadPlan(c), ReadActual(c), Leave(c)]);
      t.Some? && t.value.calls[c].phase == Returned(Nil, |s.kids|)
  {
    var actions := [ReadPlan(c), ReadActual(c), Leave(c)];
    assert actions[..2] == [ReadPlan(c), ReadActual(c)] && [ReadPlan(c), ReadActual(c)][..1] == [ReadPlan(c)];
    assert [ReadPlan(c)][..0] == [];
    assert Run(s, [ReadPlan(c)]) == Some(At(s, c, OnActual));
    var s1 := At(s, c, OnActual);
    assert Run(s, [ReadPlan(c), ReadActual(c)]) == Some(At(s1, c, Clear(|s.kids|)));
  }

  // ----- What a call can answer -----

  predicate OwnStep(a: Action, c: nat) {
    a == Swap(c) || a == Check(c) || a == ReadPlan(c) || a == ReadActual(c) || a == TimeOut(c) || a == Leave(c)
  }

  /** Steps of call c and nothing else. */
  predicate Own(actions: seq<Action>, c: nat) { forall i :: 0 <= i < |actions| ==> OwnStep(actions[i], c) }

  /** The planned children have registered, and all children have finished. */
  predicate AllIn(s: State) { Count(s.kids, Counted) >= s.planNum && Count(s.kids, Live) == 0 }

  /** A call that does not ask to wait, after another one. */
  predicate TurnedAway(s: State, wait: bool) { !wait && s.once }

  predicate NothingToWaitFor(s: State) { s.planNum == 0 && Count(s.kids, Counted) == 0 }

  /** The answers there are for a call of done while the children stay as they are. */
  predicate MayAnswer(s: State, wait: bool, a: Answer) {
    match a
    case DoneCalled => TurnedAway(s, wait)
    case NothingWait => !TurnedAway(s, wait) && NothingToWaitFor(s)
    case Nil => Waits(s, wait) && AllIn(s)
    case WaitTo => Waits(s, wait) && s.timed
  }

  predicate Waits(s: State, wait: bool) { !TurnedAway(s, wait) && !NothingToWaitFor(s) }

  /** How far call c, begun in s, has come. */
  predicate Along(s: State, wait: bool, t: State, c: nat) {
    && c == |s.calls| && |t.calls| == c + 1 && t.calls[c].wait == wait
    && t.kids == s.kids && t.planC == s.planC && t.actualC == s.actualC && t.planNum == s.planNum && t.timed == s.timed
    && match t.calls[c].phase
       case Called => t.once == s.once
       case Entered => !TurnedAway(s, wait)
       case OnPlan => Waits(s, wait)
       case OnActual => Waits(s, wait) && Count(s.kids, Counted) >= s.planNum
       case Clear(_) => Waits(s, wait) && AllIn(s)
       case Returned(a, _) => MayAnswer(s, wait, a)
  }

  lemma AlongStep(s: State, wait: bool, t: State, c: nat, a: Action)
    requires Inv(s) && Along(s, wait, t, c) && OwnStep(a, c) && Step(t, a).Some?
    ensures Along(s, wait, Step(t, a).value, c)
  {
  }

  lemma {:induction false} AlongRun(s: State, wait: bool, actions: seq<Action>, c: nat)
    requires Inv(s) && c == |s.calls| && Own(actions, c)
    requires Run(Step(s, CallDone(wait)).value, actions).Some?
    ensures Along(s, wait, Run(Step(s, CallDone(wait)).value, actions).value, c)
  {
    if actions != [] {
      var n := |actions| - 1;
      AlongRun(s, wait, actions[..n], c);
      AlongStep(s, wait, Run(Step(s, CallDone(wait)).value, actions[..n]).value, c, actions[n]);
    }
  }

  /** Steps of the new call's own after which it has given answer a. */
  ghost predicate Gives(s: State, wait: bool, a: Answer, actions: seq<Action>) {
    var c := |s.calls|;
    var r := Run(Step(s, CallDone(wait)).value, actions);
    Own(actions, c) && r.Some? && c < |r.value.calls| && r.value.calls[c].phase.Returned? && r.value.calls[c].phase.answer == a
  }

  /** While the children stay as they are a call of done can give exactly these answers; else it waits for ever. */
  lemma AnswersExactly(s: State, wait: bool, a: Answer)
    requires Inv(s)
    ensures (exists actions :: Gives(s, wait, a, actions)) <==> MayAnswer(s, wait, a)
  {
    if actions :| Gives(s, wait, a, actions) { AlongRun(s, wait, actions, |s.calls|); }
    if MayAnswer(s, wait, a) {
      var actions, t := AnswerReached(s, wait, a);
      assert Gives(s, wait, a, actions);
    }
  }

  lemma AnswerReached(s: State, wait: bool, a: Answer) returns (actions: seq<Action>, t: State)
    requires Inv(s) && MayAnswer(s, wait, a)
    ensures var c := |s.calls|;
      && Own(actions, c) && Run(Step(s, CallDone(wait)).value, actions) == Some(t)
      && c < |t.calls| && t.calls[c].phase.Returned? && t.calls[c].phase.answer == a
  {
    var c, s0 := |s.calls|, Step(s, CallDone(wait)).value;
    assert Run(s0, []) == Some(s0);
    actions, t := OneMore(s0, [], s0, c, Swap(c));
    if !a.DoneCalled? { actions, t := OneMore(s0, actions, t, c, Check(c)); }
    if Waits(s, wait) { actions, t := LoopReached(s, wait, s0, actions, t, c, a); }
  }

  lemma LoopReached(s: State, wait: bool, s0: State, before: seq<Action>, t0: State, c: nat, a: Answer)
    returns (actions: seq<Action>, t: State)
    requires Inv(s) && Along(s, wait, t0, c) && t0.calls[c].phase.OnPlan? && (if a.Nil? then AllIn(s) else a.WaitTo? && s.timed)
    requires Run(s0, before) == Some(t0) && Own(before, c)
    ensures Own(actions, c) && Run(s0, actions) == Some(t)
    ensures c < |t.calls| && t.calls[c].phase.Returned? && t.calls[c].phase.answer == a
  {
    if a.Nil? {
      actions, t := OneMore(s0, before, t0, c, ReadPlan(c));
      actions, t := OneMore(s0, actions, t, c, ReadActual(c));
      actions, t := OneMore(s0, actions, t, c, Leave(c));
    } else {
      actions, t := OneMore(s0, before, t0, c, TimeOut(c));
    }
  }

  lemma OneMore(s0: State, actions: seq<Action>, t: State, c: nat, a: Action) returns (more: seq<Action>, t': State)
    requires Run(s0, actions) == Some(t) && Own(actions, c) && OwnStep(a, c) && Step(t, a).Some?
    ensures Run(s0, more) == Some(t') && Own(more, c) && Step(t, a) == Some(t')
  {
    RunSnoc(s0, actions, t, a);
    more, t' := actions + [a], Step(t, a).value;
  }

  lemma RunSnoc(s: State, actions: seq<Action>, t: State, a: Action)
    requires Run(s, actions) == Some(t)
    ensures Run(s, actions + [a]) == Step(t, a)
  {
    assert (actions + [a])[..|actions|] == actions;
  }

  /** Steps of children that have begun. */
  predicate KidsOnly(actions: seq<Action>) { forall i :: 0 <= i < |actions| ==> actions[i].Complete? || actions[i].Finish? }

  /** Every child that has begun can complete its registration and finish: actualC comes down to zero. */
  lemma {:induction false} KidsFinish(s: State, n: nat) returns (actions: seq<Action>, t: State)
    requires Inv(s) && n <= |s.kids|
    ensures KidsOnly(actions) && Run(s, actions) == Some(t) && Inv(t) && |t.kids| == |s.kids| && t.calls == s.calls
    ensures forall i :: 0 <= i < n ==> t.kids[i] == Finished
    ensures n == |s.kids| ==> t.actualC == 0 && t.planC == s.planNum - |s.kids| && t.planNum == s.planNum
  {
    actions, t := [], s;
    if n > 0 {
      actions, t := KidsFinish(s, n - 1);
      if t.kids[n - 1].Begun? { actions, t := KidMore(s, actions, t, Complete(n - 1)); }
      if t.kids[n - 1].Registered? { actions, t := KidMore(s, actions, t, Finish(n - 1)); }
    }
    RunPlanKept(s, actions);
    if n == |s.kids| { AllFinished(t.kids); }
  }

  lemma KidMore(s: State, actions: seq<Action>, t: State, a: Action) returns (more: seq<Action>, t': State)
    requires KidsOnly(actions) && Run(s, actions) == Some(t) && Inv(t) && (a.Complete? || a.Finish?) && Step(t, a).Some?
    ensures KidsOnly(more) && Run(s, more) == Some(t') && Step(t, a) == Some(t') && Inv(t')
  {
    RunSnoc(s, actions, t, a);
    StepKeeps(t, a);
    more, t' := actions + [a], Step(t, a).value;
  }

  lemma {:induction false} AllFinished(kids: seq<Kid>)
    requires forall i :: 0 <= i < |kids| ==> kids[i] == Finished
    ensures Count(kids, Live) == 0 && Count(kids, Counted) == |kids|
  {
    if kids != [] { AllFinished(kids[..|kids| - 1]); }
  }

  // ----- The order of the two counters -----

  /** With planC lowered before actualC is raised, done could return nil while a planned child has not finished. */
  lemma PlanFirstMisses() returns (actions: seq<Action>)
    ensures var r := Run(Init(1, false).(planFirst := true), actions);
      r.Some? && r.value.kids == [Kid.Begun] && |r.value.calls| == 1 && r.value.calls[0].phase == Returned(Nil, 1)
  {
    var s := Init(1, false).(planFirst := true);
    var s1, a1 := Step(s, Begin).value, [Begin];
    RunSnoc(s, [], s, Begin);
    assert [] + [Begin] == a1;
    var s2, a2 := Step(s1, CallDone(false)).value, a1 + [CallDone(false)];
    RunSnoc(s, a1, s1, CallDone(false));
    var s3, a3 := Step(s2, Swap(0)).value, a2 + [Swap(0)];
    RunSnoc(s, a2, s2, Swap(0));
    var s4, a4 := Step(s3, Check(0)).value, a3 + [Check(0)];
    RunSnoc(s, a3, s3, Check(0));
    var s5, a5 := Step(s4, ReadPlan(0)).value, a4 + [ReadPlan(0)];
    RunSnoc(s, a4, s4, ReadPlan(0));
    var s6, a6 := Step(s5, ReadActual(0)).value, a5 + [ReadActual(0)];
    RunSnoc(s, a5, s5, ReadActual(0));
    RunSnoc(s, a6, s6, Leave(0));
    actions := a6 + [Leave(0)];
  }
}
