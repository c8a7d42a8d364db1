/** limit: what one call of TO can answer, and what a refill comes to, while nothing else moves. */
module LimitAlone {
  import opened Util
  import opened Limit

  // ----- One call -----

  predicate OwnStep(a: Action, t: nat) { a == Look(t) || a == Enter(t) || a == Receive(t) || a == GiveUp(t) }

  /** Steps of call t and nothing else. */
  predicate Own(actions: seq<Action>, t: nat) { forall i :: 0 <= i < |actions| ==> OwnStep(actions[i], t) }

  /**
   * The answers there are: a dead limit lets everybody through; a live one whom it has a token for; and over the limit is,
   * unless the period is zero, who has a time to wait, or does not wait and finds nothing.
   */
  predicate MayAnswer(s: State, limited: bool) {
    if !s.live then !limited
    else if !limited then s.tokens > 0
    else !s.c.steady && (s.c.wait.Timed? || (s.c.wait.NoWait? && s.tokens == 0))
  }

  /** How far call n, begun in s, has come. */
  predicate Along(s: State, t: State, n: nat) {
    && n == |s.takers| && |t.takers| == n + 1 && t.c == s.c && t.live == s.live && t.closed == s.closed
    && match t.takers[n]
       case Called => t.tokens == s.tokens
       case Answered(limited) => MayAnswer(s, limited)
       case _ => t.tokens == s.tokens && s.live
  }

  lemma AlongStep(s: State, t: State, n: nat, a: Action)
    requires Inv(s) && Along(s, t, n) && OwnStep(a, n) && Step(t, a).Some?
    ensures Along(s, Step(t, a).value, n)
  {
  }

  lemma {:induction false} AlongRun(s: State, actions: seq<Action>, n: nat)
    requires Inv(s) && n == |s.takers| && Own(actions, n) && Run(Step(s, Call).value, actions).Some?
    ensures Along(s, Run(Step(s, Call).value, actions).value, n)
  {
    if actions != [] {
      var m := |actions| - 1;
      AlongRun(s, actions[..m], n);
      AlongStep(s, Run(Step(s, Call).value, actions[..m]).value, n, actions[m]);
    }
  }

  /** Steps of the new call's own after which it has answered. */
  ghost predicate Gives(s: State, limited: bool, actions: seq<Action>) {
    var r := Run(Step(s, Call).value, actions);
    Own(actions, |s.takers|) && r.Some? && Is(r.value, |s.takers|, Answered(limited))
  }

  /** While nothing else moves a call of TO can give exactly these answers; where there is none it waits. */
  lemma AnswersExactly(s: State, limited: bool)
    requires Inv(s)
    ensures (exists actions :: Gives(s, limited, actions)) <==> MayAnswer(s, limited)
  {
    if actions :| Gives(s, limited, actions) { AlongRun(s, actions, |s.takers|); }
    if MayAnswer(s, limited) {
      var actions := AnswerReached(s, limited);
      assert Gives(s, limited, actions);
    }
  }

  lemma AnswerReached(s: State, limited: bool) returns (actions: seq<Action>)
    requires Inv(s) && MayAnswer(s, limited)
    ensures Gives(s, limited, actions)
  {
    var n, s0 := |s.takers|, Step(s, Call).value;
    RunOne(s0, [], s0, Look(n));
    assert [] + [Look(n)] == [Look(n)];
    var s1 := Step(s0, Look(n)).value;
    actions := [Look(n)];
    if s.live {
      RunOne(s0, actions, s1, Enter(n));
      var s2 := Step(s1, Enter(n)).value;
      RunOne(s0, actions + [Enter(n)], s2, if limited then GiveUp(n) else Receive(n));
      actions := actions + [Enter(n)] + [if limited then GiveUp(n) else Receive(n)];
    }
  }

  // ----- The refill -----

  predicate FillerStep(a: Action) { a.Tick? || a.Note? || a.Fill? || a.Full? || a.SeeCancel? }

  predicate FillerOnly(actions: seq<Action>) { forall i :: 0 <= i < |actions| ==> FillerStep(actions[i]) }

  /** A refill under way is enough for a full bucket; between refills the bucket is full once there was one. */
  predicate WillBeFull(s: State, t: State) {
    && t.c == s.c && t.live == s.live && t.ticks >= s.ticks && t.tokens <= t.c.max
    && (t.filler.Filling? ==> t.tokens + t.filler.i >= t.c.max)
    && (t.filler.Sleeping? && t.ticks > s.ticks ==> t.tokens == t.c.max)
  }

  lemma {:induction false} RefillRun(s: State, actions: seq<Action>)
    requires s.live && s.filler.Sleeping? && s.tokens <= s.c.max && FillerOnly(actions) && Run(s, actions).Some?
    ensures WillBeFull(s, Run(s, actions).value) && !Run(s, actions).value.filler.Ended?
  {
    if actions != [] {
      var n := |actions| - 1;
      RefillRun(s, actions[..n]);
      assert FillerStep(actions[n]);
    }
  }

  /** With no calls in between, the bucket is full when the goroutine waits for the next period again. */
  lemma RefillFills(s: State, actions: seq<Action>)
    requires s.live && s.filler.Sleeping? && s.tokens <= s.c.max && FillerOnly(actions) && Run(s, actions).Some?
    requires var t := Run(s, actions).value; t.filler.Sleeping? && t.ticks > s.ticks
    ensures Run(s, actions).value.tokens == s.c.max
  {
    RefillRun(s, actions);
  }

  /** Work the goroutine has before it until it waits for a period again, or has ended. */
  function FillerLeft(f: Filler, max: nat): nat {
    match f
    case Noting => max + 1
    case Filling(i) => i
    case _ => 0
  }

  /** In the middle of a refill it can always go on, and comes nearer to its end. */
  lemma FillerGoesOn(s: State)
    requires Inv(s) && !s.filler.Ended? && !s.filler.Sleeping? && !s.filler.Steady?
    ensures exists a :: FillerStep(a) && FillerEnds(s, a)
    ensures forall a :: FillerStep(a) && Step(s, a).Some? ==> FillerEnds(s, a)
  {
    if s.filler.Noting? {
      assert FillerEnds(s, Note);
    } else if !s.live {
      assert FillerEnds(s, SeeCancel);
    } else if s.tokens >= s.c.max {
      assert FillerEnds(s, Full);
    } else {
      assert FillerEnds(s, Fill);
    }
  }

  predicate FillerEnds(s: State, a: Action) {
    Step(s, a).Some? && FillerLeft(Step(s, a).value.filler, s.c.max) < FillerLeft(s.filler, s.c.max)
  }

  /** After the close the goroutine can close the bucket wherever it is, or, at the start of a refill, a step later. */
  lemma CloseEnds(s: State)
    requires Inv(s) && !s.live && !s.filler.Ended?
    ensures var t := if s.filler.Noting? then Step(s, Note) else Some(s);
      t.Some? && Step(t.value, SeeCancel).Some? && Step(t.value, SeeCancel).value.closed
  {
  }
}
