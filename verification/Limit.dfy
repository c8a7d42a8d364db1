/** limit: a token bucket, its refilling goroutine, and the callers of TO. */
module Limit {
  import opened Util

  /** druation_timeout: negative, zero, positive. */
  datatype Wait = Forever | NoWait | Timed

  /** max tokens per period; `steady` when the period is zero. */
  datatype Config = Config(max: nat, steady: bool, wait: Wait)

  /**
   * The refilling goroutine: waiting for the next period, about to note the tokens left over, with so many tokens still
   * to be put in, putting tokens in all the time, ended.
   */
  datatype Filler = Sleeping | Noting | Filling(i: nat) | Steady | Ended

  /** A call of TO: before IsLive, after it, waiting for a token, with its answer (true: over the limit). */
  datatype Taker = Called | Live | Waiting | Answered(limited: bool)

  datatype State = State(
    c: Config,
    tokens: nat,          // in the bucket
    filler: Filler,
    live: bool,
    closed: bool,         // the bucket
    noted: nat,           // pre_bucket_token_num
    takers: seq<Taker>,
    ticks: nat,           // history: periods that have ended
    taken: nat,           // history: tokens received by callers
    free: nat)            // history: callers let through by a closed bucket or a dead limit

  function Init(c: Config): State {
    State(c, c.max, if c.steady then Steady else Sleeping, true, false, 0, [], 0, 0, 0)
  }

  datatype Action =
    | Tick | Note | Fill | Full | SeeCancel | Close
    | Call | Look(t: nat) | Enter(t: nat) | Receive(t: nat) | GiveUp(t: nat)

  function Is(s: State, t: nat, p: Taker): bool { t < |s.takers| && s.takers[t] == p }

  function To(s: State, t: nat, p: Taker): State
    requires t < |s.takers|
  {
    s.(takers := s.takers[t := p])
  }

  /** A token is put in, if there is room for it. */
  function OnFill(s: State): Option<State> {
    if s.tokens >= s.c.max then None
    else match s.filler
      case Filling(i) =>
        if i == 0 then None else Some(s.(tokens := s.tokens + 1, filler := if i == 1 then Sleeping else Filling(i - 1)))
      case Steady => Some(s.(tokens := s.tokens + 1))
      case _ => None
  }

  function OnFiller(s: State, a: Action): Option<State> {
    match a
    case Tick => if s.filler.Sleeping? then Some(s.(filler := Noting, ticks := s.ticks + 1)) else None
    case Note =>
      if s.filler.Noting? then Some(s.(noted := s.tokens, filler := if s.c.max == 0 then Sleeping else Filling(s.c.max)))
      else None
    case Fill => OnFill(s)
    case Full =>
      // the default case: no room, and no cancellation to be seen
      if s.filler.Filling? && s.tokens >= s.c.max && s.live then Some(s.(filler := Sleeping)) else None
    case SeeCancel =>
      if !s.live && (s.filler.Sleeping? || s.filler.Filling? || s.filler.Steady?) then
        Some(s.(filler := Ended, closed := true))
      else None
    case _ => None
  }

  function OnReceive(s: State, t: nat): Option<State> {
    if !Is(s, t, Waiting) then None
    else if s.tokens > 0 then Some(To(s, t, Answered(false)).(tokens := s.tokens - 1, taken := s.taken + 1))
    else if s.closed then Some(To(s, t, Answered(false)).(free := s.free + 1))
    else None
  }

  /** Without waiting, when there is nothing to receive; with a time limit, at any moment. */
  function OnGiveUp(s: State, t: nat): Option<State> {
    if !Is(s, t, Waiting) || s.c.steady then None
    else match s.c.wait
      case Forever => None
      case NoWait => if s.tokens > 0 || s.closed then None else Some(To(s, t, Answered(true)))
      case Timed => Some(To(s, t, Answered(true)))
  }

  function OnTaker(s: State, a: Action): Option<State> {
    match a
    case Call => Some(s.(takers := s.takers + [Called]))
    case Look(t) =>
      if !Is(s, t, Called) then None
      else if s.live then Some(To(s, t, Live)) else Some(To(s, t, Answered(false)).(free := s.free + 1))
    case Enter(t) => if Is(s, t, Live) then Some(To(s, t, Waiting)) else None
    case Receive(t) => OnReceive(s, t)
    case GiveUp(t) => OnGiveUp(s, t)
    case _ => None
  }

  function Step(s: State, a: Action): Option<State> {
    match a
    case Close => Some(s.(live := false))
    case Tick => OnFiller(s, a)
    case Note => OnFiller(s, a)
    case Fill => OnFiller(s, a)
    case Full => OnFiller(s, a)
    case SeeCancel => OnFiller(s, a)
    case _ => OnTaker(s, a)
  }

  function Run(s: State, actions: seq<Action>): Option<State> {
    if actions == [] then Some(s)
    else
      var r := Run(s, actions[..|actions| - 1]);
      if r.None? then None else Step(r.value, actions[|actions| - 1])
  }

  // ----- The bound -----

  /** Tokens a refill in progress may still put in. */
  function Pending(s: State): nat {
    match s.filler
    case Noting => s.c.max
    case Filling(i) => i
    case _ => 0
  }

  /** Calls that were let through. */
  predicate Granted(t: Taker) { t == Answered(false) }

  predicate Inv(s: State) {
    && s.tokens <= s.c.max && (s.closed ==> !s.live) && (s.c.steady <==> s.filler.Steady? || (s.c.steady && s.filler.Ended?))
    && (s.live ==> s.free == 0) && Count(s.takers, Granted) == s.taken + s.free
    && (s.filler.Ended? <==> s.closed) && Pending(s) <= s.c.max && (s.filler.Filling? ==> s.filler.i > 0)
    && (s.c.steady ==> forall t :: 0 <= t < |s.takers| ==> s.takers[t] != Answered(true))
  }

  /** What may have been taken since s0, by the time t: the tokens then and in the refill then, and max for each tick since. */
  predicate Bounded(s0: State, t: State) {
    && t.c == s0.c && t.ticks >= s0.ticks && t.taken >= s0.taken
    && (t.taken - s0.taken) + t.tokens + Pending(t) <= s0.tokens + Pending(s0) + (t.ticks - s0.ticks) * s0.c.max
  }

  /** A call moves on, perhaps with a token. */
  lemma TakerKeeps(s: State, u: State, t: nat, p: Taker)
    requires Inv(s) && t < |s.takers| && !Granted(s.takers[t]) && (s.c.steady ==> p != Answered(true))
    requires u == s.(takers := s.takers[t := p], tokens := u.tokens, taken := u.taken, free := u.free) && u.tokens <= s.tokens
    requires u.taken + u.free == s.taken + s.free + (if Granted(p) then 1 else 0) && (s.live ==> u.free == 0)
    ensures Inv(u)
  {
    CountUpdate(s.takers, t, p, Granted);
  }

  lemma FillerStep(s: State, a: Action)
    requires Inv(s) && (a.Tick? || a.Note? || a.Fill? || a.Full? || a.SeeCancel? || a.Close?) && Step(s, a).Some?
    ensures Inv(Step(s, a).value)
  {
  }

  lemma TakerStep(s: State, a: Action)
    requires Inv(s) && (a.Call? || a.Look? || a.Enter? || a.Receive? || a.GiveUp?) && Step(s, a).Some?
    ensures Inv(Step(s, a).value)
  {
    var u := Step(s, a).value;
    match a {
      case Call => CountAppend(s.takers, Called, Granted);
      case Look(t) => TakerKeeps(s, u, t, if s.live then Live else Answered(false));
      case Enter(t) => TakerKeeps(s, u, t, Waiting);
      case Receive(t) => TakerKeeps(s, u, t, Answered(false));
      case GiveUp(t) => TakerKeeps(s, u, t, Answered(true));
      case _ =>
    }
  }

  lemma StepKeeps(s: State, a: Action)
    requires Inv(s) && Step(s, a).Some?
    ensures Inv(Step(s, a).value)
  {
    if a.Call? || a.Look? || a.Enter? || a.Receive? || a.GiveUp? { TakerStep(s, a); } else { FillerStep(s, a); }
  }

  lemma StepBounded(s: State, a: Action)
    requires !s.c.steady && Inv(s) && Step(s, a).Some?
    ensures Bounded(s, Step(s, a).value) && Inv(Step(s, a).value)
  {
    StepKeeps(s, a);
  }

  lemma BoundedJoin(s: State, t: State, u: State)
    requires Bounded(s, t) && Bounded(t, u)
    ensures Bounded(s, u)
  {
    assert (u.ticks - s.ticks) * s.c.max == (u.ticks - t.ticks) * s.c.max + (t.ticks - s.ticks) * s.c.max;
  }

  lemma {:induction false} RunKeeps(s: State, actions: seq<Action>)
    requires Inv(s) && Run(s, actions).Some?
    ensures Inv(Run(s, actions).value) && Run(s, actions).value.c == s.c
    ensures !s.c.steady ==> Bounded(s, Run(s, actions).value)
    ensures s.live || !Run(s, actions).value.live
  {
    if actions != [] {
      var before, a := Run(s, actions[..|actions| - 1]).value, actions[|actions| - 1];
      RunKeeps(s, actions[..|actions| - 1]);
      StepKeeps(before, a);
      if !s.c.steady {
        StepBounded(before, a);
        BoundedJoin(s, before, Step(before, a).value);
      }
    }
  }

  /** How many calls have been let through. */
  function Grants(s: State): nat { Count(s.takers, Granted) }

  /**
   * Over any stretch of a run during which the limit is live, the calls let through are at most the tokens in the bucket
   * at its start, those still to come from a refill then under way, and max for every period that ends in it.
   */
  lemma GrantsBounded(c: Config, before: seq<Action>, after: seq<Action>)
    requires !c.steady && Run(Init(c), before).Some?
    requires var s := Run(Init(c), before).value; Run(s, after).Some? && Run(s, after).value.live
    ensures var s := Run(Init(c), before).value; var t := Run(s, after).value;
      Grants(t) - Grants(s) <= s.tokens + Pending(s) + (t.ticks - s.ticks) * c.max
  {
    RunKeeps(Init(c), before);
    RunKeeps(Run(Init(c), before).value, after);
    TakenAre(Run(Init(c), before).value, Run(Run(Init(c), before).value, after).value);
  }

  lemma TakenAre(s: State, t: State)
    requires Inv(s) && Inv(t) && s.live && t.live && Bounded(s, t)
    ensures Grants(t) - Grants(s) <= s.tokens + Pending(s) + (t.ticks - s.ticks) * s.c.max
  {
  }

  /** From the creation on: at most max for every period begun. */
  lemma GrantsFromCreation(c: Config, actions: seq<Action>)
    requires !c.steady && Run(Init(c), actions).Some? && Run(Init(c), actions).value.live
    ensures var t := Run(Init(c), actions).value; Grants(t) <= (t.ticks + 1) * c.max
  {
    GrantsBounded(c, [], actions);
    OneMore(Run(Init(c), actions).value.ticks, c.max);
  }

  lemma OneMore(k: nat, max: nat)
    ensures (k + 1) * max == k * max + max
  {
  }

  /** The bucket never overflows; with a period of zero nobody is told to be over the limit. */
  lemma BucketAndSteady(c: Config, actions: seq<Action>, t: nat)
    requires Run(Init(c), actions).Some?
    ensures Run(Init(c), actions).value.tokens <= c.max
    ensures var s := Run(Init(c), actions).value; c.steady && t < |s.takers| ==> s.takers[t] != Answered(true)
  {
    RunKeeps(Init(c), actions);
  }

  /** Once the bucket is closed and empty every waiting call is let through at once, and none is told otherwise without waiting. */
  lemma ClosedLetsThrough(c: Config, actions: seq<Action>, t: nat)
    requires Run(Init(c), actions).Some?
    requires var s := Run(Init(c), actions).value; s.closed && Is(s, t, Waiting)
    ensures var s := Run(Init(c), actions).value;
      && Step(s, Receive(t)).Some? && Step(s, Receive(t)).value.takers[t] == Answered(false)
      && (c.wait.NoWait? ==> Step(s, GiveUp(t)).None?)
  {
    RunKeeps(Init(c), actions);
  }

  // ----- The bound is reached -----

  lemma RunJoin(s: State, a: seq<Action>, t: State, b: seq<Action>)
    requires Run(s, a) == Some(t)
    ensures Run(s, a + b) == Run(t, b)
    decreases |b|
  {
    if b == [] {
      assert a + b == a;
    } else {
      RunJoin(s, a, t, b[..|b| - 1]);
      assert (a + b)[..|a + b| - 1] == a + b[..|b| - 1];
    }
  }

  lemma RunOne(s: State, a: seq<Action>, t: State, x: Action)
    requires Run(s, a) == Some(t)
    ensures Run(s, a + [x]) == Step(t, x)
  {
    assert (a + [x])[..|a|] == a;
  }

  /** A new call takes one token. */
  lemma Serve(s: State) returns (actions: seq<Action>, t: State)
    requires s.live && s.tokens > 0
    ensures Run(s, actions) == Some(t)
    ensures t == s.(tokens := s.tokens - 1, taken := s.taken + 1, takers := s.takers + [Answered(false)])
  {
    var n := |s.takers|;
    var s1 := s.(takers := s.takers + [Called]);
    var s2, s3 := s.(takers := s.takers + [Live]), s.(takers := s.takers + [Waiting]);
    t := s.(tokens := s.tokens - 1, taken := s.taken + 1, takers := s.takers + [Answered(false)]);
    assert s1.takers[n := Live] == s2.takers && s2.takers[n := Waiting] == s3.takers;
    assert s3.takers[n := Answered(false)] == t.takers;
    RunOne(s, [], s, Call);
    RunOne(s, [] + [Call], s1, Look(n));
    RunOne(s, [] + [Call] + [Look(n)], s2, Enter(n));
    RunOne(s, [] + [Call] + [Look(n)] + [Enter(n)], s3, Receive(n));
    actions := [] + [Call] + [Look(n)] + [Enter(n)] + [Receive(n)];
  }

  lemma {:induction false} TakeAll(s: State) returns (actions: seq<Action>, t: State)
    requires s.live
    ensures Run(s, actions) == Some(t) && t.live && t.tokens == 0 && t.taken == s.taken + s.tokens
    ensures t.c == s.c && t.filler == s.filler && t.ticks == s.ticks
    decreases s.tokens
  {
    actions, t := [], s;
    if s.tokens > 0 {
      var a, s1 := Serve(s);
      var b;
      b, t := TakeAll(s1);
      RunJoin(s, a, s1, b);
      actions := a + b;
    }
  }

  /** A refill every token of which is taken as soon as it is in. */
  lemma {:induction false} FillAndTake(s: State) returns (actions: seq<Action>, t: State)
    requires s.live && s.tokens == 0 && s.filler.Filling? && 0 < s.filler.i && s.c.max > 0
    ensures Run(s, actions) == Some(t) && t.live && t.tokens == 0 && t.taken == s.taken + s.filler.i
    ensures t.c == s.c && t.filler.Sleeping? && t.ticks == s.ticks
    decreases s.filler.i
  {
    var i := s.filler.i;
    var s1 := s.(tokens := 1, filler := if i == 1 then Sleeping else Filling(i - 1));
    RunOne(s, [], s, Fill);
    assert [] + [Fill] == [Fill];
    var a, s2 := Serve(s1);
    RunJoin(s, [Fill], s1, a);
    actions, t := [Fill] + a, s2;
    if i > 1 {
      var b;
      b, t := FillAndTake(s2);
      RunJoin(s, actions, s2, b);
      actions := actions + b;
    }
  }

  /** For every number of periods there is a run in which the bound is reached. */
  lemma {:induction false} BoundReached(c: Config, k: nat) returns (actions: seq<Action>, t: State)
    requires !c.steady && c.max > 0
    ensures Run(Init(c), actions) == Some(t) && t.live && t.ticks == k && t.taken == (k + 1) * c.max
    ensures t.c == c && t.tokens == 0 && t.filler.Sleeping?
  {
    if k == 0 {
      actions, t := TakeAll(Init(c));
    } else {
      var a, s := BoundReached(c, k - 1);
      var s1 := s.(filler := Noting, ticks := s.ticks + 1);
      var s2 := s1.(noted := 0, filler := Filling(c.max));
      RunOne(Init(c), a, s, Tick);
      RunOne(Init(c), a + [Tick], s1, Note);
      var b;
      b, t := FillAndTake(s2);
      RunJoin(Init(c), a + [Tick] + [Note], s2, b);
      actions := a + [Tick] + [Note] + b;
      assert (k + 1) * c.max == k * c.max + c.max;
    }
  }
}
