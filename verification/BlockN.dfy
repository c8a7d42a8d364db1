/** funcCtrl.BlockFuncN: a counting semaphore made of a channel with room for max tokens. */
module BlockN {
  import opened Util

  /**
   * A call of Block: before its send, holding a token, released. A call of BlockAll: with so many tokens put in,
   * returned, with so many tokens still to take out, released.
   */
  datatype Phase =
    | Wants
    | Holds
    | Gone
    | WantsAll(put: nat)
    | HoldsAll
    | Giving(left: nat)

  datatype State = State(max: nat, tokens: nat, ps: seq<Phase>)

  function Init(max: nat): State { State(max, 0, []) }

  /** Move: the next send or receive of a call, or the return from BlockAll; Release: its unBlock is called, once. */
  datatype Action = Block | BlockAll | Move(p: nat) | Release(p: nat)

  function Put(s: State, p: nat, next: Phase): Option<State>
    requires p < |s.ps|
  {
    if s.tokens < s.max then Some(s.(tokens := s.tokens + 1, ps := s.ps[p := next])) else None
  }

  function TakeOut(s: State, p: nat, next: Phase): Option<State>
    requires p < |s.ps|
  {
    if s.tokens > 0 then Some(s.(tokens := s.tokens - 1, ps := s.ps[p := next])) else None
  }

  function Step(s: State, a: Action): Option<State> {
    match a
    case Block => Some(s.(ps := s.ps + [Wants]))
    case BlockAll => Some(s.(ps := s.ps + [WantsAll(0)]))
    case Move(p) =>
      if p >= |s.ps| then None
      else (match s.ps[p]
        case Wants => Put(s, p, Holds)
        case WantsAll(put) => if put < s.max then Put(s, p, WantsAll(put + 1)) else Some(s.(ps := s.ps[p := HoldsAll]))
        case Giving(left) => if left > 0 then TakeOut(s, p, Giving(left - 1)) else Some(s.(ps := s.ps[p := Gone]))
        case _ => None)
    case Release(p) =>
      if p >= |s.ps| then None
      else (match s.ps[p]
        case Holds => TakeOut(s, p, Gone)
        case HoldsAll => Some(s.(ps := s.ps[p := Giving(s.max)]))
        case _ => None)
  }

  function Run(s: State, actions: seq<Action>): Option<State> {
    if actions == [] then Some(s)
    else
      var r := Run(s, actions[..|actions| - 1]);
      if r.None? then None else Step(r.value, actions[|actions| - 1])
  }

  // ----- Invariant -----

  /** The tokens in the channel that a call has put there. */
  function Held(p: Phase, max: nat): nat {
    match p
    case Holds => 1
    case WantsAll(put) => put
    case HoldsAll => max
    case Giving(left) => left
    case _ => 0
  }

  function Total(ps: seq<Phase>, max: nat): nat {
    if ps == [] then 0 else Total(ps[..|ps| - 1], max) + Held(ps[|ps| - 1], max)
  }

  lemma {:induction false} TotalUpdate(ps: seq<Phase>, max: nat, p: nat, x: Phase)
    requires p < |ps|
    ensures Total(ps[p := x], max) == Total(ps, max) - Held(ps[p], max) + Held(x, max)
  {
    var n := |ps| - 1;
    if p < n {
      assert ps[p := x][..n] == ps[..n][p := x];
      TotalUpdate(ps[..n], max, p, x);
    } else {
      assert ps[p := x][..n] == ps[..n];
    }
  }

  lemma {:induction false} TotalTwo(ps: seq<Phase>, max: nat, p: nat, q: nat)
    requires p < q < |ps|
    ensures Total(ps, max) >= Held(ps[p], max) + Held(ps[q], max)
  {
    var n := |ps| - 1;
    if q < n { TotalTwo(ps[..n], max, p, q); } else { TotalOne(ps[..n], max, p); }
  }

  lemma {:induction false} TotalOne(ps: seq<Phase>, max: nat, p: nat)
    requires p < |ps|
    ensures Total(ps, max) >= Held(ps[p], max)
  {
    if p < |ps| - 1 { TotalOne(ps[..|ps| - 1], max, p); }
  }

  /** The tokens in the channel are those held, and no more than it has room for. */
  predicate Inv(s: State) {
    && s.tokens == Total(s.ps, s.max) <= s.max
    && forall p :: 0 <= p < |s.ps| ==> Held(s.ps[p], s.max) <= s.max
  }

  /** A call changes its own phase, and as many tokens as it then holds more or less. */
  lemma ChangeKeeps(s: State, t: State, p: nat, x: Phase)
    requires Inv(s) && p < |s.ps| && t.max == s.max && t.ps == s.ps[p := x]
    requires t.tokens - s.tokens == Held(x, s.max) - Held(s.ps[p], s.max) && t.tokens <= s.max && Held(x, s.max) <= s.max
    ensures Inv(t)
  {
    TotalUpdate(s.ps, s.max, p, x);
  }

  lemma MoveKeeps(s: State, p: nat)
    requires Inv(s) && Step(s, Move(p)).Some?
    ensures Inv(Step(s, Move(p)).value) && Step(s, Move(p)).value.max == s.max
  {
    var t := Step(s, Move(p)).value;
    ChangeKeeps(s, t, p, t.ps[p]);
  }

  lemma ReleaseKeeps(s: State, p: nat)
    requires Inv(s) && Step(s, Release(p)).Some?
    ensures Inv(Step(s, Release(p)).value) && Step(s, Release(p)).value.max == s.max
  {
    var t := Step(s, Release(p)).value;
    ChangeKeeps(s, t, p, t.ps[p]);
  }

  lemma StepKeeps(s: State, a: Action)
    requires Inv(s) && Step(s, a).Some?
    ensures Inv(Step(s, a).value) && Step(s, a).value.max == s.max
  {
    match a {
      case Block => assert (s.ps + [Wants])[..|s.ps|] == s.ps;
      case BlockAll => assert (s.ps + [WantsAll(0)])[..|s.ps|] == s.ps;
      case Move(p) => MoveKeeps(s, p);
      case Release(p) => ReleaseKeeps(s, p);
    }
  }

  lemma {:induction false} RunKeeps(max: nat, actions: seq<Action>)
    requires Run(Init(max), actions).Some?
    ensures Inv(Run(Init(max), actions).value) && Run(Init(max), actions).value.max == max
  {
    if actions != [] {
      RunKeeps(max, actions[..|actions| - 1]);
      StepKeeps(Run(Init(max), actions[..|actions| - 1]).value, actions[|actions| - 1]);
    }
  }

  /** In every interleaving the channel holds exactly the tokens held, never more than max. */
  lemma TokensAreHeld(max: nat, actions: seq<Action>)
    requires Run(Init(max), actions).Some?
    ensures var s := Run(Init(max), actions).value; s.tokens == Total(s.ps, max) <= max
  {
    RunKeeps(max, actions);
  }

  /** A completed BlockAll: nobody else holds anything, or has completed either. */
  lemma AllExcludes(max: nat, actions: seq<Action>, p: nat, q: nat)
    requires max > 0 && Run(Init(max), actions).Some? && p != q
    requires var s := Run(Init(max), actions).value; p < |s.ps| && q < |s.ps| && s.ps[p].HoldsAll?
    ensures var s := Run(Init(max), actions).value; Held(s.ps[q], max) == 0 && !s.ps[q].Holds? && !s.ps[q].HoldsAll?
  {
    RunKeeps(max, actions);
    var s := Run(Init(max), actions).value;
    TotalTwo(s.ps, max, if p < q then p else q, if p < q then q else p);
  }

  lemma RunOne(s: State, a: seq<Action>, t: State, x: Action)
    requires Run(s, a) == Some(t)
    ensures Run(s, a + [x]) == Step(t, x)
  {
    assert (a + [x])[..|a|] == a;
  }

  /** Two calls of BlockAll, neither of which has moved. */
  lemma TwoCalls(max: nat) returns (actions: seq<Action>, s: State)
    ensures Run(Init(max), actions) == Some(s) && s.max == max && s.tokens == 0
    ensures |s.ps| == 2 && s.ps[0] == WantsAll(0) && s.ps[1] == WantsAll(0)
    ensures Count(actions, IsBlockAll) == 2
  {
    var s0 := Init(max);
    var s1 := Step(s0, BlockAll).value;
    s := Step(s1, BlockAll).value;
    RunOne(s0, [], s0, BlockAll);
    RunOne(s0, [] + [BlockAll], s1, BlockAll);
    CountAppend([], BlockAll, IsBlockAll);
    CountAppend([] + [BlockAll], BlockAll, IsBlockAll);
    actions := [] + [BlockAll] + [BlockAll];
  }

  /** Without any room BlockAll excludes nobody: two of them return at once. */
  lemma NoRoomExcludesNobody(max: nat) returns (actions: seq<Action>, t: State)
    requires max == 0
    ensures Run(Init(max), actions) == Some(t) && |t.ps| == 2 && t.ps[0].HoldsAll? && t.ps[1].HoldsAll?
  {
    var a, s := TwoCalls(max);
    var s1 := Step(s, Move(0)).value;
    t := Step(s1, Move(1)).value;
    RunOne(Init(max), a, s, Move(0));
    RunOne(Init(max), a + [Move(0)], s1, Move(1));
    actions := a + [Move(0)] + [Move(1)];
  }

  // ----- Calls that stop each other -----

  predicate CanGo(s: State, p: nat) { Step(s, Move(p)).Some? || Step(s, Release(p)).Some? }

  /** Somebody has not finished, and nobody can go on. */
  ghost predicate Stuck(s: State) {
    (exists p :: 0 <= p < |s.ps| && !s.ps[p].Gone?) && forall p :: 0 <= p < |s.ps| ==> !CanGo(s, p)
  }

  predicate WaitsForRoom(p: Phase, max: nat) { p.Wants? || (p.WantsAll? && p.put < max) }

  /** Whoever has returned from its call, or gives back, can go on; so can whoever waits while there is room. */
  lemma CanGoExactly(s: State, p: nat)
    requires Inv(s) && p < |s.ps|
    ensures CanGo(s, p) <==> !s.ps[p].Gone? && (s.tokens < s.max || !WaitsForRoom(s.ps[p], s.max))
  {
    TotalOne(s.ps, s.max, p);
  }

  /** Stuck is: a full channel, and every call that has not finished waits for room in it. */
  lemma StuckExactly(s: State)
    requires Inv(s)
    ensures Stuck(s) <==>
            && (exists p :: 0 <= p < |s.ps| && !s.ps[p].Gone?)
            && s.tokens == s.max
            && forall p :: 0 <= p < |s.ps| && !s.ps[p].Gone? ==> WaitsForRoom(s.ps[p], s.max)
  {
    forall p | 0 <= p < |s.ps|
      ensures CanGo(s, p) <==> !s.ps[p].Gone? && (s.tokens < s.max || !WaitsForRoom(s.ps[p], s.max))
    {
      CanGoExactly(s, p);
    }
  }

  /** A BlockAll that has put some of its tokens in and waits for room for the others. */
  predicate HalfWay(p: Phase) { p.WantsAll? && p.put > 0 }

  lemma {:induction false} SomeHolder(ps: seq<Phase>, max: nat) returns (p: nat)
    requires Total(ps, max) > 0
    ensures p < |ps| && Held(ps[p], max) > 0
  {
    p := |ps| - 1;
    if Held(ps[p], max) == 0 { p := SomeHolder(ps[..p], max); }
  }

  lemma {:induction false} OtherHolder(ps: seq<Phase>, max: nat, p: nat) returns (q: nat)
    requires p < |ps| && Total(ps, max) > Held(ps[p], max)
    ensures q < |ps| && q != p && Held(ps[q], max) > 0
  {
    TotalUpdate(ps, max, p, Gone);
    q := SomeHolder(ps[p := Gone], max);
  }

  /** In a semaphore with room only two BlockAll that each hold some of the tokens, and not all, stop everybody. */
  lemma StuckNeedsTwo(s: State) returns (p: nat, q: nat)
    requires Inv(s) && Stuck(s) && s.max > 0
    ensures s.max >= 2 && p < |s.ps| && q < |s.ps| && p != q && HalfWay(s.ps[p]) && HalfWay(s.ps[q])
  {
    StuckExactly(s);
    p := SomeHolder(s.ps, s.max);
    q := OtherHolder(s.ps, s.max, p);
  }

  /** No step was made by any of the calls of s. */
  predicate Kept(s: State, t: State) {
    t.max == s.max && t.tokens == s.tokens && |t.ps| >= |s.ps| && t.ps[..|s.ps|] == s.ps
  }

  lemma KeptTwice(s: State, t: State, u: State)
    requires Kept(s, t) && Kept(t, u)
    ensures Kept(s, u)
  {
    assert u.ps[..|s.ps|] == u.ps[..|t.ps|][..|s.ps|];
  }

  lemma StuckStep(s: State, a: Action)
    requires Inv(s) && Stuck(s) && s.max > 0 && Step(s, a).Some?
    ensures Kept(s, Step(s, a).value) && Inv(Step(s, a).value) && Stuck(Step(s, a).value)
  {
    var t := Step(s, a).value;
    StepKeeps(s, a);
    StuckExactly(s);
    assert a.Move? || a.Release? ==> CanGo(s, a.p);
    var p :| 0 <= p < |s.ps| && !s.ps[p].Gone?;
    assert t.ps[p] == s.ps[p];
    StuckExactly(t);
  }

  /** Then none of them ever moves, whatever further calls are made, and those are stuck as well. */
  lemma {:induction false} StuckForever(s: State, actions: seq<Action>)
    requires Inv(s) && Stuck(s) && s.max > 0 && Run(s, actions).Some?
    ensures var t := Run(s, actions).value; Kept(s, t) && Inv(t) && Stuck(t)
  {
    if actions != [] {
      var t := Run(s, actions[..|actions| - 1]).value;
      StuckForever(s, actions[..|actions| - 1]);
      StuckStep(t, actions[|actions| - 1]);
      KeptTwice(s, t, Run(s, actions).value);
    }
  }

  // ----- How runs end -----

  /** Steps a call has before it. */
  function StepsOf(p: Phase, max: nat): nat {
    match p
    case Wants => 2
    case Holds => 1
    case Gone => 0
    case WantsAll(put) => if put <= max then 2 * max - put + 3 else max + 3
    case HoldsAll => max + 2
    case Giving(left) => left + 1
  }

  function WorkLeft(ps: seq<Phase>, max: nat): nat {
    if ps == [] then 0 else WorkLeft(ps[..|ps| - 1], max) + StepsOf(ps[|ps| - 1], max)
  }

  lemma {:induction false} WorkUpdate(ps: seq<Phase>, max: nat, p: nat, x: Phase)
    requires p < |ps|
    ensures WorkLeft(ps[p := x], max) == WorkLeft(ps, max) - StepsOf(ps[p], max) + StepsOf(x, max)
  {
    var n := |ps| - 1;
    if p < n {
      assert ps[p := x][..n] == ps[..n][p := x];
      WorkUpdate(ps[..n], max, p, x);
    } else {
      assert ps[p := x][..n] == ps[..n];
    }
  }

  predicate NoCall(actions: seq<Action>) { forall i :: 0 <= i < |actions| ==> !actions[i].Block? && !actions[i].BlockAll? }

  /** A run without new calls has only so many steps: it comes to where nobody can go on. */
  lemma {:induction false} StepsBounded(s: State, actions: seq<Action>)
    requires NoCall(actions) && Run(s, actions).Some?
    ensures var t := Run(s, actions).value; t.max == s.max && |actions| + WorkLeft(t.ps, s.max) <= WorkLeft(s.ps, s.max)
  {
    if actions != [] {
      var n := |actions| - 1;
      var t, t' := Run(s, actions[..n]).value, Run(s, actions).value;
      StepsBounded(s, actions[..n]);
      StepLess(t, actions[n], t');
    }
  }

  lemma StepLess(s: State, a: Action, t: State)
    requires !a.Block? && !a.BlockAll? && Step(s, a) == Some(t)
    ensures t.max == s.max && WorkLeft(t.ps, s.max) < WorkLeft(s.ps, s.max)
  {
    assert t.ps == s.ps[a.p := t.ps[a.p]];
    WorkUpdate(s.ps, s.max, a.p, t.ps[a.p]);
  }

  /** That is: everybody has finished and the channel is empty, or they are stuck. */
  lemma EndsOrSticks(s: State)
    requires Inv(s) && forall p :: 0 <= p < |s.ps| ==> !CanGo(s, p)
    ensures Stuck(s) || (s.tokens == 0 && forall p :: 0 <= p < |s.ps| ==> s.ps[p].Gone?)
  {
    if !Stuck(s) && s.tokens > 0 { var p := SomeHolder(s.ps, s.max); }
  }

  // ----- Which runs get stuck -----

  const IsBlockAll: Action -> bool := (a: Action) => a.BlockAll?
  const IsAll: Phase -> bool := (p: Phase) => p.WantsAll? || p.HoldsAll? || p.Giving?

  /** A step adds a call of BlockAll or leaves at most as many unfinished as there were. */
  lemma AllsStep(s: State, a: Action)
    requires Step(s, a).Some?
    ensures Count(Step(s, a).value.ps, IsAll) <= Count(s.ps, IsAll) + (if IsBlockAll(a) then 1 else 0)
  {
    var t := Step(s, a).value;
    match a {
      case Block => CountAppend(s.ps, Wants, IsAll);
      case BlockAll => CountAppend(s.ps, WantsAll(0), IsAll);
      case Move(p) => CountUpdate(s.ps, p, t.ps[p], IsAll);
      case Release(p) => CountUpdate(s.ps, p, t.ps[p], IsAll);
    }
  }

  /** Calls of BlockAll that have not finished are no more than were made. */
  lemma {:induction false} AllsMade(max: nat, actions: seq<Action>)
    requires Run(Init(max), actions).Some?
    ensures Count(Run(Init(max), actions).value.ps, IsAll) <= Count(actions, IsBlockAll)
  {
    if actions != [] {
      AllsMade(max, actions[..|actions| - 1]);
      AllsStep(Run(Init(max), actions[..|actions| - 1]).value, actions[|actions| - 1]);
    }
  }

  lemma CountTwo(ps: seq<Phase>, p: nat, q: nat)
    requires p < |ps| && q < |ps| && p != q && IsAll(ps[p]) && IsAll(ps[q])
    ensures Count(ps, IsAll) >= 2
  {
    CountUpdate(ps, p, Gone, IsAll);
    CountPositive(ps[p := Gone], q, IsAll);
  }

  /** A run with k calls of BlockAll after which nobody can go on. */
  ghost predicate Sticks(max: nat, k: nat, actions: seq<Action>) {
    Count(actions, IsBlockAll) == k && Run(Init(max), actions).Some? && Stuck(Run(Init(max), actions).value)
  }

  /** With any room, some run with k calls of BlockAll gets stuck exactly when max is 2 or more, and so is k. */
  lemma SticksExactly(max: nat, k: nat)
    requires max > 0
    ensures (exists actions :: Sticks(max, k, actions)) <==> max >= 2 && k >= 2
  {
    if actions :| Sticks(max, k, actions) {
      var s := Run(Init(max), actions).value;
      RunKeeps(max, actions);
      var p, q := StuckNeedsTwo(s);
      CountTwo(s.ps, p, q);
      AllsMade(max, actions);
    }
    if max >= 2 && k >= 2 {
      var actions := StickWith(max, k);
      assert Sticks(max, k, actions);
    }
  }

  /** Two of them, then as many more as wanted. */
  lemma {:induction false} StickWith(max: nat, k: nat) returns (actions: seq<Action>)
    requires max >= 2 && k >= 2
    ensures Sticks(max, k, actions)
  {
    if k == 2 {
      var t;
      actions, t := TwoAllStop(max);
    } else {
      var a := StickWith(max, k - 1);
      var s := Run(Init(max), a).value;
      RunKeeps(max, a);
      StuckStep(s, BlockAll);
      RunOne(Init(max), a, s, BlockAll);
      CountAppend(a, BlockAll, IsBlockAll);
      actions := a + [BlockAll];
    }
  }

  /** Without room a single Block stops for good, and nothing else does: BlockAll returns at once. */
  lemma NoRoomStuckExactly(s: State)
    requires Inv(s) && s.max == 0
    ensures Stuck(s) <==> (exists p :: 0 <= p < |s.ps| && !s.ps[p].Gone?) &&
                          forall p :: 0 <= p < |s.ps| ==> s.ps[p].Gone? || s.ps[p].Wants?
  {
    StuckExactly(s);
  }

  /** Two BlockAll that each get some of the tokens stop each other. */
  lemma TwoAllStop(max: nat) returns (actions: seq<Action>, t: State)
    requires max >= 2
    ensures Run(Init(max), actions) == Some(t) && Stuck(t) && |t.ps| == 2 && HalfWay(t.ps[0]) && HalfWay(t.ps[1])
    ensures Count(actions, IsBlockAll) == 2
  {
    var a, s := TwoCalls(max);
    var s1 := Step(s, Move(0)).value;
    RunOne(Init(max), a, s, Move(0));
    CountAppend(a, Move(0), IsBlockAll);
    actions, t := PutMore(Init(max), a + [Move(0)], s1, max - 1);
    RunKeeps(max, actions);
    assert !t.ps[0].Gone?;
    StuckExactly(t);
  }

  /** The second call gets n more tokens. */
  lemma {:induction false} PutMore(s0: State, a: seq<Action>, s: State, n: nat) returns (actions: seq<Action>, t: State)
    requires Run(s0, a) == Some(s) && |s.ps| == 2 && s.ps[1].WantsAll? && s.tokens + n <= s.max && s.ps[1].put + n <= s.max
    ensures Run(s0, actions) == Some(t) && t.max == s.max && t.tokens == s.tokens + n
    ensures |t.ps| == 2 && t.ps[0] == s.ps[0] && t.ps[1] == WantsAll(s.ps[1].put + n)
    ensures Count(actions, IsBlockAll) == Count(a, IsBlockAll)
    decreases n
  {
    actions, t := a, s;
    if n > 0 {
      RunOne(s0, a, s, Move(1));
      CountAppend(a, Move(1), IsBlockAll);
      actions, t := PutMore(s0, a + [Move(1)], Step(s, Move(1)).value, n - 1);
    }
  }
}
