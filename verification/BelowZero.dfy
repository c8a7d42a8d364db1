/** web.Limits: when a counter can get below zero. */
module BelowZero {
  import opened Util
  import opened AddCount

  // ----- How much a request takes -----

  /** How many of the first n entries of the list are the object o. */
  function Entries(g: seq<nat>, o: nat, n: nat): nat
    requires n <= |g|
  {
    if n == 0 then 0 else Entries(g, o, n - 1) + (if g[n - 1] == o then 1 else 0)
  }

  lemma WantedStep(g: seq<nat>, want: seq<bool>, o: nat, n: nat)
    requires 0 < n <= |g| == |want|
    ensures Hits(g, Wanted(want, n), o)
            == Hits(g, Wanted(want, n - 1), o) + (if want[n - 1] && g[n - 1] == o then 1 else 0)
  {
    var before := Wanted(want, n - 1);
    if want[n - 1] { HitsSnoc(g, before, n - 1, o); } else { assert before + [] == before; }
  }

  /** A request that wants all entries of o, or none, hits all of them or none. */
  lemma {:induction false} HitsEntries(g: seq<nat>, want: seq<bool>, o: nat, n: nat, all: bool)
    requires n <= |g| == |want| && forall k :: 0 <= k < n && g[k] == o ==> want[k] == all
    ensures Hits(g, Wanted(want, n), o) == if all then Entries(g, o, n) else 0
  {
    if n > 0 {
      HitsEntries(g, want, o, n - 1, all);
      WantedStep(g, want, o, n);
    }
  }

  lemma {:induction false} HitsAtMost(g: seq<nat>, want: seq<bool>, o: nat, n: nat)
    requires n <= |g| == |want|
    ensures Hits(g, Wanted(want, n), o) <= Entries(g, o, n)
  {
    if n > 0 {
      HitsAtMost(g, want, o, n - 1);
      WantedStep(g, want, o, n);
    }
  }

  lemma {:induction false} HitsSome(g: seq<nat>, ks: seq<nat>, o: nat) returns (j: nat)
    requires Hits(g, ks, o) > 0
    ensures j < |ks| && ks[j] < |g| && g[ks[j]] == o
  {
    var n := |ks| - 1;
    if ks[n] < |g| && g[ks[n]] == o { j := n; } else { j := HitsSome(g, ks[..n], o); }
  }

  /** A request takes u from o or nothing. */
  predicate Whole(g: seq<nat>, want: seq<bool>, o: nat, u: nat) {
    |want| == |g| && (Hits(g, Wanted(want, |g|), o) == 0 || Hits(g, Wanted(want, |g|), o) == u)
  }

  predicate AllWhole(s: State, o: nat, u: nat) { forall r :: 0 <= r < |s.rs| ==> Whole(s.g, s.rs[r].want, o, u) }

  /** There is as much left of o as whoever is taking is still going to take. */
  predicate Room(s: State, o: nat) {
    o < |s.avail| && s.avail[o] >= 0 &&
    forall r :: 0 <= r < |s.rs| ==> Rest(s.g, s.rs[r].phase, o) <= s.avail[o]
  }

  function Rest(g: seq<nat>, p: Phase, o: nat): nat {
    if p.Take? && p.i <= |p.ms| then Hits(g, p.ms[p.i..], o) else 0
  }

  lemma HitsSettled(s: State, r: nat, o: nat, u: nat)
    requires Shaped(s) && AllWhole(s, o, u) && r < |s.rs| && !s.rs[r].phase.Take? && !s.rs[r].phase.Give?
    ensures Hits(s.g, Taken(s.rs[r].phase), o) == 0 || Hits(s.g, Taken(s.rs[r].phase), o) == u
  {
    assert PhaseShaped(s, s.rs[r]) && Whole(s.g, s.rs[r].want, o, u);
  }

  /** While nobody is taking or giving back, what is taken of o is a multiple of u. */
  lemma {:induction false} TotalMultiple(s: State, n: nat, o: nat, u: nat) returns (m: nat)
    requires Shaped(s) && AllWhole(s, o, u) && n <= |s.rs|
    requires forall r :: 0 <= r < n ==> !s.rs[r].phase.Take? && !s.rs[r].phase.Give?
    ensures Total(s.g, s.rs[..n], o) == m * u
  {
    m := 0;
    if n > 0 {
      var before := s.rs[..n - 1];
      m := TotalMultiple(s, n - 1, o, u);
      assert s.rs[..n][..n - 1] == before;
      HitsSettled(s, n - 1, o, u);
      OneMore(m, u);
      if Hits(s.g, Taken(s.rs[n - 1].phase), o) != 0 { m := m + 1; }
    }
  }

  lemma OneMore(m: nat, u: nat)
    ensures (m + 1) * u == m * u + u
  {
  }

  lemma AtLeastOne(k: int, u: nat)
    requires u > 0 && k * u > 0
    ensures k * u >= u
  {
    assert k >= 1;
    assert (k - 1) * u >= 0;
  }

  lemma MultipleLeft(max: int, total: nat, m: nat, u: nat)
    requires u > 0 && max % u == 0 && total == m * u && max - total > 0
    ensures max - total >= u
  {
    var n := max / u;
    assert n * u - m * u == (n - m) * u;
    AtLeastOne(n - m, u);
  }

  /** A request that has found everything available finds enough of o for all it takes. */
  lemma EnoughLeft(s: State, r: nat, o: nat, u: nat)
    requires Inv(s) && r < |s.rs| && s.rs[r].phase.Check? && s.rs[r].phase.i == |s.rs[r].phase.ms|
    requires AllWhole(s, o, u) && Room(s, o) && u > 0 && s.max[o] % u == 0
    ensures Hits(s.g, s.rs[r].phase.ms, o) <= s.avail[o]
  {
    var ms := s.rs[r].phase.ms;
    assert PhaseShaped(s, s.rs[r]) && Looked(s, s.rs[r]) && Whole(s.g, s.rs[r].want, o, u);
    if Hits(s.g, ms, o) > 0 {
      var j := HitsSome(s.g, ms, o);
      assert Avail(s, ms[j]) != 0;
      assert Locking(s.rs[r].phase);
      var m := TotalMultiple(s, |s.rs|, o, u);
      assert s.rs[..|s.rs|] == s.rs;
      MultipleLeft(s.max[o], Total(s.g, s.rs, o), m, u);
    }
  }

  /** A move of request r that leaves enough of o for everybody. */
  lemma RoomOthers(s: State, t: State, r: nat, p: Phase, o: nat)
    requires LockInv(s) && Room(s, o) && Changes(s, t, r, p) && |t.avail| == |s.avail|
    requires t.avail[o] >= s.avail[o] || (Locking(s.rs[r].phase) && t.avail[o] >= 0)
    requires Rest(s.g, p, o) <= t.avail[o]
    ensures Room(t, o)
  {
    forall x | 0 <= x < |t.rs|
      ensures Rest(t.g, t.rs[x].phase, o) <= t.avail[o]
    {
      assert Rest(s.g, s.rs[x].phase, o) <= s.avail[o];
      if x != r && Locking(s.rs[r].phase) { assert !Locking(s.rs[x].phase); }
    }
  }

  /** Of the moves only taking lowers a counter, and there is room for it. */
  lemma RoomTake(s: State, r: nat, o: nat)
    requires Inv(s) && Room(s, o) && r < |s.rs| && s.rs[r].phase.Take?
    ensures PhaseShaped(s, s.rs[r]) && Room(OnTake(s, r), o)
  {
    assert PhaseShaped(s, s.rs[r]);
    assert Rest(s.g, s.rs[r].phase, o) <= s.avail[o];
    var ms, i := s.rs[r].phase.ms, s.rs[r].phase.i;
    var t := OnTake(s, r);
    if i < |ms| { HitsGive(s.g, ms, i, o); }
    RoomOthers(s, t, r, t.rs[r].phase, o);
  }

  lemma RoomCheck(s: State, r: nat, o: nat, u: nat)
    requires Inv(s) && Room(s, o) && AllWhole(s, o, u) && u > 0 && s.max[o] % u == 0
    requires r < |s.rs| && s.rs[r].phase.Check?
    ensures PhaseShaped(s, s.rs[r]) && Room(OnCheck(s, r), o)
  {
    assert PhaseShaped(s, s.rs[r]);
    var p, t := s.rs[r].phase, OnCheck(s, r);
    if p.i == |p.ms| {
      EnoughLeft(s, r, o, u);
      assert p.ms[0..] == p.ms;
    }
    RoomOthers(s, t, r, t.rs[r].phase, o);
  }

  /** The other moves lower nothing and promise nothing. */
  lemma RoomQuiet(s: State, r: nat, o: nat)
    requires Shaped(s) && Room(s, o) && Step(s, Move(r)).Some? && !s.rs[r].phase.Take? && !s.rs[r].phase.Check?
    ensures Room(Step(s, Move(r)).value, o)
  {
    assert PhaseShaped(s, s.rs[r]);
    var t := Step(s, Move(r)).value;
    forall x | 0 <= x < |t.rs|
      ensures Rest(t.g, t.rs[x].phase, o) <= t.avail[o]
    {
      assert Rest(s.g, s.rs[x].phase, o) <= s.avail[o];
    }
  }

  lemma RoomMove(s: State, r: nat, o: nat, u: nat)
    requires Inv(s) && Room(s, o) && AllWhole(s, o, u) && u > 0 && s.max[o] % u == 0
    requires Step(s, Move(r)).Some?
    ensures Room(Step(s, Move(r)).value, o)
  {
    if s.rs[r].phase.Take? {
      RoomTake(s, r, o);
    } else if s.rs[r].phase.Check? {
      RoomCheck(s, r, o, u);
    } else {
      RoomQuiet(s, r, o);
    }
  }

  /** Requests keep what they want. */
  lemma WantsKept(s: State, a: Action, o: nat, u: nat)
    requires Shaped(s) && Step(s, a).Some? && AllWhole(Step(s, a).value, o, u)
    ensures AllWhole(s, o, u)
  {
    var t := Step(s, a).value;
    ListKept(s, a);
    forall r | 0 <= r < |s.rs|
      ensures Whole(s.g, s.rs[r].want, o, u)
    {
      if a.Move? { assert PhaseShaped(s, s.rs[a.r]); }
      assert t.rs[r].want == s.rs[r].want;
      assert Whole(t.g, t.rs[r].want, o, u);
    }
  }

  lemma {:induction false} RoomKept(s: State, actions: seq<Action>, o: nat, u: nat)
    requires Inv(s) && Run(s, actions).Some? && Room(s, o) && u > 0 && s.max[o] % u == 0
    requires AllWhole(Run(s, actions).value, o, u)
    ensures Room(Run(s, actions).value, o)
  {
    if actions != [] {
      var before, a := actions[..|actions| - 1], actions[|actions| - 1];
      var x := Run(s, before).value;
      RunKeeps(s, before);
      WantsKept(x, a, o, u);
      RoomKept(s, before, o, u);
      if a.Move? { RoomMove(x, a.r, o, u); } else { RoomArrive(x, a.want, o); }
    }
  }

  lemma RoomArrive(s: State, want: seq<bool>, o: nat)
    requires Shaped(s) && Room(s, o) && Step(s, Arrive(want)).Some?
    ensures Room(Step(s, Arrive(want)).value, o)
  {
    var t := Step(s, Arrive(want)).value;
    forall r | 0 <= r < |t.rs|
      ensures Rest(t.g, t.rs[r].phase, o) <= t.avail[o]
    {
      if r < |s.rs| { assert Rest(s.g, s.rs[r].phase, o) <= s.avail[o]; }
    }
  }

  /** Requests that take u of o or nothing never take its counter below zero when u divides its maximum. */
  lemma NotBelowZero(g: seq<nat>, max: seq<int>, actions: seq<Action>, o: nat, u: nat)
    requires Listed(g, max) && Run(Init(g, max), actions).Some? && o < |max| && max[o] >= 0 && u > 0 && max[o] % u == 0
    requires AllWhole(Run(Init(g, max), actions).value, o, u)
    ensures var s := Run(Init(g, max), actions).value; |s.avail| == |max| && s.avail[o] >= 0
  {
    assert Inv(Init(g, max));
    RunKeeps(Init(g, max), actions);
    RoomKept(Init(g, max), actions, o, u);
  }

  /** The matching items a request has collected, or has taken from. */
  function Collected(p: Phase): seq<nat> { if p.Refused? || p.Passed? then [] else p.ms }

  /** Nobody ever collects an item of an object that allows nothing. */
  predicate NoneCollected(s: State, o: nat) {
    o < |s.max| && s.max[o] == 0 && forall r :: 0 <= r < |s.rs| ==> Hits(s.g, Collected(s.rs[r].phase), o) == 0
  }

  lemma {:induction false} HitsPart(g: seq<nat>, ks: seq<nat>, i: nat, o: nat)
    requires i <= |ks| && Hits(g, ks, o) == 0
    ensures Hits(g, ks[..i], o) == 0 && Hits(g, ks[i..], o) == 0
  {
    if i == |ks| {
      assert ks[..i] == ks && ks[i..] == [];
    } else {
      var n := |ks| - 1;
      HitsPart(g, ks[..n], i, o);
      assert ks[..n][..i] == ks[..i] && ks[i..] == ks[..n][i..] + [ks[n]];
      HitsSnoc(g, ks[..n][i..], ks[n], o);
    }
  }

  lemma TakenPart(g: seq<nat>, p: Phase, o: nat)
    requires Hits(g, Collected(p), o) == 0
    ensures Hits(g, Taken(p), o) == 0
  {
    if (p.Take? || p.Give?) && p.i <= |p.ms| { HitsPart(g, p.ms, p.i, o); }
  }

  lemma {:induction false} TotalNone(g: seq<nat>, rs: seq<Request>, o: nat)
    requires forall r :: 0 <= r < |rs| ==> Hits(g, Collected(rs[r].phase), o) == 0
    ensures Total(g, rs, o) == 0
  {
    if rs != [] {
      TotalNone(g, rs[..|rs| - 1], o);
      TakenPart(g, rs[|rs| - 1].phase, o);
    }
  }

  /** After the scan nothing more is collected. */
  lemma CollectedStays(s: State, r: nat)
    requires Shaped(s) && Step(s, Move(r)).Some? && !s.rs[r].phase.Scan?
    ensures var t := Step(s, Move(r)).value;
      r < |t.rs| && (Collected(t.rs[r].phase) == Collected(s.rs[r].phase) || Collected(t.rs[r].phase) == [])
  {
    assert PhaseShaped(s, s.rs[r]);
  }

  /** What a move collects of an object of which nothing is left. */
  lemma CollectsNone(s: State, r: nat, o: nat)
    requires Shaped(s) && o < |s.avail| && s.avail[o] == 0 && Step(s, Move(r)).Some?
    requires Hits(s.g, Collected(s.rs[r].phase), o) == 0
    ensures var t := Step(s, Move(r)).value; r < |t.rs| && Hits(s.g, Collected(t.rs[r].phase), o) == 0
  {
    if s.rs[r].phase.Scan? { ScansNone(s, r, o); } else { CollectedStays(s, r); }
  }

  lemma ScansNone(s: State, r: nat, o: nat)
    requires Shaped(s) && o < |s.avail| && s.avail[o] == 0 && r < |s.rs| && s.rs[r].phase.Scan?
    requires Hits(s.g, s.rs[r].phase.ms, o) == 0
    ensures Hits(s.g, Collected(Scanned(s, r)), o) == 0
  {
    assert PhaseShaped(s, s.rs[r]);
    var p := s.rs[r].phase;
    if p.i < |s.g| { HitsSnoc(s.g, p.ms, p.i, o); }
  }

  lemma NoneCollectedKept(s: State, a: Action, o: nat)
    requires Inv(s) && NoneCollected(s, o) && Step(s, a).Some?
    ensures NoneCollected(Step(s, a).value, o)
  {
    var t := Step(s, a).value;
    ListKept(s, a);
    TotalNone(s.g, s.rs, o);
    if a.Move? {
      CollectsNone(s, a.r, o);
      OthersStay(s, a.r);
    }
    forall r | 0 <= r < |t.rs|
      ensures Hits(t.g, Collected(t.rs[r].phase), o) == 0
    {
      if r < |s.rs| { assert Hits(s.g, Collected(s.rs[r].phase), o) == 0; }
    }
  }

  lemma OthersStay(s: State, r: nat)
    requires Shaped(s) && Step(s, Move(r)).Some?
    ensures var t := Step(s, Move(r)).value;
      |t.rs| == |s.rs| && forall x :: 0 <= x < |s.rs| && x != r ==> t.rs[x] == s.rs[x]
  {
    assert PhaseShaped(s, s.rs[r]);
  }

  lemma {:induction false} NothingAllowed(s: State, actions: seq<Action>, o: nat)
    requires Inv(s) && NoneCollected(s, o) && Run(s, actions).Some?
    ensures NoneCollected(Run(s, actions).value, o)
  {
    if actions != [] {
      RunKeeps(s, actions[..|actions| - 1]);
      NothingAllowed(s, actions[..|actions| - 1], o);
      NoneCollectedKept(Run(s, actions[..|actions| - 1]).value, actions[|actions| - 1], o);
    }
  }

  /** An object that allows nothing, or stands in the list at most once, is safe whatever requests match. */
  lemma SafeOnce(g: seq<nat>, max: seq<int>, actions: seq<Action>, o: nat)
    requires Listed(g, max) && Run(Init(g, max), actions).Some? && o < |max|
    requires max[o] == 0 || (max[o] > 0 && Entries(g, o, |g|) <= 1)
    ensures var s := Run(Init(g, max), actions).value; |s.avail| == |max| && s.avail[o] >= 0
  {
    var s := Run(Init(g, max), actions).value;
    assert Inv(Init(g, max));
    RunKeeps(Init(g, max), actions);
    if max[o] == 0 {
      NothingAllowed(Init(g, max), actions, o);
      TotalNone(s.g, s.rs, o);
    } else {
      forall r | 0 <= r < |s.rs|
        ensures Whole(s.g, s.rs[r].want, o, 1)
      {
        assert PhaseShaped(s, s.rs[r]);
        HitsAtMost(s.g, s.rs[r].want, o, |s.g|);
      }
      NotBelowZero(g, max, actions, o, 1);
    }
  }

  lemma {:induction false} EntriesDistinct(g: seq<nat>, o: nat, n: nat)
    requires n <= |g| && Distinct(g)
    ensures Entries(g, o, n) <= 1 && (Entries(g, o, n) == 0 <==> forall k :: 0 <= k < n ==> g[k] != o)
  {
    if n > 0 { EntriesDistinct(g, o, n - 1); }
  }

  /** With every item in the list once, no counter goes below zero. */
  lemma NeverBelowZero(g: seq<nat>, max: seq<int>, actions: seq<Action>, o: nat)
    requires Listed(g, max) && Distinct(g) && Run(Init(g, max), actions).Some? && o < |max| && max[o] >= 0
    ensures var s := Run(Init(g, max), actions).value;
      |s.avail| == |max| && 0 <= s.avail[o] && Total(g, s.rs, o) <= max[o]
  {
    EntriesDistinct(g, o, |g|);
    SafeOnce(g, max, actions, o);
    AvailableIs(g, max, actions, o);
  }

  /** There are never more requests admitted at a time than an item they match allows. */
  lemma CapacityRespected(g: seq<nat>, max: seq<int>, actions: seq<Action>, o: nat)
    requires Listed(g, max) && Distinct(g) && Run(Init(g, max), actions).Some? && o < |max| && max[o] >= 0
    ensures AdmittedOn(g, Run(Init(g, max), actions).value.rs, o) <= max[o]
  {
    NeverBelowZero(g, max, actions, o);
    AdmittedAtMost(g, Run(Init(g, max), actions).value.rs, o);
  }

  // ----- Runs that get there -----

  lemma {:induction false} RunJoin(s: State, a: seq<Action>, t: State, b: seq<Action>)
    requires Run(s, a) == Some(t)
    ensures Run(s, a + b) == Run(t, b)
    decreases |b|
  {
    if b == [] {
      assert a + b == a;
    } else {
      var n := |b| - 1;
      RunJoin(s, a, t, b[..n]);
      assert (a + b)[..|a + b| - 1] == a + b[..n];
    }
  }

  lemma RunSnoc(s: State, actions: seq<Action>, t: State, a: Action)
    requires Run(s, actions) == Some(t) && Shaped(t)
    ensures Run(s, actions + [a]) == Step(t, a)
  {
    assert (actions + [a])[..|actions|] == actions;
  }

  lemma StepShaped(s: State, a: Action)
    requires Shaped(s) && Step(s, a).Some?
    ensures Shaped(Step(s, a).value)
  {
    var t := Step(s, a).value;
    match a {
      case Arrive(want) => ArriveShaped(s, t, Request(want, Scan(0, [])));
      case Move(r) =>
        assert PhaseShaped(s, s.rs[r]);
        ShapedKept(s, t, r, t.rs[r].phase);
    }
  }

  /** One more request. */
  function With(s: State, want: seq<bool>, p: Phase): State { s.(rs := s.rs + [Request(want, p)]) }

  lemma WithMoves(s: State, want: seq<bool>, p: Phase, p': Phase)
    ensures To(With(s, want, p), |s.rs|, p') == With(s, want, p')
  {
    assert (s.rs + [Request(want, p)])[|s.rs| := Request(want, p')] == s.rs + [Request(want, p')];
  }

  /** Nobody holds the lock, something is left of o, and the request wants entries of o and nothing else. */
  predicate Servable(s: State, want: seq<bool>, o: nat) {
    && Shaped(s) && s.lock.None? && o < |s.avail| && s.avail[o] != 0
    && |want| == |s.g| && forall k :: 0 <= k < |want| && want[k] ==> s.g[k] == o
  }

  /** Only this request arrives. */
  predicate Lone(actions: seq<Action>, want: seq<bool>) {
    forall i :: 0 <= i < |actions| && actions[i].Arrive? ==> actions[i].want == want
  }

  lemma ServeArrive(s: State, want: seq<bool>) returns (actions: seq<Action>)
    requires Shaped(s) && |want| == |s.g|
    ensures Run(s, actions) == Some(With(s, want, Scan(0, [])))
    ensures Shaped(With(s, want, Scan(0, []))) && Lone(actions, want)
  {
    RunSnoc(s, [], s, Arrive(want));
    StepShaped(s, Arrive(want));
    actions := [] + [Arrive(want)];
  }

  /** It has looked at the first i items. */
  function Scanning(s: State, want: seq<bool>, i: nat): State
    requires i <= |want|
  {
    With(s, want, Scan(i, Wanted(want, i)))
  }

  lemma ScanServes(s: State, want: seq<bool>, o: nat, i: nat)
    requires Servable(s, want, o) && i < |s.g| && Shaped(Scanning(s, want, i))
    ensures Step(Scanning(s, want, i), Move(|s.rs|)) == Some(Scanning(s, want, i + 1))
  {
    var s1 := Scanning(s, want, i);
    WithMoves(s, want, Scan(i, Wanted(want, i)), Scan(i + 1, Wanted(want, i + 1)));
    assert PhaseShaped(s1, s1.rs[|s.rs|]);
    assert Wanted(want, i) + [] == Wanted(want, i);
  }

  /** One more move of the request. */
  lemma ServeMove(s: State, want: seq<bool>, a: seq<Action>, s1: State, t: State) returns (actions: seq<Action>)
    requires Shaped(s1) && Run(s, a) == Some(s1) && Lone(a, want) && Step(s1, Move(|s.rs|)) == Some(t)
    ensures Run(s, actions) == Some(t) && Shaped(t) && Lone(actions, want)
  {
    RunSnoc(s, a, s1, Move(|s.rs|));
    StepShaped(s1, Move(|s.rs|));
    actions := a + [Move(|s.rs|)];
  }

  /** Its moves lead from each of these states to the next. */
  ghost predicate Moves(st: seq<State>, r: nat) {
    forall i :: 0 <= i < |st| - 1 && Shaped(st[i]) ==> Step(st[i], Move(r)) == Some(st[i + 1])
  }

  lemma {:induction false} ServeAlong(s: State, want: seq<bool>, a: seq<Action>, st: seq<State>) returns (actions: seq<Action>)
    requires |st| > 0 && Run(s, a) == Some(st[0]) && Shaped(st[0]) && Lone(a, want) && Moves(st, |s.rs|)
    ensures Run(s, actions) == Some(st[|st| - 1]) && Shaped(st[|st| - 1]) && Lone(actions, want)
  {
    actions := a;
    var n := |st| - 1;
    if n > 0 {
      actions := ServeAlong(s, want, a, st[..n]);
      actions := ServeMove(s, want, actions, st[n - 1], st[n]);
    }
  }

  /** It arrives and looks at all items. */
  lemma ServeScan(s: State, want: seq<bool>, o: nat) returns (actions: seq<Action>)
    requires Servable(s, want, o)
    ensures var t := Scanning(s, want, |s.g|); Run(s, actions) == Some(t) && Shaped(t) && Lone(actions, want)
  {
    var n := |s.g|;
    var st := seq(n + 1, i requires 0 <= i <= n => Scanning(s, want, i));
    forall i | 0 <= i < n && Shaped(st[i])
      ensures Step(st[i], Move(|s.rs|)) == Some(st[i + 1])
    {
      ScanServes(s, want, o, i);
    }
    actions := ServeArrive(s, want);
    actions := ServeAlong(s, want, actions, st);
  }

  /** It has the lock. */
  lemma ServeEnter(s: State, want: seq<bool>, o: nat, ms: seq<nat>) returns (actions: seq<Action>)
    requires Servable(s, want, o) && ms == Wanted(want, |s.g|) && ms != []
    ensures var t := Checking(s, want, ms, 0); Run(s, actions) == Some(t) && Shaped(t) && Lone(actions, want)
  {
    var s1 := Scanning(s, want, |s.g|);
    actions := ServeScan(s, want, o);
    var s2 := With(s, want, Queue(ms));
    WithMoves(s, want, Scan(|s.g|, ms), Queue(ms));
    actions := ServeMove(s, want, actions, s1, s2);
    WithMoves(s, want, Queue(ms), Check(ms, 0));
    actions := ServeMove(s, want, actions, s2, Checking(s, want, ms, 0));
  }

  /** It has found i of what it wants. */
  function Checking(s: State, want: seq<bool>, ms: seq<nat>, i: nat): State {
    With(s, want, Check(ms, i)).(lock := Some(|s.rs|))
  }

  lemma CheckMoves(s: State, want: seq<bool>, o: nat, ms: seq<nat>, i: nat)
    requires Servable(s, want, o) && ms == Wanted(want, |s.g|) && i < |ms| && Shaped(Checking(s, want, ms, i))
    ensures Step(Checking(s, want, ms, i), Move(|s.rs|)) == Some(Checking(s, want, ms, i + 1))
  {
    WithMoves(s, want, Check(ms, i), Check(ms, i + 1));
    assert Avail(Checking(s, want, ms, i), ms[i]) == s.avail[o];
  }

  /** It looks at all it wants. */
  lemma ServeCheck(s: State, want: seq<bool>, o: nat, ms: seq<nat>) returns (actions: seq<Action>)
    requires Servable(s, want, o) && ms == Wanted(want, |s.g|) && ms != []
    ensures var t := Checking(s, want, ms, |ms|); Run(s, actions) == Some(t) && Shaped(t) && Lone(actions, want)
  {
    var n := |ms|;
    var st := seq(n + 1, i requires 0 <= i <= n => Checking(s, want, ms, i));
    forall i | 0 <= i < n && Shaped(st[i])
      ensures Step(st[i], Move(|s.rs|)) == Some(st[i + 1])
    {
      CheckMoves(s, want, o, ms, i);
    }
    actions := ServeEnter(s, want, o, ms);
    actions := ServeAlong(s, want, actions, st);
  }

  /** It has taken i of them. */
  function Taking(s: State, want: seq<bool>, o: nat, ms: seq<nat>, i: nat): State
    requires o < |s.avail|
  {
    With(s, want, Take(ms, i)).(lock := Some(|s.rs|), avail := s.avail[o := s.avail[o] - i])
  }

  lemma TakeMoves(s: State, want: seq<bool>, o: nat, ms: seq<nat>, i: nat)
    requires Servable(s, want, o) && ms == Wanted(want, |s.g|) && i < |ms| && Shaped(Taking(s, want, o, ms, i))
    ensures Step(Taking(s, want, o, ms, i), Move(|s.rs|)) == Some(Taking(s, want, o, ms, i + 1))
  {
    var s1 := Taking(s, want, o, ms, i);
    WithMoves(s, want, Take(ms, i), Take(ms, i + 1));
    assert s.g[ms[i]] == o;
    assert s1.avail[o := s1.avail[o] - 1] == s.avail[o := s.avail[o] - (i + 1)];
  }

  lemma TakeBegins(s: State, want: seq<bool>, o: nat, ms: seq<nat>)
    requires Servable(s, want, o) && ms == Wanted(want, |s.g|) && Shaped(Checking(s, want, ms, |ms|))
    ensures Step(Checking(s, want, ms, |ms|), Move(|s.rs|)) == Some(Taking(s, want, o, ms, 0))
  {
    WithMoves(s, want, Check(ms, |ms|), Take(ms, 0));
    assert s.avail[o := s.avail[o] - 0] == s.avail;
  }

  lemma ServeBegin(s: State, want: seq<bool>, o: nat, ms: seq<nat>) returns (actions: seq<Action>)
    requires Servable(s, want, o) && ms == Wanted(want, |s.g|) && ms != []
    ensures var t := Taking(s, want, o, ms, 0); Run(s, actions) == Some(t) && Shaped(t) && Lone(actions, want)
  {
    actions := ServeCheck(s, want, o, ms);
    TakeBegins(s, want, o, ms);
    actions := ServeMove(s, want, actions, Checking(s, want, ms, |ms|), Taking(s, want, o, ms, 0));
  }

  function TakingStates(s: State, want: seq<bool>, o: nat, ms: seq<nat>): (st: seq<State>)
    requires o < |s.avail|
    ensures |st| == |ms| + 1 && forall i :: 0 <= i <= |ms| ==> st[i] == Taking(s, want, o, ms, i)
  {
    seq(|ms| + 1, i requires 0 <= i <= |ms| => Taking(s, want, o, ms, i))
  }

  lemma TakingMoves(s: State, want: seq<bool>, o: nat, ms: seq<nat>)
    requires Servable(s, want, o) && ms == Wanted(want, |s.g|)
    ensures Moves(TakingStates(s, want, o, ms), |s.rs|)
  {
    var st := TakingStates(s, want, o, ms);
    forall i | 0 <= i < |ms| && Shaped(st[i])
      ensures Step(st[i], Move(|s.rs|)) == Some(st[i + 1])
    {
      TakeMoves(s, want, o, ms, i);
    }
  }

  /** It takes from all of them. */
  lemma ServeTake(s: State, want: seq<bool>, o: nat, ms: seq<nat>) returns (actions: seq<Action>)
    requires Servable(s, want, o) && ms == Wanted(want, |s.g|) && ms != []
    ensures var t := Taking(s, want, o, ms, |ms|); Run(s, actions) == Some(t) && Shaped(t) && Lone(actions, want)
  {
    actions := ServeBegin(s, want, o, ms);
    TakingMoves(s, want, o, ms);
    actions := ServeAlong(s, want, actions, TakingStates(s, want, o, ms));
  }

  /** It has what it wants. */
  function Served(s: State, want: seq<bool>, o: nat, ms: seq<nat>): State
    requires o < |s.avail|
  {
    With(s, want, Admitted(ms)).(lock := None, avail := s.avail[o := s.avail[o] - |ms|])
  }

  lemma TakeEnds(s: State, want: seq<bool>, o: nat, ms: seq<nat>)
    requires Servable(s, want, o) && ms == Wanted(want, |s.g|) && Shaped(Taking(s, want, o, ms, |ms|))
    ensures Step(Taking(s, want, o, ms, |ms|), Move(|s.rs|)) == Some(Served(s, want, o, ms))
  {
    WithMoves(s, want, Take(ms, |ms|), Admitted(ms));
  }

  /** One request is served: it takes one for each entry it wants. */
  lemma Serve(s: State, want: seq<bool>, o: nat) returns (actions: seq<Action>)
    requires Servable(s, want, o) && Wanted(want, |s.g|) != []
    ensures var t := Served(s, want, o, Wanted(want, |s.g|)); Run(s, actions) == Some(t) && Shaped(t) && Lone(actions, want)
  {
    var ms := Wanted(want, |s.g|);
    actions := ServeTake(s, want, o, ms);
    TakeEnds(s, want, o, ms);
    actions := ServeMove(s, want, actions, Taking(s, want, o, ms, |ms|), Served(s, want, o, ms));
  }

  /** Requests that want the same are served until no more than `low` is left. */
  lemma {:induction false} ServeDown(s: State, want: seq<bool>, o: nat, h: nat, low: nat)
    returns (actions: seq<Action>, t: State, n: nat)
    requires Servable(s, want, o) && s.avail[o] > low && h == |Wanted(want, |s.g|)| > 0
    ensures Run(s, actions) == Some(t) && Shaped(t) && t.lock.None? && Lone(actions, want) && t.g == s.g
    ensures o < |t.avail| && low - h < t.avail[o] <= low && s.avail[o] - t.avail[o] == n * h
    decreases s.avail[o]
  {
    actions := Serve(s, want, o);
    var s1 := Served(s, want, o, Wanted(want, |s.g|));
    t, n := s1, 1;
    if s1.avail[o] > low {
      var b;
      b, t, n := ServeDown(s1, want, o, h, low);
      OneMore(n, h);
      n := n + 1;
      RunJoin(s, actions, s1, b);
      actions := actions + b;
    }
  }

  lemma {:induction false} AllEntries(g: seq<nat>, want: seq<bool>, o: nat, n: nat)
    requires n <= |g| == |want| && forall k :: 0 <= k < n ==> (want[k] <==> g[k] == o)
    ensures |Wanted(want, n)| == Entries(g, o, n)
  {
    if n > 0 { AllEntries(g, want, o, n - 1); }
  }

  lemma {:induction false} OneEntry(want: seq<bool>, j: nat, n: nat)
    requires n <= |want| && forall k :: 0 <= k < n ==> (want[k] <==> k == j)
    ensures |Wanted(want, n)| == if j < n then 1 else 0
  {
    if n > 0 { OneEntry(want, j, n - 1); }
  }

  lemma {:induction false} SomeEntry(g: seq<nat>, o: nat, n: nat) returns (j: nat)
    requires n <= |g| && Entries(g, o, n) > 0
    ensures j < n && g[j] == o
  {
    if g[n - 1] == o { j := n - 1; } else { j := SomeEntry(g, o, n - 1); }
  }

  /** The counter of o is below zero after the run. */
  predicate BelowZero(g: seq<nat>, max: seq<int>, actions: seq<Action>, o: nat) {
    var r := Run(Init(g, max), actions);
    r.Some? && o < |r.value.avail| && r.value.avail[o] < 0
  }

  /** Every request matches all entries of an object or none. */
  predicate Alike(g: seq<nat>, want: seq<bool>) {
    |want| == |g| ==> forall j, k :: 0 <= j < |g| && 0 <= k < |g| && g[j] == g[k] ==> want[j] == want[k]
  }

  predicate AllAlike(g: seq<nat>, actions: seq<Action>) {
    forall i :: 0 <= i < |actions| && actions[i].Arrive? ==> Alike(g, actions[i].want)
  }

  lemma {:induction false} RequestsAlike(g: seq<nat>, max: seq<int>, actions: seq<Action>)
    requires Listed(g, max) && Run(Init(g, max), actions).Some? && AllAlike(g, actions)
    ensures var s := Run(Init(g, max), actions).value; forall r :: 0 <= r < |s.rs| ==> Alike(g, s.rs[r].want)
  {
    if actions != [] {
      var before, a := actions[..|actions| - 1], actions[|actions| - 1];
      var s := Run(Init(g, max), before).value;
      assert Inv(Init(g, max));
      RunKeeps(Init(g, max), before);
      RequestsAlike(g, max, before);
      if a.Move? { assert PhaseShaped(s, s.rs[a.r]); }
    }
  }

  /**
   * Entries of one object match the same requests: then its counter can get below zero exactly when the number of its
   * entries does not divide its maximum.
   */
  lemma BelowZeroExactly(g: seq<nat>, max: seq<int>, o: nat)
    requires Listed(g, max) && o < |max| && max[o] >= 0
    ensures (exists actions :: AllAlike(g, actions) && BelowZero(g, max, actions, o)) <==>
            Entries(g, o, |g|) > 0 && max[o] % Entries(g, o, |g|) != 0
  {
    var c := Entries(g, o, |g|);
    if actions :| AllAlike(g, actions) && BelowZero(g, max, actions, o) {
      AlikeWhole(g, max, actions, o);
      if c == 0 || max[o] % c == 0 { NotBelowZero(g, max, actions, o, if c == 0 then 1 else c); }
    }
    if c > 0 && max[o] % c != 0 {
      var actions := ReachBelow(g, max, o);
      assert AllAlike(g, actions) && BelowZero(g, max, actions, o);
    }
  }

  lemma AlikeWhole(g: seq<nat>, max: seq<int>, actions: seq<Action>, o: nat)
    requires Listed(g, max) && Run(Init(g, max), actions).Some? && AllAlike(g, actions)
    ensures var c := Entries(g, o, |g|); AllWhole(Run(Init(g, max), actions).value, o, if c == 0 then 1 else c)
  {
    var s, c := Run(Init(g, max), actions).value, Entries(g, o, |g|);
    assert Inv(Init(g, max));
    RunKeeps(Init(g, max), actions);
    RequestsAlike(g, max, actions);
    forall r | 0 <= r < |s.rs|
      ensures Whole(s.g, s.rs[r].want, o, if c == 0 then 1 else c)
    {
      var w := s.rs[r].want;
      assert PhaseShaped(s, s.rs[r]) && Alike(g, w);
      if j :| 0 <= j < |g| && g[j] == o {
        HitsEntries(g, w, o, |g|, w[j]);
      } else {
        HitsEntries(g, w, o, |g|, false);
      }
    }
  }

  lemma MultipleDivides(n: nat, h: nat)
    requires h > 0
    ensures n * h % h == 0
  {
    var q, r := n * h / h, n * h % h;
    assert n * h - q * h == (n - q) * h;
    if r > 0 { AtLeastOne(n - q, h); }
  }

  /** The request for all entries of o. */
  function WantAll(g: seq<nat>, o: nat): (want: seq<bool>)
    ensures |want| == |g| && forall k :: 0 <= k < |g| ==> (want[k] <==> g[k] == o)
  {
    seq(|g|, k requires 0 <= k < |g| => g[k] == o)
  }

  /** The request for entry j. */
  function WantOne(g: seq<nat>, j: nat): (want: seq<bool>)
    ensures |want| == |g| && forall k :: 0 <= k < |g| ==> (want[k] <==> k == j)
  {
    seq(|g|, k requires 0 <= k < |g| => k == j)
  }

  lemma InitServable(g: seq<nat>, max: seq<int>, o: nat, want: seq<bool>)
    requires Listed(g, max) && o < |max| && max[o] > 0 && |want| == |g|
    requires forall k :: 0 <= k < |want| && want[k] ==> g[k] == o
    ensures Servable(Init(g, max), want, o)
  {
  }

  /** Requests for all entries of o until nothing is left. */
  lemma ReachBelow(g: seq<nat>, max: seq<int>, o: nat) returns (actions: seq<Action>)
    requires Listed(g, max) && o < |max| && max[o] >= 0
    requires Entries(g, o, |g|) > 0 && max[o] % Entries(g, o, |g|) != 0
    ensures AllAlike(g, actions) && BelowZero(g, max, actions, o)
  {
    var c, want, s := Entries(g, o, |g|), WantAll(g, o), Init(g, max);
    AllEntries(g, want, o, |g|);
    InitServable(g, max, o, want);
    var t, n;
    actions, t, n := ServeDown(s, want, o, c, 0);
    MultipleDivides(n, c);
    assert Alike(g, want);
  }

  /** For arbitrary requests: exactly when an object that allows anything stands in the list more than once. */
  lemma BelowZeroAnyExactly(g: seq<nat>, max: seq<int>, o: nat)
    requires Listed(g, max) && o < |max| && max[o] >= 0
    ensures (exists actions :: BelowZero(g, max, actions, o)) <==> max[o] > 0 && Entries(g, o, |g|) > 1
  {
    if actions :| BelowZero(g, max, actions, o) {
      if max[o] == 0 || Entries(g, o, |g|) <= 1 { SafeOnce(g, max, actions, o); }
    }
    if max[o] > 0 && Entries(g, o, |g|) > 1 {
      var actions := ReachBelowAny(g, max, o);
      assert BelowZero(g, max, actions, o);
    }
  }

  /** Requests for one entry until one is left, then a request for all of them. */
  lemma ReachBelowAny(g: seq<nat>, max: seq<int>, o: nat) returns (actions: seq<Action>)
    requires Listed(g, max) && o < |max| && max[o] > 0 && Entries(g, o, |g|) > 1
    ensures BelowZero(g, max, actions, o)
  {
    var s := Init(g, max);
    var j := SomeEntry(g, o, |g|);
    var one, all := WantOne(g, j), WantAll(g, o);
    OneEntry(one, j, |g|);
    AllEntries(g, all, o, |g|);
    var a, s1: State := [], s;
    InitServable(g, max, o, one);
    InitServable(g, max, o, all);
    if max[o] > 1 {
      var n;
      a, s1, n := ServeDown(s, one, o, 1, 1);
    }
    var b := Serve(s1, all, o);
    RunJoin(s, a, s1, b);
    actions := a + b;
  }
}
