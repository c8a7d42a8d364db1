/** web.Limits: admission of requests over several counters, all or none. */
module AddCount {
  import opened Util

  /**
   * Where a request is: looking at item i, having collected the matching ones; waiting for the lock; under the lock
   * checking, then taking from, the i-th of them; admitted; under the lock giving back; done; refused; admitted without
   * any matching item.
   */
  datatype Phase =
    | Scan(i: nat, ms: seq<nat>)
    | Queue(ms: seq<nat>)
    | Check(ms: seq<nat>, i: nat)
    | Take(ms: seq<nat>, i: nat)
    | Admitted(ms: seq<nat>)
    | Give(ms: seq<nat>, i: nat)
    | Done(ms: seq<nat>)
    | Refused
    | Passed

  /** A request, and which of the list's items it matches. */
  datatype Request = Request(want: seq<bool>, phase: Phase)

  datatype State = State(
    g: seq<nat>,          // the list of items, each given by its object
    max: seq<int>,        // per object: what it was created with
    avail: seq<int>,      // per object
    lock: Option<nat>,    // the request that holds the lock of the list
    rs: seq<Request>)

  datatype Action = Arrive(want: seq<bool>) | Move(r: nat)

  function Avail(s: State, k: nat): int
    requires k < |s.g| && s.g[k] < |s.avail|
  {
    s.avail[s.g[k]]
  }

  function To(s: State, r: nat, phase: Phase): State
    requires r < |s.rs|
  {
    s.(rs := s.rs[r := s.rs[r].(phase := phase)])
  }

  function Add(s: State, k: nat, d: int): State
    requires k < |s.g| && s.g[k] < |s.avail|
  {
    s.(avail := s.avail[s.g[k] := s.avail[s.g[k]] + d])
  }

  /** Objects exist, and every collected index is in the list. */
  predicate Shaped(s: State) {
    && |s.avail| == |s.max| && (forall k :: 0 <= k < |s.g| ==> s.g[k] < |s.max|)
    && (forall r :: 0 <= r < |s.rs| ==> PhaseShaped(s, s.rs[r]))
  }

  /** The indices below n that are wanted. */
  function Wanted(want: seq<bool>, n: nat): (ms: seq<nat>)
    requires n <= |want|
    ensures forall k :: 0 <= k < |ms| ==> ms[k] < n && want[ms[k]]
  {
    if n == 0 then [] else Wanted(want, n - 1) + (if want[n - 1] then [n - 1] else [])
  }

  lemma {:induction false} WantedAll(want: seq<bool>, n: nat)
    requires n <= |want|
    ensures forall i :: 0 <= i < n && want[i] ==> i in Wanted(want, n)
    ensures forall j, k :: 0 <= j < k < |Wanted(want, n)| ==> Wanted(want, n)[j] < Wanted(want, n)[k]
  {
    if n > 0 { WantedAll(want, n - 1); }
  }

  /** From the end of the scan on, exactly the matching items have been collected. */
  predicate PhaseShaped(s: State, q: Request) {
    && |q.want| == |s.g|
    && match q.phase
       case Scan(i, ms) => i <= |s.g| && ms == Wanted(q.want, i)
       case Queue(ms) => ms == Wanted(q.want, |s.g|)
       case Check(ms, i) => ms == Wanted(q.want, |s.g|) && i <= |ms|
       case Take(ms, i) => ms == Wanted(q.want, |s.g|) && i <= |ms|
       case Admitted(ms) => ms == Wanted(q.want, |s.g|)
       case Give(ms, i) => ms == Wanted(q.want, |s.g|) && i <= |ms|
       case Done(ms) => ms == Wanted(q.want, |s.g|)
       case Refused => true
       case Passed => Wanted(q.want, |s.g|) == []
  }

  function OnScan(s: State, r: nat): State
    requires Shaped(s) && r < |s.rs| && s.rs[r].phase.Scan?
  {
    var q := s.rs[r];
    var i, ms := q.phase.i, q.phase.ms;
    if i == |s.g| then To(s, r, if ms == [] then Passed else Queue(ms))
    else if !q.want[i] then To(s, r, Scan(i + 1, ms))
    else if Avail(s, i) == 0 then To(s, r, Refused)
    else To(s, r, Scan(i + 1, ms + [i]))
  }

  function OnCheck(s: State, r: nat): State
    requires Shaped(s) && r < |s.rs| && s.rs[r].phase.Check? && PhaseShaped(s, s.rs[r])
  {
    var ms, i := s.rs[r].phase.ms, s.rs[r].phase.i;
    if i == |ms| then To(s, r, Take(ms, 0))
    else if Avail(s, ms[i]) == 0 then To(s, r, Refused).(lock := None)
    else To(s, r, Check(ms, i + 1))
  }

  function OnTake(s: State, r: nat): State
    requires Shaped(s) && r < |s.rs| && s.rs[r].phase.Take? && PhaseShaped(s, s.rs[r])
  {
    var ms, i := s.rs[r].phase.ms, s.rs[r].phase.i;
    if i == |ms| then To(s, r, Admitted(ms)).(lock := None)
    else To(Add(s, ms[i], -1), r, Take(ms, i + 1))
  }

  function OnGive(s: State, r: nat): State
    requires Shaped(s) && r < |s.rs| && s.rs[r].phase.Give? && PhaseShaped(s, s.rs[r])
  {
    var ms, i := s.rs[r].phase.ms, s.rs[r].phase.i;
    if i == |ms| then To(s, r, Done(ms)).(lock := None)
    else To(Add(s, ms[i], 1), r, Give(ms, i + 1))
  }

  /** One atomic step of request r; an admitted one goes on when its context ends. */
  function OnMove(s: State, r: nat): Option<State>
    requires Shaped(s) && r < |s.rs|
  {
    assert PhaseShaped(s, s.rs[r]);
    match s.rs[r].phase
    case Scan(_, _) => Some(OnScan(s, r))
    case Queue(ms) => if s.lock.Some? then None else Some(To(s, r, Check(ms, 0)).(lock := Some(r)))
    case Check(_, _) => Some(OnCheck(s, r))
    case Take(_, _) => Some(OnTake(s, r))
    case Admitted(ms) => if s.lock.Some? then None else Some(To(s, r, Give(ms, 0)).(lock := Some(r)))
    case Give(_, _) => Some(OnGive(s, r))
    case Done(_) => None
    case Refused => None
    case Passed => None
  }

  function Step(s: State, a: Action): Option<State>
    requires Shaped(s)
  {
    match a
    case Arrive(want) =>
      if |want| == |s.g| then Some(s.(rs := s.rs + [Request(want, Scan(0, []))])) else None
    case Move(r) => if r < |s.rs| then OnMove(s, r) else None
  }

  // ----- What is taken -----

  /** The matching items a request has taken from and not given back to. */
  function Taken(p: Phase): seq<nat> {
    match p
    case Take(ms, i) => if i <= |ms| then ms[..i] else []
    case Admitted(ms) => ms
    case Give(ms, i) => if i <= |ms| then ms[i..] else []
    case _ => []
  }

  /** How many of the list entries ks are the object o. */
  function Hits(g: seq<nat>, ks: seq<nat>, o: nat): nat {
    if ks == [] then 0
    else Hits(g, ks[..|ks| - 1], o) + (if ks[|ks| - 1] < |g| && g[ks[|ks| - 1]] == o then 1 else 0)
  }

  /** How much of the object o all requests have taken. */
  function Total(g: seq<nat>, rs: seq<Request>, o: nat): nat {
    if rs == [] then 0 else Total(g, rs[..|rs| - 1], o) + Hits(g, Taken(rs[|rs| - 1].phase), o)
  }

  lemma {:induction false} TotalUpdate(g: seq<nat>, rs: seq<Request>, o: nat, r: nat, q: Request)
    requires r < |rs|
    ensures Total(g, rs[r := q], o) == Total(g, rs, o) - Hits(g, Taken(rs[r].phase), o) + Hits(g, Taken(q.phase), o)
  {
    var n := |rs| - 1;
    if r < n {
      assert rs[r := q][..n] == rs[..n][r := q];
      TotalUpdate(g, rs[..n], o, r, q);
    } else {
      assert rs[r := q][..n] == rs[..n];
    }
  }

  lemma HitsSnoc(g: seq<nat>, ks: seq<nat>, k: nat, o: nat)
    ensures Hits(g, ks + [k], o) == Hits(g, ks, o) + (if k < |g| && g[k] == o then 1 else 0)
  {
    assert (ks + [k])[..|ks|] == ks;
  }

  lemma {:induction false} HitsCons(g: seq<nat>, k: nat, ks: seq<nat>, o: nat)
    ensures Hits(g, [k] + ks, o) == (if k < |g| && g[k] == o then 1 else 0) + Hits(g, ks, o)
  {
    if ks == [] {
      assert [k] + ks == [] + [k];
      HitsSnoc(g, [], k, o);
    } else {
      var n := |ks| - 1;
      HitsCons(g, k, ks[..n], o);
      assert ([k] + ks)[..n + 1] == [k] + ks[..n];
    }
  }

  // ----- Invariant -----

  /** Whether a request is in a phase that holds the lock. */
  predicate Locking(p: Phase) { p.Check? || p.Take? || p.Give? }

  predicate LockInv(s: State) {
    && (forall r :: 0 <= r < |s.rs| ==> (Locking(s.rs[r].phase) <==> s.lock == Some(r)))
    && (s.lock.Some? ==> s.lock.value < |s.rs|)
  }

  /** Each counter is its maximum less what is taken. */
  predicate SumInv(s: State) {
    forall o :: 0 <= o < |s.avail| && o < |s.max| ==> s.avail[o] == s.max[o] - Total(s.g, s.rs, o)
  }

  /** What a request has found available under the lock stays so until it takes. */
  predicate Looked(s: State, q: Request)
    requires Shaped(s) && PhaseShaped(s, q)
  {
    q.phase.Check? ==> forall k :: 0 <= k < q.phase.i ==> Avail(s, q.phase.ms[k]) != 0
  }

  predicate LookInv(s: State)
    requires Shaped(s)
  {
    forall r :: 0 <= r < |s.rs| ==> Looked(s, s.rs[r])
  }

  predicate Inv(s: State) { Shaped(s) && LockInv(s) && SumInv(s) && LookInv(s) }

  function Init(g: seq<nat>, max: seq<int>): State { State(g, max, max, None, []) }

  /** Request r moves from its phase to p, its lock and the counters changing as given. */
  predicate Changes(s: State, t: State, r: nat, p: Phase) {
    r < |s.rs| && t == s.(rs := s.rs[r := s.rs[r].(phase := p)], lock := t.lock, avail := t.avail)
  }

  lemma ShapedKept(s: State, t: State, r: nat, p: Phase)
    requires Shaped(s) && Changes(s, t, r, p) && |t.avail| == |s.avail| && PhaseShaped(s, s.rs[r].(phase := p))
    ensures Shaped(t)
  {
    forall q | 0 <= q < |t.rs|
      ensures PhaseShaped(t, t.rs[q])
    {
      assert PhaseShaped(s, s.rs[q]);
    }
  }

  lemma LockKept(s: State, t: State, r: nat, p: Phase)
    requires LockInv(s) && Changes(s, t, r, p)
    requires Locking(s.rs[r].phase) || s.lock.None? || !Locking(p)
    requires t.lock == if Locking(p) then Some(r) else if Locking(s.rs[r].phase) then None else s.lock
    ensures LockInv(t)
  {
  }

  lemma SumKept(s: State, t: State, r: nat, p: Phase)
    requires SumInv(s) && Changes(s, t, r, p) && |t.avail| == |s.avail| == |s.max|
    requires forall o :: 0 <= o < |s.avail| ==>
               t.avail[o] - s.avail[o] == Hits(s.g, Taken(s.rs[r].phase), o) - Hits(s.g, Taken(p), o)
    ensures SumInv(t)
  {
    forall o | 0 <= o < |t.avail|
      ensures t.avail[o] == t.max[o] - Total(t.g, t.rs, o)
    {
      TotalUpdate(s.g, s.rs, o, r, t.rs[r]);
    }
  }

  /** Nobody else is looking under the lock while counters change. */
  lemma LookKept(s: State, t: State, r: nat, p: Phase)
    requires Inv(s) && Changes(s, t, r, p) && Shaped(t)
    requires t.avail == s.avail || Locking(s.rs[r].phase)
    requires Looked(t, t.rs[r])
    ensures LookInv(t)
  {
    forall q | 0 <= q < |t.rs|
      ensures Looked(t, t.rs[q])
    {
      assert Looked(s, s.rs[q]);
    }
  }

  /** A move outside the lock of a request that holds nothing, and holds nothing after it. */
  lemma QuietMove(s: State, r: nat, p: Phase)
    requires Inv(s) && r < |s.rs| && PhaseShaped(s, s.rs[r].(phase := p))
    requires !Locking(s.rs[r].phase) && !Locking(p) && Taken(s.rs[r].phase) == [] && Taken(p) == []
    ensures Inv(To(s, r, p))
  {
    var t := To(s, r, p);
    ShapedKept(s, t, r, p);
    LockKept(s, t, r, p);
    SumKept(s, t, r, p);
    LookKept(s, t, r, p);
  }

  /** Where a look at item i leads. */
  function Scanned(s: State, r: nat): Phase
    requires Shaped(s) && r < |s.rs| && s.rs[r].phase.Scan?
  {
    OnScan(s, r).rs[r].phase
  }

  lemma ScanMoves(s: State, r: nat)
    requires Shaped(s) && r < |s.rs| && s.rs[r].phase.Scan?
    ensures OnScan(s, r) == To(s, r, Scanned(s, r)) && PhaseShaped(s, s.rs[r].(phase := Scanned(s, r)))
    ensures !Locking(Scanned(s, r)) && Taken(Scanned(s, r)) == []
  {
    assert PhaseShaped(s, s.rs[r]);
  }

  lemma ScanKeeps(s: State, r: nat)
    requires Inv(s) && r < |s.rs| && s.rs[r].phase.Scan?
    ensures Inv(OnScan(s, r))
  {
    ScanMoves(s, r);
    QuietMove(s, r, Scanned(s, r));
  }

  lemma EnterKeeps(s: State, r: nat)
    requires Inv(s) && r < |s.rs| && s.lock.None? && (s.rs[r].phase.Queue? || s.rs[r].phase.Admitted?)
    ensures Inv(OnMove(s, r).value)
  {
    assert PhaseShaped(s, s.rs[r]);
    var t := OnMove(s, r).value;
    var p := t.rs[r].phase;
    ShapedKept(s, t, r, p);
    LockKept(s, t, r, p);
    assert p.Give? ==> p.ms[0..] == p.ms;
    SumKept(s, t, r, p);
    LookKept(s, t, r, p);
  }

  /** One more item found available, or all of them. */
  lemma CheckLooks(s: State, r: nat, t: State)
    requires Inv(s) && r < |s.rs| && s.rs[r].phase.Check? && PhaseShaped(s, s.rs[r]) && t == OnCheck(s, r) && Shaped(t)
    ensures Looked(t, t.rs[r])
  {
    assert Looked(s, s.rs[r]) && PhaseShaped(t, t.rs[r]);
  }

  lemma CheckKeeps(s: State, r: nat)
    requires Inv(s) && r < |s.rs| && s.rs[r].phase.Check?
    ensures PhaseShaped(s, s.rs[r]) && Inv(OnCheck(s, r))
  {
    assert PhaseShaped(s, s.rs[r]);
    var t := OnCheck(s, r);
    var p := t.rs[r].phase;
    ShapedKept(s, t, r, p);
    LockKept(s, t, r, p);
    SumKept(s, t, r, p);
    CheckLooks(s, r, t);
    LookKept(s, t, r, p);
  }

  lemma TakeKeeps(s: State, r: nat)
    requires Inv(s) && r < |s.rs| && s.rs[r].phase.Take?
    ensures PhaseShaped(s, s.rs[r]) && Inv(OnTake(s, r))
  {
    assert PhaseShaped(s, s.rs[r]);
    var t := OnTake(s, r);
    var p := t.rs[r].phase;
    ShapedKept(s, t, r, p);
    LockKept(s, t, r, p);
    TakeSum(s, r, t);
    SumKept(s, t, r, p);
    LookKept(s, t, r, p);
  }

  lemma TakeSum(s: State, r: nat, t: State)
    requires Shaped(s) && r < |s.rs| && s.rs[r].phase.Take? && PhaseShaped(s, s.rs[r]) && t == OnTake(s, r)
    ensures forall o :: 0 <= o < |s.avail| ==>
              t.avail[o] - s.avail[o] == Hits(s.g, Taken(s.rs[r].phase), o) - Hits(s.g, Taken(t.rs[r].phase), o)
  {
    forall o | 0 <= o < |s.avail|
      ensures t.avail[o] - s.avail[o] == Hits(s.g, Taken(s.rs[r].phase), o) - Hits(s.g, Taken(t.rs[r].phase), o)
    {
      TakeOne(s, r, t, o);
    }
  }

  lemma TakeOne(s: State, r: nat, t: State, o: nat)
    requires Shaped(s) && r < |s.rs| && s.rs[r].phase.Take? && PhaseShaped(s, s.rs[r]) && t == OnTake(s, r) && o < |s.avail|
    ensures t.avail[o] - s.avail[o] == Hits(s.g, Taken(s.rs[r].phase), o) - Hits(s.g, Taken(t.rs[r].phase), o)
  {
    var ms, i := s.rs[r].phase.ms, s.rs[r].phase.i;
    if i < |ms| { HitsTake(s.g, ms, i, o); } else { assert ms[..i] == ms; }
  }

  lemma HitsTake(g: seq<nat>, ms: seq<nat>, i: nat, o: nat)
    requires i < |ms|
    ensures Hits(g, ms[..i + 1], o) == Hits(g, ms[..i], o) + (if ms[i] < |g| && g[ms[i]] == o then 1 else 0)
  {
    assert ms[..i + 1] == ms[..i] + [ms[i]];
    HitsSnoc(g, ms[..i], ms[i], o);
  }

  lemma GiveKeeps(s: State, r: nat)
    requires Inv(s) && r < |s.rs| && s.rs[r].phase.Give?
    ensures PhaseShaped(s, s.rs[r]) && Inv(OnGive(s, r))
  {
    assert PhaseShaped(s, s.rs[r]);
    var t := OnGive(s, r);
    var p := t.rs[r].phase;
    ShapedKept(s, t, r, p);
    LockKept(s, t, r, p);
    GiveSum(s, r, t);
    SumKept(s, t, r, p);
    LookKept(s, t, r, p);
  }

  lemma GiveSum(s: State, r: nat, t: State)
    requires Shaped(s) && r < |s.rs| && s.rs[r].phase.Give? && PhaseShaped(s, s.rs[r]) && t == OnGive(s, r)
    ensures forall o :: 0 <= o < |s.avail| ==>
              t.avail[o] - s.avail[o] == Hits(s.g, Taken(s.rs[r].phase), o) - Hits(s.g, Taken(t.rs[r].phase), o)
  {
    forall o | 0 <= o < |s.avail|
      ensures t.avail[o] - s.avail[o] == Hits(s.g, Taken(s.rs[r].phase), o) - Hits(s.g, Taken(t.rs[r].phase), o)
    {
      GiveOne(s, r, t, o);
    }
  }

  lemma GiveOne(s: State, r: nat, t: State, o: nat)
    requires Shaped(s) && r < |s.rs| && s.rs[r].phase.Give? && PhaseShaped(s, s.rs[r]) && t == OnGive(s, r) && o < |s.avail|
    ensures t.avail[o] - s.avail[o] == Hits(s.g, Taken(s.rs[r].phase), o) - Hits(s.g, Taken(t.rs[r].phase), o)
  {
    var ms, i := s.rs[r].phase.ms, s.rs[r].phase.i;
    if i < |ms| { HitsGive(s.g, ms, i, o); } else { assert ms[i..] == []; }
  }

  lemma HitsGive(g: seq<nat>, ms: seq<nat>, i: nat, o: nat)
    requires i < |ms|
    ensures Hits(g, ms[i..], o) == (if ms[i] < |g| && g[ms[i]] == o then 1 else 0) + Hits(g, ms[i + 1..], o)
  {
    assert ms[i..] == [ms[i]] + ms[i + 1..];
    HitsCons(g, ms[i], ms[i + 1..], o);
  }

  lemma ArriveShaped(s: State, t: State, q: Request)
    requires Shaped(s) && |q.want| == |s.g| && q.phase == Scan(0, []) && t == s.(rs := s.rs + [q])
    ensures Shaped(t)
  {
    forall r | 0 <= r < |t.rs|
      ensures PhaseShaped(t, t.rs[r])
    {
      if r < |s.rs| { assert PhaseShaped(s, s.rs[r]); }
    }
  }

  lemma ArriveLook(s: State, t: State, q: Request)
    requires Inv(s) && Shaped(t) && q.phase == Scan(0, []) && t == s.(rs := s.rs + [q])
    ensures LookInv(t)
  {
    forall r | 0 <= r < |t.rs|
      ensures Looked(t, t.rs[r])
    {
      if r < |s.rs| { assert Looked(s, s.rs[r]); }
    }
  }

  lemma ArriveSum(s: State, t: State, q: Request)
    requires SumInv(s) && q.phase == Scan(0, []) && t == s.(rs := s.rs + [q])
    ensures SumInv(t)
  {
    assert t.rs[..|s.rs|] == s.rs;
  }

  lemma ArriveKeeps(s: State, q: Request)
    requires Inv(s) && |q.want| == |s.g| && q.phase == Scan(0, [])
    ensures Inv(s.(rs := s.rs + [q]))
  {
    var t := s.(rs := s.rs + [q]);
    ArriveShaped(s, t, q);
    ArriveSum(s, t, q);
    ArriveLook(s, t, q);
  }

  lemma {:induction false} StepKeeps(s: State, a: Action)
    requires Inv(s) && Step(s, a).Some?
    ensures Inv(Step(s, a).value)
  {
    match a
    case Arrive(want) => ArriveKeeps(s, Request(want, Scan(0, [])));
    case Move(r) =>
      match s.rs[r].phase {
        case Scan(_, _) => ScanKeeps(s, r);
        case Queue(_) => EnterKeeps(s, r);
        case Check(_, _) => CheckKeeps(s, r);
        case Take(_, _) => TakeKeeps(s, r);
        case Admitted(_) => EnterKeeps(s, r);
        case Give(_, _) => GiveKeeps(s, r);
        case Done(_) =>
        case Refused =>
        case Passed =>
      }
  }

  // ----- Runs -----

  /** The actions one after the other; None where one is not possible. */
  function Run(s: State, actions: seq<Action>): Option<State> {
    if actions == [] then Some(s)
    else
      var r := Run(s, actions[..|actions| - 1]);
      if r.None? || !Shaped(r.value) then None else Step(r.value, actions[|actions| - 1])
  }

  predicate Listed(g: seq<nat>, max: seq<int>) { forall k :: 0 <= k < |g| ==> g[k] < |max| }

  lemma {:induction false} RunKeeps(s: State, actions: seq<Action>)
    requires Inv(s) && Run(s, actions).Some?
    ensures var t := Run(s, actions).value; Inv(t) && t.g == s.g && t.max == s.max
  {
    if actions != [] {
      var before := Run(s, actions[..|actions| - 1]).value;
      RunKeeps(s, actions[..|actions| - 1]);
      StepKeeps(before, actions[|actions| - 1]);
      ListKept(before, actions[|actions| - 1]);
    }
  }

  lemma ListKept(s: State, a: Action)
    requires Shaped(s) && Step(s, a).Some?
    ensures var t := Step(s, a).value; t.g == s.g && t.max == s.max
  {
    if a.Move? { assert PhaseShaped(s, s.rs[a.r]); }
  }

  /** In every interleaving each counter is its maximum less what requests hold of it. */
  lemma AvailableIs(g: seq<nat>, max: seq<int>, actions: seq<Action>, o: nat)
    requires Listed(g, max) && Run(Init(g, max), actions).Some? && o < |max|
    ensures var s := Run(Init(g, max), actions).value;
      |s.avail| == |max| && s.avail[o] == max[o] - Total(g, s.rs, o)
  {
    assert Inv(Init(g, max));
    RunKeeps(Init(g, max), actions);
  }

  // ----- One request -----

  predicate Distinct(g: seq<nat>) { forall j, k :: 0 <= j < k < |g| ==> g[j] != g[k] }

  lemma {:induction false} HitsOnce(g: seq<nat>, ks: seq<nat>, o: nat)
    requires Distinct(g) && (forall k :: 0 <= k < |ks| ==> ks[k] < |g|) && (forall j, k :: 0 <= j < k < |ks| ==> ks[j] < ks[k])
    ensures Hits(g, ks, o) == if exists k :: 0 <= k < |ks| && g[ks[k]] == o then 1 else 0
  {
    if ks != [] {
      var n := |ks| - 1;
      HitsOnce(g, ks[..n], o);
      assert forall k :: 0 <= k < n ==> ks[..n][k] == ks[k] && g[ks[k]] != g[ks[n]];
      if exists k :: 0 <= k < |ks| && g[ks[k]] == o {
        var k :| 0 <= k < |ks| && g[ks[k]] == o;
        assert k == n || g[ks[..n][k]] == o;
      }
    }
  }

  /** The request matches an entry of the list that is the object o. */
  predicate Matches(g: seq<nat>, want: seq<bool>, o: nat) {
    exists k :: 0 <= k < |g| && k < |want| && g[k] == o && want[k]
  }

  /** What a request in one of the settled phases holds: nothing when refused or done, one of every matching item when admitted. */
  lemma HeldBy(g: seq<nat>, max: seq<int>, actions: seq<Action>, r: nat, o: nat)
    requires Listed(g, max) && Distinct(g) && Run(Init(g, max), actions).Some?
    requires r < |Run(Init(g, max), actions).value.rs|
    ensures var q := Run(Init(g, max), actions).value.rs[r];
      && (q.phase.Refused? || q.phase.Done? || q.phase.Passed? || q.phase.Scan? || q.phase.Queue? || q.phase.Check? ==>
            Hits(g, Taken(q.phase), o) == 0)
      && (q.phase.Admitted? ==> Hits(g, Taken(q.phase), o) == if Matches(g, q.want, o) then 1 else 0)
  {
    assert Inv(Init(g, max));
    RunKeeps(Init(g, max), actions);
    var s := Run(Init(g, max), actions).value;
    var q := s.rs[r];
    assert PhaseShaped(s, q);
    if q.phase.Admitted? {
      var ms := Wanted(q.want, |g|);
      WantedAll(q.want, |g|);
      HitsOnce(g, ms, o);
      if Matches(g, q.want, o) {
        var k :| 0 <= k < |g| && g[k] == o && q.want[k];
        assert k in ms;
        var j :| 0 <= j < |ms| && ms[j] == k;
        assert g[ms[j]] == o;
      }
    }
  }

  /** How many requests are admitted and not yet giving back, among those that match o. */
  function AdmittedOn(g: seq<nat>, rs: seq<Request>, o: nat): nat {
    if rs == [] then 0
    else
      var q := rs[|rs| - 1];
      AdmittedOn(g, rs[..|rs| - 1], o) + (if q.phase.Admitted? && Hits(g, q.phase.ms, o) > 0 then 1 else 0)
  }

  lemma {:induction false} AdmittedAtMost(g: seq<nat>, rs: seq<Request>, o: nat)
    ensures AdmittedOn(g, rs, o) <= Total(g, rs, o)
  {
    if rs != [] { AdmittedAtMost(g, rs[..|rs| - 1], o); }
  }

  /** The object o is used up: all that it allows has been taken and not given back. */
  predicate Full(s: State, o: nat) { o < |s.max| && Total(s.g, s.rs, o) == s.max[o] }

  /** Some item that q matches is used up. */
  predicate FullFor(s: State, q: Request) {
    exists k :: 0 <= k < |s.g| && k < |q.want| && q.want[k] && Full(s, s.g[k])
  }

  predicate Undecided(p: Phase) { p.Scan? || p.Queue? || p.Check? }

  predicate Decided(p: Phase) { p.Refused? || p.Take? || p.Passed? }

  /** At the moment a request is decided it is refused exactly if some item it matches is used up. */
  lemma RefusedExactly(g: seq<nat>, max: seq<int>, actions: seq<Action>, r: nat)
    requires Listed(g, max) && Run(Init(g, max), actions).Some?
    requires var s := Run(Init(g, max), actions).value;
      && Shaped(s) && Step(s, Move(r)).Some?
      && Undecided(s.rs[r].phase) && Decided(Step(s, Move(r)).value.rs[r].phase)
    ensures var s := Run(Init(g, max), actions).value; var t := Step(s, Move(r)).value;
      && t.avail == s.avail && (t.rs[r].phase.Refused? <==> FullFor(s, s.rs[r]))
  {
    assert Inv(Init(g, max));
    RunKeeps(Init(g, max), actions);
    DecidedExactly(Run(Init(g, max), actions).value, r);
  }

  lemma FullIs(s: State, k: nat)
    requires Inv(s) && k < |s.g|
    ensures Full(s, s.g[k]) <==> Avail(s, k) == 0
  {
  }

  lemma RefusedIsFull(s: State, r: nat)
    requires Inv(s) && Step(s, Move(r)).Some? && Undecided(s.rs[r].phase) && Step(s, Move(r)).value.rs[r].phase.Refused?
    ensures FullFor(s, s.rs[r]) && Step(s, Move(r)).value.avail == s.avail
  {
    var q := s.rs[r];
    assert PhaseShaped(s, q);
    var k := if q.phase.Scan? then q.phase.i else q.phase.ms[q.phase.i];
    FullIs(s, k);
    assert q.want[k] && Full(s, s.g[k]);
  }

  /** The check under the lock has found every matching item available. */
  lemma CheckedNotFull(s: State, r: nat)
    requires Inv(s) && r < |s.rs| && s.rs[r].phase.Check? && s.rs[r].phase.i == |s.rs[r].phase.ms|
    ensures !FullFor(s, s.rs[r])
  {
    var q := s.rs[r];
    assert PhaseShaped(s, q) && Looked(s, q);
    WantedAll(q.want, |s.g|);
    forall k | 0 <= k < |s.g| && q.want[k]
      ensures !Full(s, s.g[k])
    {
      assert k in Wanted(q.want, |s.g|);
      var j :| 0 <= j < |q.phase.ms| && q.phase.ms[j] == k;
      assert Avail(s, q.phase.ms[j]) != 0;
      FullIs(s, k);
    }
  }

  lemma NothingWanted(s: State, q: Request)
    requires |q.want| == |s.g| && Wanted(q.want, |s.g|) == []
    ensures !FullFor(s, q)
  {
    WantedAll(q.want, |s.g|);
  }

  lemma DecidedExactly(s: State, r: nat)
    requires Inv(s) && Step(s, Move(r)).Some? && Undecided(s.rs[r].phase) && Decided(Step(s, Move(r)).value.rs[r].phase)
    ensures var t := Step(s, Move(r)).value; t.avail == s.avail && (t.rs[r].phase.Refused? <==> FullFor(s, s.rs[r]))
  {
    var t := Step(s, Move(r)).value;
    assert PhaseShaped(s, s.rs[r]);
    if t.rs[r].phase.Refused? {
      RefusedIsFull(s, r);
    } else if s.rs[r].phase.Check? {
      CheckedNotFull(s, r);
    } else {
      NothingWanted(s, s.rs[r]);
    }
  }

  /** Whoever holds the lock can go on. */
  lemma HolderMoves(s: State)
    requires Inv(s) && s.lock.Some?
    ensures Step(s, Move(s.lock.value)).Some?
  {
    assert Locking(s.rs[s.lock.value].phase);
  }
}
