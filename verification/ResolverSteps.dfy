/** keyFunc.getTrace: what the history of a run looks like, step by step, and where it ends. */
module ResolverSteps {
  import opened Util
  import opened Resolver

  // ----- The rule of the search -----

  predicate CallOf(e: Event, key: string, i: nat) { e.Called? && e.key == key && e.i == i }

  /** A method call since event a that missed k is the one made again. */
  ghost predicate Retries(log: seq<Event>, a: nat, j: nat, k: string, f: Event) {
    exists h :: a <= h < j && h < |log| && f.Called? && CallOf(log[h], f.key, f.i) && log[h].miss == k
  }

  /** It is the next method of a key one of whose methods missed another key. */
  ghost predicate GoesUp(log: seq<Event>, a: nat, j: nat, f: Event) {
    exists h :: a <= h < j && h < |log| && Missed(log[h], f)
  }

  predicate Missed(e: Event, f: Event) { f.Called? && f.i > 0 && CallOf(e, f.key, f.i - 1) && e.miss != "" }

  /** Event j and the one after it, in a run that began with event a. */
  ghost predicate Goes(env: Env, log: seq<Event>, a: nat, j: nat)
    requires j + 1 < |log|
  {
    var f := log[j + 1];
    match log[j]
    case Called(k, i, miss, err) =>
      if miss != "" then CallOf(f, miss, 0)
      else if err.None? then f.Checked? && f.key == k
      else IsNext(err) && if i + 1 < env.Methods(k) then CallOf(f, k, i + 1) else GoesUp(log, a, j, f)
    case Checked(k, ok) =>
      if ok then Retries(log, a, j, k, f) else j > 0 && log[j - 1].Called? && CallOf(f, k, log[j - 1].i + 1)
  }

  /** From event a on everything goes by the rule. */
  ghost predicate Segment(env: Env, log: seq<Event>, a: nat) { forall j :: a <= j && j + 1 < |log| ==> Goes(env, log, a, j) }

  /**
   * The last event, and the error that it makes: the asked-for key has been checked; a method gave an error, with no
   * further method if that asks for one; a check said no and there is no further method; or a method missed a key that is
   * not registered or is being obtained already.
   */
  ghost predicate Stop(env: Env, key: string, o: Out) {
    o.log != [] &&
    match o.log[|o.log| - 1]
    case Called(k, i, miss, err) =>
      if miss == "" then err.Some? && o.Err() == err && (IsNext(err) ==> i + 1 == env.Methods(k))
      else if o.stray.Some? then o.stray == Some(miss) && !env.Registered(miss)
      else o.Err() == Some(ErrKeyMissAgain) && miss in Keys(o.trace)
    case Checked(k, ok) =>
      if ok then k == key && o.Err() == None
      else o.Err() == Some(ErrKeyNotValid) && |o.log| >= 2 && CalledLast(env, o.log[|o.log| - 2], k)
  }

  predicate CalledLast(env: Env, e: Event, k: string) { e.Called? && e.key == k && e.i + 1 == env.Methods(k) }

  /** The last method of key was called. */
  ghost predicate Tried(env: Env, log: seq<Event>, a: nat, key: string) {
    exists j :: a <= j < |log| && CalledLast(env, log[j], key)
  }

  /** What the history tells of obtaining key from its method i on. */
  ghost predicate Told(env: Env, key: string, i: nat, log: seq<Event>, o: Out) {
    && log <= o.log && |o.log| > |log| && CallOf(o.log[|log|], key, i)
    && Segment(env, o.log, |log|) && Stop(env, key, o)
    && (IsNext(o.Err()) ==> Tried(env, o.log, |log|, key))
  }

  // ----- Putting histories together -----

  lemma GoesStays(env: Env, log: seq<Event>, more: seq<Event>, a: nat, j: nat)
    requires log <= more && j + 1 < |log| && Goes(env, log, a, j)
    ensures Goes(env, more, a, j)
  {
    assert forall h :: 0 <= h < |log| ==> more[h] == log[h];
  }

  lemma SegmentStays(env: Env, log: seq<Event>, more: seq<Event>, a: nat)
    requires log <= more && a < |log| < |more| && Segment(env, log, a) && Segment(env, more, |log|)
    requires Goes(env, more, a, |log| - 1)
    ensures Segment(env, more, a)
  {
    forall j | a <= j && j + 1 < |more|
      ensures Goes(env, more, a, j)
    {
      if j + 1 < |log| { GoesStays(env, log, more, a, j); } else if j >= |log| { assert Goes(env, more, |log|, j); }
    }
  }

  /** How a round ends that is not the last: with the key it missed, or with nothing. */
  ghost predicate RoundEnd(env: Env, key: string, i: nat, a: nat, r: Round) {
    var log := r.out.log;
    a < |log| &&
    match r.verdict
    case Return => Stop(env, key, r.out)
    case Retry => CallOf(log[a], key, i) && a < |log| - 1 && log[|log| - 1] == Checked(log[a].miss, true)
    case Next => r.out.stray.None? && NextEnd(env, key, i, a, r.out)
  }

  ghost predicate NextEnd(env: Env, key: string, i: nat, a: nat, o: Out)
    requires a < |o.log|
  {
    var e := o.log[|o.log| - 1];
    || (CallOf(e, key, i) && e.miss == "" && IsNext(e.err) && o.Err() == e.err)
    || (e == Checked(key, false) && |o.log| >= 2 && CallOf(o.log[|o.log| - 2], key, i) && o.Err() == Some(ErrKeyNotValid))
    || (CallOf(o.log[a], key, i) && o.log[a].miss != "" && a < |o.log| - 1 &&
        e.Called? && e.miss == "" && IsNext(e.err) && o.Err() == e.err && e.i + 1 == env.Methods(e.key))
  }

  ghost predicate RoundTold(env: Env, key: string, i: nat, log: seq<Event>, r: Round) {
    && log <= r.out.log && |r.out.log| > |log| && CallOf(r.out.log[|log|], key, i)
    && Segment(env, r.out.log, |log|) && RoundEnd(env, key, i, |log|, r)
    && (r.verdict == Return ==> !IsNext(r.out.Err()))
  }

  /** A round that is not the last is followed by a call of the same method or the next one. */
  lemma RoundGoes(env: Env, key: string, i: nat, log: seq<Event>, r: Round, more: seq<Event>)
    requires RoundTold(env, key, i, log, r) && r.verdict != Return && r.out.log <= more && |more| > |r.out.log|
    requires CallOf(more[|r.out.log|], key, if r.verdict == Retry then i else i + 1) && i < env.Methods(key)
    requires r.verdict == Next ==> i + 1 < env.Methods(key)
    ensures Goes(env, more, |log|, |r.out.log| - 1)
  {
    var n, a := |r.out.log|, |log|;
    assert forall h :: 0 <= h < n ==> more[h] == r.out.log[h];
    var f := more[n];
    if r.verdict == Retry {
      assert CallOf(more[a], f.key, f.i) && more[a].miss == more[n - 1].key;
      assert Retries(more, a, n - 1, more[n - 1].key, f);
    } else if more[a].Called? && more[a].miss != "" && a < n - 1 {
      assert Missed(more[a], f);
    }
  }

  /** The loop goes on after a round. */
  lemma LoopTold(env: Env, key: string, i: nat, log: seq<Event>, r: Round, o: Out)
    requires RoundTold(env, key, i, log, r) && r.verdict != Return && i < env.Methods(key)
    requires r.verdict == Next ==> i + 1 < env.Methods(key)
    requires Told(env, key, if r.verdict == Retry then i else i + 1, r.out.log, o)
    ensures Told(env, key, i, log, o)
  {
    RoundGoes(env, key, i, log, r, o.log);
    SegmentStays(env, r.out.log, o.log, |log|);
    assert o.log[|log|] == r.out.log[|log|];
    if IsNext(o.Err()) {
      var j :| |r.out.log| <= j < |o.log| && CalledLast(env, o.log[j], key);
      assert Tried(env, o.log, |log|, key);
    }
  }

  /** Or ends behind the last method. */
  lemma LoopOver(env: Env, key: string, i: nat, log: seq<Event>, r: Round, o: Out)
    requires RoundTold(env, key, i, log, r) && r.verdict == Next && i + 1 == env.Methods(key)
    requires o == Out(r.out.trace, r.out.log, None)
    ensures Told(env, key, i, log, o)
  {
    assert CalledLast(env, o.log[|log|], key);
    assert r.out == o;
  }

  // ----- Runs -----

  lemma {:induction false} ResolveTells(env: Env, key: string, trace: seq<Entry>, log: seq<Event>, o: Out)
    requires key !in Keys(trace) && o == Resolve(env, key, trace, log)
    ensures if env.Registered(key) then Told(env, key, 0, log, o) else o == Out(trace, log, Some(key))
    decreases env.count.Keys - Keys(trace), 1, 0, 0
  {
    if env.Registered(key) { LoopTells(env, key, 0, trace, log, o); }
  }

  lemma {:induction false} LoopTells(env: Env, key: string, i: nat, trace: seq<Entry>, log: seq<Event>, o: Out)
    requires env.Registered(key) && i < env.count[key] && (key in Keys(trace) || i == 0)
    requires o == Loop(env, key, i, trace, log)
    ensures Told(env, key, i, log, o)
    decreases env.count.Keys - Keys(trace), if key in Keys(trace) then 2 else 0, env.count[key] - i, 1
  {
    var r := CallMethod(env, key, i, trace, log);
    RoundTells(env, key, i, trace, log, r);
    KeysExtend(trace, r.out.trace);
    if r.verdict == Return {
      assert o == r.out;
    } else {
      LoopGoesOn(env, key, i, trace, log);
      var i' := if r.verdict == Retry then i else i + 1;
      if i' < env.count[key] {
        LoopTells(env, key, i', r.out.trace, r.out.log, o);
        LoopTold(env, key, i, log, r, o);
      } else {
        LoopOver(env, key, i, log, r, o);
      }
    }
  }

  lemma {:induction false} RoundTells(env: Env, key: string, i: nat, trace: seq<Entry>, log: seq<Event>, r: Round)
    requires env.Registered(key) && i < env.count[key] && (key in Keys(trace) || i == 0)
    requires r == CallMethod(env, key, i, trace, log)
    ensures RoundTold(env, key, i, log, r)
    decreases env.count.Keys - Keys(trace), if key in Keys(trace) then 2 else 0, env.count[key] - i, 0
  {
    var (miss, err) := env.method_(log, key, i);
    var log1 := log + [Called(key, i, miss, err)];
    var t := trace + [Entry(key, i, err)];
    KeysAppend(trace, Entry(key, i, err));
    if miss == "" || miss in Keys(t) {
      RoundHere(env, key, i, trace, log, r);
    } else {
      var o := Resolve(env, miss, t, log1);
      ResolveTells(env, miss, t, log1, o);
      RoundMisses(env, key, i, log, miss, err, o, r);
    }
  }

  /** A round without a key to obtain. */
  lemma RoundHere(env: Env, key: string, i: nat, trace: seq<Entry>, log: seq<Event>, r: Round)
    requires env.Registered(key) && i < env.count[key] && (key in Keys(trace) || i == 0)
    requires r == CallMethod(env, key, i, trace, log)
    requires var (miss, err) := env.method_(log, key, i); miss == "" || miss in Keys(trace + [Entry(key, i, err)])
    ensures RoundTold(env, key, i, log, r)
  {
    var (miss, err) := env.method_(log, key, i);
    var log1 := log + [Called(key, i, miss, err)];
    var t := trace + [Entry(key, i, err)];
    if miss != "" {
      SetErrKeys(t, Some(ErrKeyMissAgain));
      OneEvent(env, key, i, log, log1[|log|], r);
    } else if err == None {
      var ok := env.check(log1, key);
      TwoEvents(env, key, i, log, log1[|log|], ok, r);
    } else {
      OneEvent(env, key, i, log, log1[|log|], r);
    }
  }

  lemma OneEvent(env: Env, key: string, i: nat, log: seq<Event>, e: Event, r: Round)
    requires CallOf(e, key, i) && r.out.log == log + [e] && r.out.stray.None? && r.verdict != Retry
    requires if e.miss != "" then r.verdict == Return && r.out.Err() == Some(ErrKeyMissAgain) && e.miss in Keys(r.out.trace)
             else e.err.Some? && r.out.Err() == e.err && (r.verdict == Next <==> IsNext(e.err))
    ensures RoundTold(env, key, i, log, r)
  {
  }

  lemma TwoEvents(env: Env, key: string, i: nat, log: seq<Event>, e: Event, ok: bool, r: Round)
    requires CallOf(e, key, i) && e.miss == "" && e.err.None?
    requires r.out.log == log + [e] + [Checked(key, ok)] && r.out.stray.None?
    requires if ok then r.verdict == Return && r.out.Err() == None else r.verdict == Next && r.out.Err() == Some(ErrKeyNotValid)
    ensures RoundTold(env, key, i, log, r)
  {
    assert r.out.log[|log|] == e && r.out.log[|log| + 1] == Checked(key, ok);
    assert Goes(env, r.out.log, |log|, |log|);
  }

  /** A round that misses a key, which has been obtained or not. */
  lemma RoundMisses(env: Env, key: string, i: nat, log: seq<Event>, miss: string, err: Option<Err>, o: Out, r: Round)
    requires miss != ""
    requires var log1 := log + [Called(key, i, miss, err)];
      if env.Registered(miss) then Told(env, miss, 0, log1, o) else (o.log == log1 && o.stray == Some(miss))
    requires r.out == o && r.verdict
             == if o.stray.Some? then Return else if o.Err() == None then Retry else if IsNext(o.Err()) then Next else Return
    ensures RoundTold(env, key, i, log, r)
  {
    var log1 := log + [Called(key, i, miss, err)];
    assert o.log[|log|] == log1[|log|] == Called(key, i, miss, err);
    if env.Registered(miss) {
      assert Goes(env, o.log, |log|, |log|);
      assert Segment(env, log1, |log|);
      SegmentStays(env, log1, o.log, |log|);
    }
  }

  // ----- What a run tells -----

  /** Every event follows from those before it, and the last one makes the error that is given back. */
  lemma HistoryExactly(env: Env, key: string, log: seq<Event>)
    ensures var o := GetTrace(env, key, log);
      if env.Registered(key) then Told(env, key, 0, log, o) else o == Out([], log, Some(key))
  {
    ResolveTells(env, key, [], log, GetTrace(env, key, log));
  }

  /** An error of a method that neither asks for the next method nor comes with a missed key. */
  predicate Fatal(e: Event) { e.Called? && e.miss == "" && e.err.Some? && !IsNext(e.err) }

  /** Such an error, a no from the last check or a miss that cannot be obtained is the last thing that happens. */
  lemma FatalIsLast(env: Env, key: string, log: seq<Event>, j: nat)
    requires var o := GetTrace(env, key, log); |log| <= j < |o.log| && Fatal(o.log[j])
    ensures var o := GetTrace(env, key, log); j == |o.log| - 1 && o.Err() == o.log[j].err
  {
    var o := GetTrace(env, key, log);
    HistoryExactly(env, key, log);
    assert j + 1 < |o.log| ==> Goes(env, o.log, |log|, j);
  }

  lemma {:induction false} ReplayHas(log: seq<Event>, o: nat, j: nat) returns (k: nat)
    requires o <= j < |log| && log[j].Called?
    ensures var t := Replay(log, o); k < |t| && t[k].key == log[j].key && t[k].i == log[j].i
  {
    var n := |log| - 1;
    if j < n { k := ReplayHas(log[..n], o, j); } else { k := |Replay(log[..n], o)|; }
  }

  lemma {:induction false} LastIsLargest(env: Env, trace: seq<Entry>, key: string, k: nat)
    requires InOrder(env, trace) && k < |trace| && trace[k].key == key
    ensures var l := LastIndex(trace, key); l.Some? && trace[k].i <= l.value < env.Methods(key)
  {
    var n := |trace| - 1;
    if k < n { LastIsLargest(env, trace[..n], key, k); }
  }

  lemma TriedIsLast(env: Env, key: string, log: seq<Event>)
    requires Tried(env, GetTrace(env, key, log).log, |log|, key)
    ensures LastIndex(GetTrace(env, key, log).trace, key) == Some(env.Methods(key) - 1)
  {
    TraceFacts(env, key, log);
    TriedThere(env, key, log, GetTrace(env, key, log).log, GetTrace(env, key, log).trace);
  }

  lemma TriedThere(env: Env, key: string, before: seq<Event>, log: seq<Event>, trace: seq<Entry>)
    requires Tried(env, log, |before|, key) && InOrder(env, trace) && trace == Replay(log, |before|)
    ensures LastIndex(trace, key) == Some(env.Methods(key) - 1)
  {
    var j :| |before| <= j < |log| && CalledLast(env, log[j], key);
    var k := ReplayHas(log, |before|, j);
    LastIsLargest(env, trace, key, k);
  }

  /** The run ended with what a method or the check of the asked-for key said, and that is no reason to stop. */
  predicate RanOut(o: Out, key: string) {
    IsNext(o.Err()) || (o.log != [] && o.log[|o.log| - 1] == Checked(key, false))
  }

  /** It then gave up only because all methods of that key had been tried. */
  lemma AllMethodsTried(env: Env, key: string, log: seq<Event>)
    requires RanOut(GetTrace(env, key, log), key) && env.Registered(key)
    ensures LastIndex(GetTrace(env, key, log).trace, key) == Some(env.Methods(key) - 1)
  {
    var o := GetTrace(env, key, log);
    HistoryExactly(env, key, log);
    if !IsNext(o.Err()) {
      assert CalledLast(env, o.log[|o.log| - 2], key);
      CheckBehindCall(env, key, log);
    }
    TriedIsLast(env, key, log);
  }

  lemma CheckBehindCall(env: Env, key: string, log: seq<Event>)
    requires var o := GetTrace(env, key, log);
      Told(env, key, 0, log, o) && o.log[|o.log| - 1] == Checked(key, false)
    ensures Tried(env, GetTrace(env, key, log).log, |log|, key)
  {
    var o := GetTrace(env, key, log);
    var n := |o.log| - 2;
    assert n + 1 != |log|;
    assert CalledLast(env, o.log[n], key);
  }

  // ----- A later method -----

  /** From here on methods i to m - 1 of key ask for the next one, and method m gives a value that the check accepts. */
  predicate WorksFrom(env: Env, key: string, i: nat, m: nat, log: seq<Event>)
    requires i <= m
    decreases m - i
  {
    var (miss, err) := env.method_(log, key, i);
    var log1 := log + [Called(key, i, miss, err)];
    miss == "" && if i == m then err.None? && env.check(log1, key) else IsNext(err) && WorksFrom(env, key, i + 1, m, log1)
  }

  /** From n on the trace has methods i, i + 1 and so on of key. */
  predicate Series(t: seq<Entry>, n: nat, key: string, i: nat) {
    forall k :: n <= k < |t| ==> t[k].key == key && t[k].i == i + (k - n)
  }

  lemma SeriesMore(t: seq<Entry>, trace: seq<Entry>, e: Entry)
    requires Extends(t, trace + [e]) && Series(t, |trace| + 1, e.key, e.i + 1)
    ensures Series(t, |trace|, e.key, e.i)
  {
    assert t[|trace|] == (trace + [e])[|trace|] == e;
  }

  lemma {:induction false} LoopWorks(env: Env, key: string, i: nat, m: nat, trace: seq<Entry>, log: seq<Event>, o: Out)
    requires env.Registered(key) && i <= m < env.count[key] && (key in Keys(trace) || i == 0)
    requires WorksFrom(env, key, i, m, log) && o == Loop(env, key, i, trace, log)
    ensures |o.trace| == |trace| + (m - i) + 1 && Series(o.trace, |trace|, key, i) && o.stray.None? && o.Err().None?
    decreases m - i
  {
    var (miss, err) := env.method_(log, key, i);
    var e, log1 := Entry(key, i, err), log + [Called(key, i, miss, err)];
    KeysAppend(trace, e);
    if i < m {
      LoopGoesOn(env, key, i, trace, log);
      LoopWorks(env, key, i + 1, m, trace + [e], log1, o);
      SeriesMore(o.trace, trace, e);
    }
  }

  /** Such a key is obtained in m + 1 calls, one of each method up to that one. */
  lemma LaterMethodWorks(env: Env, key: string, m: nat, log: seq<Event>)
    requires m < env.Methods(key) && WorksFrom(env, key, 0, m, log)
    ensures var o := GetTrace(env, key, log);
      |o.trace| == m + 1 && Series(o.trace, 0, key, 0) && o.stray.None? && o.Err().None?
  {
    LoopWorks(env, key, 0, m, [], log, GetTrace(env, key, log));
  }
}
