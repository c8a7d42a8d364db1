/** io.CacheWriter: which writes are accepted, which are refused as busy, and which meet the error of an earlier one. */
module CacheAccept {
  import opened Util
  import opened CacheWriter
  import opened CacheNumber

  // ----- Failed underlying writes -----

  /** The i-th step of the schedule is an underlying write that fails. */
  predicate FailsAt(s: State, schedule: seq<Action>, i: nat)
    requires Shape(s)
  {
    i < |schedule| && schedule[i].WorkerStep? && !schedule[i].ok &&
    var t := Run(s, schedule[..i]);
    t.Some? && schedule[i].w < |t.value.workers| && t.value.workers[schedule[i].w].Received?
  }

  ghost predicate SomeFails(s: State, schedule: seq<Action>)
    requires Shape(s)
  {
    exists i: nat :: FailsAt(s, schedule, i)
  }

  /** The context is done, or a goroutine is about to see that. */
  ghost predicate Doomed(s: State) { s.ctxDone || exists w :: 0 <= w < |s.workers| && FailedAt(s, w) }

  predicate FailedAt(s: State, w: nat)
    requires w < |s.workers|
  {
    s.workers[w].Written? && !s.workers[w].ok
  }

  predicate IsFailure(s: State, a: Action) {
    a.WorkerStep? && !a.ok && a.w < |s.workers| && s.workers[a.w].Received?
  }

  lemma DoomedStep(s: State, a: Action)
    requires Shape(s) && Step(s, a).Some?
    ensures Doomed(Step(s, a).value) <==> Doomed(s) || IsFailure(s, a)
  {
    var t := Step(s, a).value;
    if a.WorkerStep? {
      DoomedWorker(s, a.w, a.ok);
    } else {
      assert forall w :: 0 <= w < |s.workers| ==> t.workers[w] == s.workers[w];
      if w :| 0 <= w < |s.workers| && FailedAt(s, w) { assert FailedAt(t, w); }
      if w :| 0 <= w < |t.workers| && FailedAt(t, w) { assert w < |s.workers| && FailedAt(s, w); }
    }
  }

  lemma DoomedWorker(s: State, v: nat, ok: bool)
    requires Shape(s) && v < |s.workers| && StepWorker(s, v, ok).Some?
    ensures Doomed(StepWorker(s, v, ok).value) <==> Doomed(s) || IsFailure(s, WorkerStep(v, ok))
  {
    var t := StepWorker(s, v, ok).value;
    assert forall w :: 0 <= w < |s.workers| && w != v ==> t.workers[w] == s.workers[w];
    if w :| 0 <= w < |s.workers| && FailedAt(s, w) { assert w != v ==> FailedAt(t, w); }
    if w :| 0 <= w < |t.workers| && FailedAt(t, w) { assert w != v ==> FailedAt(s, w); }
    if IsFailure(s, WorkerStep(v, ok)) { assert FailedAt(t, v); }
    if FailedAt(s, v) { assert Doomed(s) && t.ctxDone; }
  }

  lemma FailsBefore(s: State, schedule: seq<Action>, n: nat, i: nat)
    requires Shape(s) && i < n <= |schedule|
    ensures FailsAt(s, schedule, i) <==> FailsAt(s, schedule[..n], i)
  {
    assert schedule[..n][..i] == schedule[..i];
  }

  lemma FailsLast(s: State, schedule: seq<Action>)
    requires Shape(s) && schedule != []
    ensures var n := |schedule| - 1; SomeFails(s, schedule) <==> SomeFails(s, schedule[..n]) || FailsAt(s, schedule, n)
  {
    var n := |schedule| - 1;
    if i: nat :| FailsAt(s, schedule, i) && i < n {
      FailsBefore(s, schedule, n, i);
    }
    if i: nat :| FailsAt(s, schedule[..n], i) {
      FailsBefore(s, schedule, n, i);
    }
  }

  lemma {:induction false} DoomedRun(s: State, schedule: seq<Action>)
    requires Shape(s) && Run(s, schedule).Some?
    ensures Doomed(Run(s, schedule).value) <==> Doomed(s) || SomeFails(s, schedule)
  {
    if schedule == [] {
      assert !SomeFails(s, schedule);
    } else {
      var n := |schedule| - 1;
      DoomedRun(s, schedule[..n]);
      FailsLast(s, schedule);
      DoomedStep(Run(s, schedule[..n]).value, schedule[n]);
    }
  }

  /** Once everything has returned, the context is done exactly if some underlying write has failed. */
  lemma DoneExactly(max: nat, schedule: seq<Action>)
    requires max >= 1 && Run(Init(max), schedule).Some? && Quiescent(Run(Init(max), schedule).value)
    ensures Run(Init(max), schedule).value.ctxDone <==> SomeFails(Init(max), schedule)
  {
    DoomedRun(Init(max), schedule);
  }

  ghost predicate SomeCancelled(s: State) { exists k :: 0 <= k < |s.calls| && s.calls[k].phase.Cancelled? }

  lemma CancelledStep(s: State, a: Action)
    requires Shape(s) && Step(s, a).Some? && SomeCancelled(Step(s, a).value)
    ensures SomeCancelled(s) || Step(s, a).value.ctxDone
  {
    var t := Step(s, a).value;
    var k :| 0 <= k < |t.calls| && t.calls[k].phase.Cancelled?;
    assert k < |s.calls| && (s.calls[k].phase.Cancelled? || t.ctxDone);
  }

  lemma {:induction false} CancelledDone(s: State, schedule: seq<Action>)
    requires Shape(s) && Run(s, schedule).Some? && SomeCancelled(Run(s, schedule).value) && !SomeCancelled(s)
    ensures Run(s, schedule).value.ctxDone
  {
    if schedule != [] {
      var n := |schedule| - 1;
      var t := Run(s, schedule[..n]).value;
      CancelledStep(t, schedule[n]);
      if SomeCancelled(t) {
        CancelledDone(s, schedule[..n]);
        assert Step(t, schedule[n]).value.ctxDone;
      }
    }
  }

  /** While no underlying write fails, no call meets the context error. */
  lemma NeverCancelled(max: nat, schedule: seq<Action>)
    requires max >= 1 && Run(Init(max), schedule).Some? && !SomeFails(Init(max), schedule)
    ensures !Run(Init(max), schedule).value.ctxDone && !SomeCancelled(Run(Init(max), schedule).value)
  {
    DoomedRun(Init(max), schedule);
    if SomeCancelled(Run(Init(max), schedule).value) { CancelledDone(Init(max), schedule); }
  }

  predicate Late(s: State, k: nat) {
    s.ctxDone && k < |s.calls| && (s.calls[k].phase.Entered? || s.calls[k].phase.Cancelled?)
  }

  lemma LateStep(s: State, a: Action, k: nat)
    requires Shape(s) && Late(s, k) && Step(s, a).Some?
    ensures Late(Step(s, a).value, k)
  {
  }

  lemma {:induction false} LateRun(s: State, schedule: seq<Action>, k: nat)
    requires Shape(s) && Late(s, k) && Run(s, schedule).Some?
    ensures Late(Run(s, schedule).value, k)
  {
    if schedule != [] {
      var n := |schedule| - 1;
      LateRun(s, schedule[..n], k);
      LateStep(Run(s, schedule[..n]).value, schedule[n], k);
    }
  }

  lemma RunFirst(s: State, a: Action, schedule: seq<Action>, t: State)
    requires Shape(s) && Step(s, a) == Some(t) && Shape(t)
    ensures Run(s, [a] + schedule) == Run(t, schedule)
  {
    assert [a][..0] == [];
    assert Run(s, []) == Some(s);
    assert Run(s, [a]) == Some(t);
    RunJoin(s, [a], t, schedule);
  }

  /** Once a failed write has been checked, a call that begins later is never sent, and ends with the context error. */
  lemma LaterCancelled(s: State, max: nat, b: Bytes, schedule: seq<Action>, t: State)
    requires Reachable(s, max) && s.ctxDone && Shape(s) && Run(s, [Begin(b)] + schedule) == Some(t)
    ensures var k := |s.calls|; k < |t.calls| && k !in t.sent && (t.calls[k].phase.Entered? || t.calls[k].phase.Cancelled?)
  {
    var s1 := Step(s, Begin(b)).value;
    ReachableStep(s, max, Begin(b), s1);
    ReachableInv(s1, max);
    RunFirst(s, Begin(b), schedule, s1);
    LateRun(s1, schedule, |s.calls|);
    InvRun(s1, schedule);
  }

  // ----- Numbers taken -----

  const NotCounted: Call -> bool := (x: Call) => x.phase.Entered? || x.phase.Checked? || x.phase.Cancelled?
  const IsBegin: Action -> bool := (a: Action) => a.Begin?

  /** What a step has to do with a burst of calls begun after s, of which d have taken a number. */
  ghost predicate Burst(s: State, t: State, d: nat) {
    && Shape(s) && Shape(t) && |t.slots| == |s.slots|
    && |s.calls| <= |t.calls| && t.calls[..|s.calls|] == s.calls
    && t.c == Counter(s.c, d)
    && Count(t.calls, NotCounted) + d == |t.calls| - |s.calls| + Count(s.calls, NotCounted)
    && Claimed(s, t, d)
  }

  ghost predicate Claimed(s: State, t: State, d: nat)
    requires |s.slots| > 0
  {
    var max := |s.slots|;
    && (forall i :: 0 <= i < |t.slots| && t.slots[i].busy ==> Handed(s.c, d, max, i))
    && (forall k :: 0 <= k < |t.calls| ==> Wants(s, t, d, k))
    && (forall k, l :: 0 <= k < l < |t.calls| && t.calls[k].phase.Numbered? && t.calls[l].phase.Numbered? ==>
          t.calls[k].phase.i != t.calls[l].phase.i)
  }

  /** A call that has its number will find its slot free; no new call has been refused as busy. */
  ghost predicate Wants(s: State, t: State, d: nat, k: nat)
    requires k < |t.calls| && |s.slots| > 0
  {
    match t.calls[k].phase
    case Numbered(i) => Handed(s.c, d, |s.slots|, i) && i < |t.slots| && !t.slots[i].busy
    case Busy => k < |s.calls|
    case _ => true
  }

  predicate Closed(s: State) { forall k :: 0 <= k < |s.calls| ==> !CallOpen(s.calls[k].phase) }

  /** No slot becomes busy, no call takes a number and none is refused. */
  ghost predicate Calm(t: State, t': State) {
    && |t'.slots| == |t.slots| && |t'.calls| >= |t.calls|
    && (forall i :: 0 <= i < |t.slots| && t'.slots[i].busy ==> t.slots[i].busy)
    && (forall k :: 0 <= k < |t'.calls| && (t'.calls[k].phase.Numbered? || t'.calls[k].phase.Busy?) ==>
          k < |t.calls| && t'.calls[k] == t.calls[k])
  }

  lemma CalmKeeps(s: State, t: State, d: nat, t': State)
    requires |s.slots| > 0 && Claimed(s, t, d) && Calm(t, t')
    ensures Claimed(s, t', d)
  {
    forall k | 0 <= k < |t'.calls|
      ensures Wants(s, t', d, k)
    {
      if k < |t.calls| { assert Wants(s, t, d, k); }
    }
  }

  predicate TakesSlot(t: State, a: Action) {
    a.CallStep? && a.k < |t.calls| && (t.calls[a.k].phase.Numbered? || t.calls[a.k].phase.Checked?)
  }

  /** The step takes a number. */
  predicate Counts(t: State, a: Action) { a.CallStep? && a.k < |t.calls| && t.calls[a.k].phase.Checked? }

  lemma CalmStep(t: State, a: Action)
    requires Shape(t) && Step(t, a).Some? && !TakesSlot(t, a)
    ensures Calm(t, Step(t, a).value)
  {
    match a
    case Begin(b) =>
    case CallStep(k) => CalmCall(t, k);
    case WorkerStep(w, ok) => CalmWorker(t, w, ok);
  }

  lemma CalmCall(t: State, k: nat)
    requires Shape(t) && k < |t.calls| && StepCall(t, k).Some? && !TakesSlot(t, CallStep(k))
    ensures Calm(t, StepCall(t, k).value)
  {
  }

  lemma CalmWorker(t: State, w: nat, ok: bool)
    requires Shape(t) && w < |t.workers| && StepWorker(t, w, ok).Some?
    ensures Calm(t, StepWorker(t, w, ok).value)
  {
  }

  /** Every call begun is not counted until it takes its number. */
  lemma NotCountedStep(t: State, a: Action)
    requires Shape(t) && Step(t, a).Some?
    ensures var t' := Step(t, a).value;
      && |t'.calls| == |t.calls| + (if a.Begin? then 1 else 0)
      && Count(t'.calls, NotCounted)
         == Count(t.calls, NotCounted) + (if a.Begin? then 1 else 0)
            - (if Counts(t, a) then 1 else 0)
  {
    match a
    case Begin(b) => CountAppend(t.calls, Call(b, Entered), NotCounted);
    case CallStep(k) =>
      CallChanges(t, k);
      CountUpdate(t.calls, k, Step(t, a).value.calls[k], NotCounted);
    case WorkerStep(w, ok) => assert Step(t, a).value.calls == t.calls;
  }

  lemma OldStay(s: State, t: State, a: Action)
    requires Closed(s) && Shape(t) && Step(t, a).Some? && |s.calls| <= |t.calls| && t.calls[..|s.calls|] == s.calls
    ensures var t' := Step(t, a).value;
      |s.calls| <= |t'.calls| && t'.calls[..|s.calls|] == s.calls && |t'.slots| == |t.slots| &&
      t'.c == if Counts(t, a) then Counter(t.c, 1) else t.c
  {
    assert forall k :: 0 <= k < |s.calls| ==> t.calls[k] == s.calls[k];
  }

  lemma NumberKeeps(s: State, t: State, d: nat, k: nat, t': State, i: nat)
    requires |s.slots| > 0 && Claimed(s, t, d) && k < |t.calls| && t.calls[k].phase.Checked?
    requires t'.slots == t.slots && t'.calls == t.calls[k := t.calls[k].(phase := Numbered(i))]
    requires i < |t.slots| && Handed(s.c, d + 1, |s.slots|, i) && !Handed(s.c, d, |s.slots|, i)
    requires forall i :: Handed(s.c, d, |s.slots|, i) ==> Handed(s.c, d + 1, |s.slots|, i)
    ensures Claimed(s, t', d + 1)
  {
    forall l | 0 <= l < |t.calls|
      ensures Wants(s, t', d + 1, l) && (t.calls[l].phase.Numbered? ==> t.calls[l].phase.i != i)
    {
      assert Wants(s, t, d, l);
    }
  }

  /** What taking a number does. */
  lemma NumberIs(s: State, t: State, d: nat, k: nat)
    requires Shape(s) && Shape(t) && |t.slots| == |s.slots| && t.c == Counter(s.c, d)
    requires k < |t.calls| && t.calls[k].phase.Checked?
    ensures var i := Index(s.c, d + 1, |s.slots|);
      StepCall(t, k) == Some(t.(c := Counter(s.c, d + 1), calls := t.calls[k := t.calls[k].(phase := Numbered(i))]))
  {
    OneFurther(s.c, d);
  }

  lemma NumberStep(s: State, t: State, d: nat, k: nat, n: nat, t': State)
    requires Burst(s, t, d) && d < n && Spread(s.c, n, |s.slots|) && k < |t.calls| && t.calls[k].phase.Checked?
    requires StepCall(t, k) == Some(t')
    ensures Claimed(s, t', d + 1) && t'.c == Counter(s.c, d + 1)
  {
    NumberIs(s, t, d, k);
    NextIsFresh(s.c, d, n, |s.slots|);
    NumberKeeps(s, t, d, k, t', Index(s.c, d + 1, |s.slots|));
  }

  lemma SwapKeeps(s: State, t: State, d: nat, k: nat)
    requires Burst(s, t, d) && k < |t.calls| && t.calls[k].phase.Numbered?
    ensures Claimed(s, StepCall(t, k).value, d)
  {
    var t' := StepCall(t, k).value;
    assert Wants(s, t, d, k);
    forall l | 0 <= l < |t'.calls|
      ensures Wants(s, t', d, l)
    {
      assert Wants(s, t, d, l);
    }
  }

  lemma {:induction false} CountPrefix<T>(a: seq<T>, n: nat, p: T -> bool)
    requires n <= |a|
    ensures Count(a[..n], p) <= Count(a, p)
  {
    if n < |a| {
      CountPrefix(a[..|a| - 1], n, p);
      assert a[..|a| - 1][..n] == a[..n];
    } else {
      assert a[..n] == a;
    }
  }

  lemma NumbersLeft(s: State, t: State, d: nat, k: nat, n: nat)
    requires Burst(s, t, d) && Closed(s) && |t.calls| - |s.calls| <= n && k < |t.calls| && t.calls[k].phase.Checked?
    ensures d < n
  {
    var t' := StepCall(t, k).value;
    OldStay(s, t, CallStep(k));
    NotCountedStep(t, CallStep(k));
    CountPrefix(t'.calls, |s.calls|, NotCounted);
  }

  lemma ClaimedStep(s: State, t: State, d: nat, a: Action, n: nat, t': State)
    requires Burst(s, t, d) && Closed(s) && Step(t, a) == Some(t')
    requires |t.calls| - |s.calls| <= n && Spread(s.c, n, |s.slots|)
    ensures Claimed(s, t', if Counts(t, a) then d + 1 else d)
  {
    if !TakesSlot(t, a) {
      CalmStep(t, a);
      CalmKeeps(s, t, d, t');
    } else if Counts(t, a) {
      NumbersLeft(s, t, d, a.k, n);
      NumberStep(s, t, d, a.k, n, t');
    } else {
      SwapKeeps(s, t, d, a.k);
    }
  }

  lemma BurstStep(s: State, t: State, d: nat, a: Action, n: nat, t': State) returns (d': nat)
    requires Burst(s, t, d) && Closed(s) && Step(t, a) == Some(t')
    requires |t.calls| - |s.calls| <= n && Spread(s.c, n, |s.slots|)
    ensures Burst(s, t', d')
  {
    ShapeKept(t, a);
    OldStay(s, t, a);
    NotCountedStep(t, a);
    ClaimedStep(s, t, d, a, n, t');
    if Counts(t, a) { NumberIs(s, t, d, a.k); }
    d' := if Counts(t, a) then d + 1 else d;
  }

  predicate Idle(s: State) {
    Shape(s) && Closed(s) && (forall i :: 0 <= i < |s.slots| ==> !s.slots[i].busy) && s.c < 0x1_0000_0000
  }

  lemma BurstBegins(s: State)
    requires Idle(s)
    ensures Burst(s, s, 0)
  {
    NotWrapped(s.c, 0);
    assert s.calls[..|s.calls|] == s.calls;
    forall k | 0 <= k < |s.calls|
      ensures Wants(s, s, 0, k)
    {
      assert !CallOpen(s.calls[k].phase);
    }
  }

  lemma {:induction false} CallsBegun(s: State, schedule: seq<Action>)
    requires Shape(s) && Run(s, schedule).Some?
    ensures |Run(s, schedule).value.calls| == |s.calls| + Count(schedule, IsBegin)
  {
    if schedule != [] {
      var n := |schedule| - 1;
      CallsBegun(s, schedule[..n]);
      NotCountedStep(Run(s, schedule[..n]).value, schedule[n]);
    }
  }

  lemma {:induction false} BurstRun(s: State, schedule: seq<Action>, n: nat, t': State) returns (d: nat)
    requires Idle(s) && Run(s, schedule) == Some(t') && Count(schedule, IsBegin) <= n && Spread(s.c, n, |s.slots|)
    ensures Burst(s, t', d)
  {
    if schedule == [] {
      BurstBegins(s);
      d := 0;
    } else {
      var m := |schedule| - 1;
      var t := Run(s, schedule[..m]).value;
      d := BurstRun(s, schedule[..m], n, t);
      CallsBegun(s, schedule[..m]);
      d := BurstStep(s, t, d, schedule[m], n, t');
    }
  }

  // ----- A burst of calls -----

  lemma QuiescentIdle(s: State, max: nat)
    requires Reachable(s, max) && Quiescent(s)
    ensures Idle(s) && |s.slots| == max
  {
    ReachableInv(s, max);
    Drained(s, max);
    SmallCounter(s, max);
  }

  lemma {:induction false} CounterBelow(s: State, schedule: seq<Action>)
    requires Shape(s) && s.c < 0x1_0000_0000 && Run(s, schedule).Some?
    ensures Run(s, schedule).value.c < 0x1_0000_0000
  {
    if schedule != [] { CounterBelow(s, schedule[..|schedule| - 1]); }
  }

  lemma SmallCounter(s: State, max: nat)
    requires Reachable(s, max)
    ensures s.c < 0x1_0000_0000
  {
    var schedule :| Run(Init(max), schedule) == Some(s);
    CounterBelow(Init(max), schedule);
  }

  lemma {:induction false} ReachableRun(s: State, max: nat, schedule: seq<Action>, t: State)
    requires Reachable(s, max) && Shape(s) && Run(s, schedule) == Some(t)
    ensures Reachable(t, max)
  {
    var before :| Run(Init(max), before) == Some(s);
    RunJoin(Init(max), before, s, schedule);
    assert Run(Init(max), before + schedule) == Some(t);
  }

  /** Some call after the first n has gone on to send. */
  ghost predicate SomeSent(t: State, n: nat) { exists k :: n <= k < |t.calls| && HasSent(t.calls[k].phase) }

  /** As long as no new call has sent, no goroutine is there, nothing fails and nothing is cancelled. */
  ghost predicate Untouched(t: State, n: nat) {
    && !t.ctxDone && (forall w :: 0 <= w < |t.workers| ==> t.workers[w].Gone?)
    && forall k :: n <= k < |t.calls| ==> !t.calls[k].phase.Cancelled?
  }

  lemma SentStays(t: State, a: Action, n: nat)
    requires Shape(t) && Step(t, a).Some? && SomeSent(t, n)
    ensures SomeSent(Step(t, a).value, n)
  {
    var k :| n <= k < |t.calls| && HasSent(t.calls[k].phase);
    assert HasSent(Step(t, a).value.calls[k].phase);
  }

  lemma UntouchedStep(t: State, a: Action, n: nat)
    requires Shape(t) && Step(t, a).Some? && Untouched(t, n) && !SomeSent(t, n)
    requires forall k :: 0 <= k < |t.calls| && k < n ==> !CallOpen(t.calls[k].phase)
    ensures Untouched(Step(t, a).value, n) || SomeSent(Step(t, a).value, n)
  {
    if a.CallStep? { assert a.k >= n; }
  }

  lemma {:induction false} UntouchedRun(s: State, schedule: seq<Action>, t': State)
    requires Shape(s) && Closed(s) && Untouched(s, |s.calls|) && Run(s, schedule) == Some(t')
    ensures |t'.calls| >= |s.calls| && t'.calls[..|s.calls|] == s.calls
    ensures Untouched(t', |s.calls|) || SomeSent(t', |s.calls|)
  {
    if schedule != [] {
      var m, n := |schedule| - 1, |s.calls|;
      var t := Run(s, schedule[..m]).value;
      UntouchedRun(s, schedule[..m], t);
      OldStay(s, t, schedule[m]);
      if SomeSent(t, n) {
        SentStays(t, schedule[m], n);
      } else {
        assert forall k :: 0 <= k < n ==> t.calls[k] == s.calls[k];
        UntouchedStep(t, schedule[m], n);
      }
    }
  }

  lemma {:induction false} RunGrows(s: State, schedule: seq<Action>, t': State)
    requires Shape(s) && Run(s, schedule) == Some(t')
    ensures s.sent <= t'.sent && s.sink <= t'.sink
  {
    if schedule != [] {
      var m := |schedule| - 1;
      var t := Run(s, schedule[..m]).value;
      RunGrows(s, schedule[..m], t);
      SendsGrow(t, schedule[m]);
    }
  }

  /** Nobody of the new calls was refused as busy. */
  predicate NoneBusy(s: State, t: State) {
    forall k :: |s.calls| <= k < |t.calls| ==> !t.calls[k].phase.Busy?
  }

  /**
   * After everything has returned, a burst of up to n calls that get different slots: none of them is ever refused as
   * busy, in whatever order they and the goroutines go on, and whatever fails.
   */
  lemma BurstNotBusy(s: State, max: nat, schedule: seq<Action>, t: State, n: nat)
    requires Reachable(s, max) && Quiescent(s) && Shape(s) && Run(s, schedule) == Some(t)
    requires Count(schedule, IsBegin) <= n && Spread(s.c, n, max)
    ensures NoneBusy(s, t)
  {
    QuiescentIdle(s, max);
    var d := BurstRun(s, schedule, n, t);
    forall k | |s.calls| <= k < |t.calls|
      ensures !t.calls[k].phase.Busy?
    {
      assert Wants(s, t, d, k);
    }
  }

  /** What was delivered after s are the new calls, each once and unchanged. */
  ghost predicate DeliversNew(s: State, t: State) {
    && s.sink <= t.sink && s.sent <= t.sent && |s.sink| == |s.sent| && |t.sink| == |t.sent|
    && (forall m :: |s.sent| <= m < |t.sent| ==> |s.calls| <= t.sent[m] < |t.calls| && t.sink[m] == t.calls[t.sent[m]].b)
    && (forall m, m' :: |s.sent| <= m < m' < |t.sent| ==> t.sent[m] != t.sent[m'])
    && (forall k :: |s.calls| <= k < |t.calls| && t.calls[k].phase.Accepted? ==>
          exists m :: |s.sent| <= m < |t.sent| && t.sent[m] == k)
  }

  lemma NewDelivered(s: State, max: nat, schedule: seq<Action>, t: State)
    requires Reachable(s, max) && Quiescent(s) && Shape(s) && Run(s, schedule) == Some(t) && Quiescent(t)
    requires |t.calls| >= |s.calls| && t.calls[..|s.calls|] == s.calls
    ensures DeliversNew(s, t)
  {
    ReachableRun(s, max, schedule, t);
    RunGrows(s, schedule, t);
    Drained(s, max);
    Drained(t, max);
    Delivery(t, max);
    forall m | |s.sent| <= m < |t.sent|
      ensures |s.calls| <= t.sent[m]
    {
      SentNew(s, t, m);
    }
    ReachableInv(s, max);
    assert forall m :: 0 <= m < |s.sent| ==> t.sent[m] == s.sent[m] < |s.calls|;
  }

  /** A call that was sent after s began after s. */
  lemma SentNew(s: State, t: State, m: nat)
    requires s.sent <= t.sent && |s.sent| <= m < |t.sent| && |t.calls| >= |s.calls| && t.calls[..|s.calls|] == s.calls
    requires t.sent[m] < |t.calls| && t.calls[t.sent[m]].phase.Accepted?
    requires forall k :: 0 <= k < |s.calls| ==> (s.calls[k].phase.Accepted? <==> k in s.sent)
    requires forall i, j :: 0 <= i < j < |t.sent| ==> t.sent[i] != t.sent[j]
    ensures t.sent[m] >= |s.calls|
  {
    assert forall k :: 0 <= k < |s.calls| ==> t.calls[k] == s.calls[k];
    assert forall i :: 0 <= i < |s.sent| ==> s.sent[i] == t.sent[i] != t.sent[m];
    assert t.sent[m] !in s.sent;
  }

  lemma NothingLeft(s: State, max: nat)
    requires Reachable(s, max) && Quiescent(s) && !s.ctxDone
    ensures Untouched(s, |s.calls|) && !Doomed(s) && !SomeCancelled(s) && Closed(s)
  {
    var schedule :| Run(Init(max), schedule) == Some(s);
    if SomeCancelled(s) { CancelledDone(Init(max), schedule); }
  }

  /**
   * Every call of such a burst is accepted if no underlying write fails, and at least one is whatever fails; what is then
   * delivered are the accepted ones.
   */
  lemma BurstAccepted(s: State, max: nat, schedule: seq<Action>, t: State, n: nat)
    requires Reachable(s, max) && Quiescent(s) && !s.ctxDone && Shape(s) && Run(s, schedule) == Some(t) && Quiescent(t)
    requires Count(schedule, IsBegin) <= n && Spread(s.c, n, max)
    ensures |t.calls| == |s.calls| + Count(schedule, IsBegin) && t.calls[..|s.calls|] == s.calls && DeliversNew(s, t)
    ensures !SomeFails(s, schedule) ==> forall k :: |s.calls| <= k < |t.calls| ==> t.calls[k].phase.Accepted?
    ensures |t.calls| > |s.calls| ==> exists k :: |s.calls| <= k < |t.calls| && t.calls[k].phase.Accepted?
  {
    NothingLeft(s, max);
    CallsBegun(s, schedule);
    UntouchedRun(s, schedule, t);
    NewDelivered(s, max, schedule, t);
    BurstNotBusy(s, max, schedule, t, n);
    DoomedRun(s, schedule);
    if SomeCancelled(t) { CancelledDone(s, schedule); }
    if |t.calls| > |s.calls| && Untouched(t, |s.calls|) { assert t.calls[|s.calls|].phase.Accepted?; }
  }

  /** One call while nothing else goes on: no schedule makes it busy or cancelled; in the end its bytes are delivered. */
  lemma WriteAccepted(s: State, max: nat, b: Bytes, schedule: seq<Action>, t: State)
    requires Reachable(s, max) && Quiescent(s) && !s.ctxDone && Shape(s)
    requires NoBegin(schedule) && Run(s, [Begin(b)] + schedule) == Some(t)
    ensures var k := |s.calls|; |t.calls| == k + 1 && !t.calls[k].phase.Busy? && !t.calls[k].phase.Cancelled?
    ensures Quiescent(t) ==>
              t.calls[|s.calls|].phase.Accepted? && t.sink == s.sink + [b] && t.c == Counter(s.c, 1)
  {
    var all := [Begin(b)] + schedule;
    QuiescentIdle(s, max);
    OneBegin(b, schedule);
    OneNotRefused(s, max, all, t);
    if Quiescent(t) {
      PayloadStays(s, Begin(b), schedule, t, |s.calls|);
      OneInTheEnd(s, max, all, t, b);
    }
  }

  lemma OneNotRefused(s: State, max: nat, all: seq<Action>, t: State)
    requires Reachable(s, max) && Quiescent(s) && !s.ctxDone && Shape(s) && max == |s.slots|
    requires Run(s, all) == Some(t) && Count(all, IsBegin) == 1
    ensures var k := |s.calls|; |t.calls| == k + 1 && !t.calls[k].phase.Busy? && !t.calls[k].phase.Cancelled?
  {
    NothingLeft(s, max);
    CallsBegun(s, all);
    UntouchedRun(s, all, t);
    SpreadOne(s.c, max);
    BurstNotBusy(s, max, all, t, 1);
    OneNotCancelled(t, |s.calls|);
  }

  lemma SpreadOne(c: nat, max: nat)
    requires max > 0
    ensures Spread(c, 1, max)
  {
  }

  lemma OneNotCancelled(t: State, n: nat)
    requires |t.calls| == n + 1 && (Untouched(t, n) || SomeSent(t, n))
    ensures !t.calls[n].phase.Cancelled?
  {
  }

  lemma OneInTheEnd(s: State, max: nat, all: seq<Action>, t: State, b: Bytes)
    requires Reachable(s, max) && Quiescent(s) && !s.ctxDone && Idle(s) && max == |s.slots|
    requires Run(s, all) == Some(t) && Count(all, IsBegin) == 1 && Quiescent(t)
    requires |t.calls| == |s.calls| + 1 && t.calls[|s.calls|].b == b
    ensures t.calls[|s.calls|].phase.Accepted? && t.sink == s.sink + [b] && t.c == Counter(s.c, 1)
  {
    SpreadOne(s.c, max);
    BurstAccepted(s, max, all, t, 1);
    OneDelivered(s, t, b);
    OneCounted(s, all, t);
  }

  lemma OneCounted(s: State, all: seq<Action>, t: State)
    requires Idle(s) && Run(s, all) == Some(t) && Count(all, IsBegin) == 1
    requires |t.calls| == |s.calls| + 1 && t.calls[|s.calls|].phase.Accepted?
    ensures t.c == Counter(s.c, 1)
  {
    SpreadOne(s.c, |s.slots|);
    var d := BurstRun(s, all, 1, t);
    OneNumber(s, t, d);
  }

  lemma OneNumber(s: State, t: State, d: nat)
    requires Burst(s, t, d) && |t.calls| == |s.calls| + 1 && t.calls[|s.calls|].phase.Accepted?
    ensures t.c == Counter(s.c, 1)
  {
    assert t.calls == s.calls + [t.calls[|s.calls|]];
    CountAppend(s.calls, t.calls[|s.calls|], NotCounted);
  }

  lemma OneDelivered(s: State, t: State, b: Bytes)
    requires DeliversNew(s, t) && |t.calls| == |s.calls| + 1 && t.calls[|s.calls|].phase.Accepted? && t.calls[|s.calls|].b == b
    ensures t.sink == s.sink + [b]
  {
    var n := |s.sent|;
    forall m | n <= m < |t.sent|
      ensures t.sent[m] == |s.calls| && m == n
    {
      assert t.sent[n] == t.sent[m];
    }
    var m :| n <= m < |t.sent| && t.sent[m] == |s.calls|;
    assert t.sent[|t.sent| - 1] == |s.calls|;
    assert t.sink[m] == b && |t.sink| == |s.sink| + 1;
  }

  lemma {:induction false} OneBegin(b: Bytes, schedule: seq<Action>)
    requires NoBegin(schedule)
    ensures Count([Begin(b)] + schedule, IsBegin) == 1
  {
    if schedule == [] {
      CountAppend([], Begin(b), IsBegin);
      assert [] + [Begin(b)] == [Begin(b)] + schedule;
    } else {
      var n := |schedule| - 1;
      OneBegin(b, schedule[..n]);
      CountAppend([Begin(b)] + schedule[..n], schedule[n], IsBegin);
      assert [Begin(b)] + schedule[..n] + [schedule[n]] == [Begin(b)] + schedule;
    }
  }

  lemma {:induction false} PayloadKept(s: State, schedule: seq<Action>, t': State, k: nat)
    requires Shape(s) && Run(s, schedule) == Some(t') && k < |s.calls|
    ensures k < |t'.calls| && t'.calls[k].b == s.calls[k].b
  {
    if schedule != [] {
      var m := |schedule| - 1;
      var t := Run(s, schedule[..m]).value;
      PayloadKept(s, schedule[..m], t, k);
      PayloadStep(t, schedule[m], k);
    }
  }

  lemma PayloadStep(t: State, a: Action, k: nat)
    requires Shape(t) && Step(t, a).Some? && k < |t.calls|
    ensures k < |Step(t, a).value.calls| && Step(t, a).value.calls[k].b == t.calls[k].b
  {
    match a
    case Begin(b) =>
    case CallStep(l) => PayloadCall(t, l, k);
    case WorkerStep(w, ok) =>
  }

  lemma PayloadCall(t: State, l: nat, k: nat)
    requires Shape(t) && l < |t.calls| && k < |t.calls| && StepCall(t, l).Some?
    ensures var t' := StepCall(t, l).value; k < |t'.calls| && t'.calls[k].b == t.calls[k].b
  {
  }

  lemma PayloadStays(s: State, a: Action, schedule: seq<Action>, t: State, k: nat)
    requires Shape(s) && a.Begin? && k == |s.calls| && Run(s, [a] + schedule) == Some(t)
    ensures k < |t.calls| && t.calls[k].b == a.b
  {
    var s1 := Step(s, a).value;
    ShapeKept(s, a);
    RunFirst(s, a, schedule, s1);
    PayloadKept(s1, schedule, t, k);
  }

  /** And there is such a schedule: the call's own steps and those of its goroutine. */
  lemma WriteGetsThrough(s: State, max: nat, b: Bytes) returns (schedule: seq<Action>, t: State)
    requires Reachable(s, max) && Quiescent(s) && !s.ctxDone
    ensures Shape(s) && NoBegin(schedule) && AllOk(schedule) && Run(s, [Begin(b)] + schedule) == Some(t)
    ensures Reachable(t, max) && Quiescent(t) && !t.ctxDone
    ensures |t.calls| == |s.calls| + 1 && t.calls[|s.calls|].phase.Accepted? && t.calls[..|s.calls|] == s.calls
    ensures t.sink == s.sink + [b] && t.c == Counter(s.c, 1)
  {
    ReachableInv(s, max);
    NothingLeft(s, max);
    var s1 := Step(s, Begin(b)).value;
    ReachableStep(s, max, Begin(b), s1);
    ReachableInv(s1, max);
    schedule, t := Settles(s1, max);
    RunFirst(s, Begin(b), schedule, s1);
    WriteAccepted(s, max, b, schedule, t);
    UntouchedRun(s, [Begin(b)] + schedule, t);
    DoomedRun(s, [Begin(b)] + schedule);
    assert forall i: nat :: !FailsAt(s, [Begin(b)] + schedule, i);
  }

  // ----- Exactly which bursts are accepted -----

  /** A call that has its slot, or has been refused. */
  function AfterSwap(t: State, b: Bytes, c: nat, i: nat): State
    requires Shape(t) && i < |t.slots|
  {
    if t.slots[i].busy then t.(c := c, calls := t.calls + [Call(b, Busy)])
    else
      t.(c := c, calls := t.calls + [Call(b, Owned(i))], slots := t.slots[i := t.slots[i].(busy := true)],
         owners := t.owners[i := ByCall(|t.calls|)])
  }

  function Joined(t: State, b: Bytes, c: nat, p: CallPhase): State { t.(c := c, calls := t.calls + [Call(b, p)]) }

  lemma JoinedMoves(t: State, b: Bytes, c: nat, p: CallPhase, p': CallPhase)
    ensures Joined(t, b, c, p).calls[|t.calls| := Call(b, p')] == Joined(t, b, c, p').calls
  {
  }

  lemma SwapOf(t: State, b: Bytes, c: nat, i: nat)
    requires Shape(t) && i < |t.slots| && Shape(Joined(t, b, c, Numbered(i)))
    ensures Step(Joined(t, b, c, Numbered(i)), CallStep(|t.calls|)) == Some(AfterSwap(t, b, c, i))
  {
    JoinedMoves(t, b, c, Numbered(i), Owned(i));
    JoinedMoves(t, b, c, Numbered(i), Busy);
  }

  /** One more call, up to where it has its slot or is refused; nothing else moves. */
  lemma CallOnce(t: State, b: Bytes) returns (steps: seq<Action>)
    requires Shape(t) && !t.ctxDone
    ensures |steps| == 4 && steps[0] == Begin(b) && forall i :: 1 <= i < 4 ==> steps[i] == CallStep(|t.calls|)
    ensures var c := Counter(t.c, 1); Run(t, steps) == Some(AfterSwap(t, b, c, c % |t.slots|))
  {
    var k, c := |t.calls|, Counter(t.c, 1);
    var i := c % |t.slots|;
    steps := [Begin(b), CallStep(k), CallStep(k), CallStep(k)];
    JoinedMoves(t, b, t.c, Entered, Checked);
    JoinedMoves(t, b, c, Checked, Numbered(i));
    SwapOf(t, b, c, i);
    RunFour(t, steps, Joined(t, b, t.c, Entered), Joined(t, b, t.c, Checked), Joined(t, b, c, Numbered(i)), AfterSwap(t, b, c, i));
  }

  lemma RunFour(t: State, steps: seq<Action>, t1: State, t2: State, t3: State, t4: State)
    requires Shape(t) && |steps| == 4 && Step(t, steps[0]) == Some(t1) && Shape(t1) && Step(t1, steps[1]) == Some(t2)
    requires Shape(t2) && Step(t2, steps[2]) == Some(t3) && Shape(t3) && Step(t3, steps[3]) == Some(t4)
    ensures Run(t, steps) == Some(t4)
  {
    assert steps[..0] == [] && steps[..2][..1] == steps[..1] && steps[..3][..2] == steps[..2];
    assert Run(t, steps[..0]) == Some(t);
    assert Run(t, steps[..1]) == Some(t1) by { assert steps[..1][..0] == []; }
    assert Run(t, steps[..2]) == Some(t2);
    assert Run(t, steps[..3]) == Some(t3);
  }

  lemma FourBegin(steps: seq<Action>, b: Bytes, k: nat)
    requires |steps| == 4 && steps[0] == Begin(b) && forall i :: 1 <= i < 4 ==> steps[i] == CallStep(k)
    ensures Count(steps, IsBegin) == 1
  {
    assert steps == [Begin(b)] + [CallStep(k), CallStep(k), CallStep(k)];
    OneBegin(b, [CallStep(k), CallStep(k), CallStep(k)]);
  }

  lemma {:induction false} CountJoin<T>(a: seq<T>, b: seq<T>, p: T -> bool)
    ensures Count(a + b, p) == Count(a, p) + Count(b, p)
  {
    if b == [] {
      assert a + b == a;
    } else {
      var n := |b| - 1;
      CountJoin(a, b[..n], p);
      assert (a + b)[..|a + b| - 1] == a + b[..n];
    }
  }

  /** After n calls, one after the other, n have taken numbers and all their slots are in use. */
  ghost predicate Crowded(s: State, t: State, n: nat) {
    && Shape(s) && Shape(t) && !t.ctxDone && |t.slots| == |s.slots| && t.c == Counter(s.c, n)
    && |t.calls| == |s.calls| + n && forall j :: 1 <= j <= n ==> SlotBusy(s, t, j)
  }

  predicate SlotBusy(s: State, t: State, j: nat)
    requires Shape(s)
  {
    var i := Index(s.c, j, |s.slots|); i < |t.slots| && t.slots[i].busy
  }

  lemma {:induction false} Crowd(s: State, n: nat) returns (schedule: seq<Action>, t: State)
    requires Idle(s) && !s.ctxDone
    ensures Run(s, schedule) == Some(t) && Count(schedule, IsBegin) == n && Crowded(s, t, n)
    ensures n > 0 && Handed(s.c, n - 1, |s.slots|, Index(s.c, n, |s.slots|)) ==> t.calls[|t.calls| - 1].phase.Busy?
  {
    schedule, t := [], s;
    if n > 0 {
      var a, t0 := Crowd(s, n - 1);
      var c := NumberAfter(s.c, n, t0.c);
      schedule, t := CrowdNext(s, a, t0, c);
      CrowdMore(s, t0, n, c, t);
    } else {
      CrowdBegins(s, n);
    }
  }

  lemma CrowdBegins(s: State, n: nat)
    requires Idle(s) && !s.ctxDone && n == 0
    ensures Crowded(s, s, n)
  {
    NotWrapped(s.c, 0);
  }

  lemma NumberAfter(c0: nat, n: nat, before: nat) returns (c: nat)
    requires n > 0 && before == Counter(c0, n - 1)
    ensures c == Counter(c0, n) == Counter(before, 1)
  {
    OneFurther(c0, n - 1);
    c := Counter(c0, n);
  }

  lemma CrowdNext(s: State, a: seq<Action>, t0: State, c: nat) returns (schedule: seq<Action>, t: State)
    requires Shape(s) && Shape(t0) && !t0.ctxDone && Run(s, a) == Some(t0) && c == Counter(t0.c, 1)
    ensures Run(s, schedule) == Some(t) && Count(schedule, IsBegin) == Count(a, IsBegin) + 1
    ensures Shape(t) && t == AfterSwap(t0, [], c, c % |t0.slots|)
  {
    var steps := CallOnce(t0, []);
    t := Run(t0, steps).value;
    FourBegin(steps, [], |t0.calls|);
    RunJoin(s, a, t0, steps);
    CountJoin(a, steps, IsBegin);
    schedule := a + steps;
  }

  lemma CrowdMore(s: State, t0: State, n: nat, c: nat, t: State)
    requires n > 0 && Crowded(s, t0, n - 1) && Shape(t)
    requires c == Counter(s.c, n) && t == AfterSwap(t0, [], c, c % |t0.slots|)
    ensures Crowded(s, t, n)
    ensures Handed(s.c, n - 1, |s.slots|, Index(s.c, n, |s.slots|)) ==> t.calls[|t.calls| - 1].phase.Busy?
  {
    forall j | 1 <= j <= n
      ensures SlotBusy(s, t, j)
    {
      assert j < n ==> SlotBusy(s, t0, j);
    }
    if j :| 1 <= j <= n - 1 && Index(s.c, j, |s.slots|) == Index(s.c, n, |s.slots|) { assert SlotBusy(s, t0, j); }
  }

  /** A schedule with at most n calls after which one of them has been refused as busy. */
  ghost predicate SomeBusy(s: State, n: nat, schedule: seq<Action>)
    requires Shape(s)
  {
    Run(s, schedule).Some? && Count(schedule, IsBegin) <= n && !NoneBusy(s, Run(s, schedule).value)
  }

  /** After everything has returned: some of up to n calls can be refused as busy exactly when two of them get one slot. */
  lemma BusyBurstExactly(s: State, max: nat, n: nat)
    requires Reachable(s, max) && Quiescent(s) && !s.ctxDone
    ensures Shape(s) && max > 0 && ((exists schedule :: SomeBusy(s, n, schedule)) <==> !Spread(s.c, n, max))
  {
    QuiescentIdle(s, max);
    if schedule :| SomeBusy(s, n, schedule) && Spread(s.c, n, max) {
      BurstNotBusy(s, max, schedule, Run(s, schedule).value, n);
    }
    if !Spread(s.c, n, max) {
      var i, j :| 1 <= i < j <= n && Index(s.c, i, max) == Index(s.c, j, max);
      var schedule, t := Crowd(s, j);
      assert Handed(s.c, j - 1, max, Index(s.c, j, max));
      assert t.calls[|t.calls| - 1].phase.Busy?;
      assert SomeBusy(s, n, schedule);
    }
  }

  /** Everything has returned, and no underlying write has failed. */
  ghost predicate Rested(s: State, max: nat) { Reachable(s, max) && Quiescent(s) && !s.ctxDone }

  lemma InitRested(max: nat)
    requires max >= 1
    ensures Rested(Init(max), max) && Init(max).c == 0
  {
    assert Run(Init(max), []) == Some(Init(max));
  }

  /** Every value of the counter is reached with everything returned and nothing failed. */
  lemma {:induction false} CounterReached(max: nat, n: nat) returns (s: State)
    requires max >= 1 && n < 0x1_0000_0000
    ensures Rested(s, max) && s.c == n
  {
    if n == 0 {
      InitRested(max);
      s := Init(max);
    } else {
      var s0 := CounterReached(max, n - 1);
      s := CounterNext(s0, max);
    }
  }

  lemma CounterNext(s0: State, max: nat) returns (s: State)
    requires Rested(s0, max) && s0.c + 1 < 0x1_0000_0000
    ensures Rested(s, max) && s.c == s0.c + 1
  {
    var schedule;
    schedule, s := WriteGetsThrough(s0, max, []);
    NotWrapped(s0.c, 1);
  }

  /** With three slots two calls in a row get the same one when the counter wraps, and the second may be refused. */
  lemma WrapCollides(max: nat, c: nat) returns (s: State, schedule: seq<Action>)
    requires max == 3 && c == 0xFFFF_FFFE
    ensures Reachable(s, max) && Quiescent(s) && Shape(s) && s.c == c && SomeBusy(s, 2, schedule)
  {
    s := CounterReached(max, c);
    WrapExample(c, max);
    BusyBurstExactly(s, max, 2);
    schedule :| SomeBusy(s, 2, schedule);
  }
}
