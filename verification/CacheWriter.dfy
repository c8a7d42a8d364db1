/**
 * io.CacheWriter as a step machine: any number of Write calls and flushing goroutines interleave over
 * a ring of buffers with busy flags, an index channel and the mutex `rc`.
 */
module CacheWriter {
  import opened Util

  datatype Slot = Slot(buf: Bytes, busy: bool)

  /** Program counter of one call of Write(b). */
  datatype CallPhase =
    | Entered                    // before the check of ctx
    | Checked                    // before c.Add(1)
    | Numbered(i: nat)           // before the compare-and-swap of the busy flag
    | Owned(i: nat)              // before the copy into the buffer
    | Filled(i: nat)             // before the send on cc
    | Sent                       // before the go statement
    | Spawned                    // before the return
    | Accepted                   // returned len(b)
    | Cancelled                  // returned 0 and the context error
    | Busy                       // returned ErrCacheWriterBusy
  datatype Call = Call(b: Bytes, phase: CallPhase)

  /** Program counter of one flushing goroutine. */
  datatype FlushPhase =
    | Ready                      // before rc.Lock
    | Locked                     // before the receive from cc
    | Received(i: nat)           // before the underlying Write
    | Written(i: nat, ok: bool)  // before the error check
    | ErrChecked(i: nat)           // before the deferred clearing of the busy flag
    | Released                   // before the deferred rc.Unlock
    | Gone

  /** Who may touch a ring slot. */
  datatype Owner = Free | ByCall(k: nat) | InQueue(n: nat) | ByWorker(w: nat, n: nat)

  datatype State = State(
    ctxDone: bool,
    c: nat,
    slots: seq<Slot>,
    cc: seq<nat>,
    rc: Option<nat>,
    calls: seq<Call>,
    workers: seq<FlushPhase>,
    owners: seq<Owner>, // history: the user of each slot; numbered by send
    sent: seq<nat>,     // history: calls in the order of their sends on cc
    sink: seq<Bytes>)   // history: the arguments the underlying writer was called with

  datatype Action =
    | Begin(b: Bytes)
    | CallStep(k: nat)
    | WorkerStep(w: nat, ok: bool)

  function Init(max: nat): State
    requires max >= 1
  {
    State(false, 0, seq(max, _ => Slot([], false)), [], None, [], [], seq(max, _ => Free), [], [])
  }

  function SetCall(s: State, k: nat, p: CallPhase): State
    requires k < |s.calls|
  {
    s.(calls := s.calls[k := s.calls[k].(phase := p)])
  }

  function SetWorker(s: State, w: nat, p: FlushPhase): State
    requires w < |s.workers|
  {
    s.(workers := s.workers[w := p])
  }

  function SetSlot(s: State, i: nat, slot: Slot, owner: Owner): State
    requires i < |s.slots| == |s.owners|
  {
    s.(slots := s.slots[i := slot], owners := s.owners[i := owner])
  }

  function CallIndex(p: CallPhase): nat { if p.Numbered? || p.Owned? || p.Filled? then p.i else 0 }
  function WorkerIndex(p: FlushPhase): nat { if p.Received? || p.Written? || p.ErrChecked? then p.i else 0 }

  /** Every index kept anywhere lies inside the ring. */
  predicate Shape(s: State) {
    && |s.slots| == |s.owners| >= 1
    && (forall k :: 0 <= k < |s.calls| ==> CallIndex(s.calls[k].phase) < |s.slots|)
    && (forall q :: 0 <= q < |s.cc| ==> s.cc[q] < |s.slots|)
    && (forall w :: 0 <= w < |s.workers| ==> WorkerIndex(s.workers[w]) < |s.slots|)
  }

  // The steps that touch a slot, the queue or the history; the others only move a program counter.

  predicate CanSwap(s: State, k: nat) {
    Shape(s) && k < |s.calls| && s.calls[k].phase.Numbered? && !s.slots[s.calls[k].phase.i].busy
  }
  function Swap(s: State, k: nat): State
    requires CanSwap(s, k)
  {
    var i := s.calls[k].phase.i;
    SetCall(SetSlot(s, i, s.slots[i].(busy := true), ByCall(k)), k, Owned(i))
  }

  predicate CanFill(s: State, k: nat) { Shape(s) && k < |s.calls| && s.calls[k].phase.Owned? }
  function Fill(s: State, k: nat): State
    requires CanFill(s, k)
  {
    var i := s.calls[k].phase.i;
    SetCall(SetSlot(s, i, s.slots[i].(buf := s.calls[k].b), s.owners[i]), k, Filled(i))
  }

  predicate CanSend(s: State, k: nat) {
    Shape(s) && k < |s.calls| && s.calls[k].phase.Filled? && |s.cc| < |s.slots|
  }
  function Send(s: State, k: nat): State
    requires CanSend(s, k)
  {
    var i := s.calls[k].phase.i;
    SetCall(SetSlot(s, i, s.slots[i], InQueue(|s.sent|)).(cc := s.cc + [i], sent := s.sent + [k]), k, Sent)
  }

  predicate CanReceive(s: State, w: nat) {
    Shape(s) && w < |s.workers| && s.workers[w].Locked? && s.cc != []
  }
  function Receive(s: State, w: nat): State
    requires CanReceive(s, w)
  {
    var i := s.cc[0];
    SetWorker(SetSlot(s, i, s.slots[i], ByWorker(w, |s.sink|)).(cc := s.cc[1..]), w, Received(i))
  }

  predicate CanPass(s: State, w: nat) { Shape(s) && w < |s.workers| && s.workers[w].Received? }
  function Pass(s: State, w: nat, ok: bool): State
    requires CanPass(s, w)
  {
    var i := s.workers[w].i;
    SetWorker(s.(sink := s.sink + [s.slots[i].buf]), w, Written(i, ok))
  }

  predicate CanClear(s: State, w: nat) { Shape(s) && w < |s.workers| && s.workers[w].ErrChecked? }
  function Clear(s: State, w: nat): State
    requires CanClear(s, w)
  {
    var i := s.workers[w].i;
    SetWorker(SetSlot(s, i, s.slots[i].(busy := false), Free), w, Released)
  }

  /** One atomic operation of call `k`; None when the goroutine is blocked or has returned. */
  function StepCall(s: State, k: nat): Option<State>
    requires Shape(s) && k < |s.calls|
  {
    match s.calls[k].phase
    case Entered => Some(SetCall(s, k, if s.ctxDone then Cancelled else Checked))
    case Checked =>
      var c := (s.c + 1) % 0x1_0000_0000;
      Some(SetCall(s.(c := c), k, Numbered(c % |s.slots|)))
    case Numbered(i) => if CanSwap(s, k) then Some(Swap(s, k)) else Some(SetCall(s, k, Busy))
    case Owned(i) => Some(Fill(s, k))
    case Filled(i) => if CanSend(s, k) then Some(Send(s, k)) else None
    case Sent => Some(SetCall(s.(workers := s.workers + [Ready]), k, Spawned))
    case Spawned => Some(SetCall(s, k, Accepted))
    case _ => None
  }

  /** One atomic operation of goroutine `w`; `ok` is the outcome of the underlying Write. */
  function StepWorker(s: State, w: nat, ok: bool): Option<State>
    requires Shape(s) && w < |s.workers|
  {
    match s.workers[w]
    case Ready => if s.rc == None then Some(SetWorker(s.(rc := Some(w)), w, Locked)) else None
    case Locked => if CanReceive(s, w) then Some(Receive(s, w)) else None
    case Received(i) => Some(Pass(s, w, ok))
    case Written(i, fine) => Some(SetWorker(s.(ctxDone := s.ctxDone || !fine), w, ErrChecked(i)))
    case ErrChecked(i) => Some(Clear(s, w))
    case Released => Some(SetWorker(s.(rc := None), w, Gone))
    case Gone => None
  }

  function Step(s: State, a: Action): Option<State>
    requires Shape(s)
  {
    match a
    case Begin(b) => Some(s.(calls := s.calls + [Call(b, Entered)]))
    case CallStep(k) => if k < |s.calls| then StepCall(s, k) else None
    case WorkerStep(w, ok) => if w < |s.workers| then StepWorker(s, w, ok) else None
  }

  lemma ShapeCall(s: State, k: nat)
    requires Shape(s) && k < |s.calls|
    ensures StepCall(s, k).Some? ==> Shape(StepCall(s, k).value)
  {
    match s.calls[k].phase
    case Numbered(i) =>
    case Owned(i) =>
    case Filled(i) =>
    case Sent =>
    case _ =>
  }

  lemma ShapeWorker(s: State, w: nat, ok: bool)
    requires Shape(s) && w < |s.workers|
    ensures StepWorker(s, w, ok).Some? ==> Shape(StepWorker(s, w, ok).value)
  {
    match s.workers[w]
    case Locked =>
    case ErrChecked(i) =>
    case _ =>
  }

  lemma ShapeKept(s: State, a: Action)
    requires Shape(s)
    ensures Step(s, a).Some? ==> Shape(Step(s, a).value)
  {
    match a
    case Begin(b) =>
    case CallStep(k) => if k < |s.calls| { ShapeCall(s, k); }
    case WorkerStep(w, ok) => if w < |s.workers| { ShapeWorker(s, w, ok); }
  }

  /** The state after a whole schedule, None when some scheduled step is not enabled. */
  function Run(s: State, schedule: seq<Action>): (r: Option<State>)
    requires Shape(s)
    ensures r.Some? ==> Shape(r.value)
  {
    if schedule == [] then Some(s)
    else
      match Run(s, schedule[..|schedule| - 1])
      case None => None
      case Some(t) => ShapeKept(t, schedule[|schedule| - 1]); Step(t, schedule[|schedule| - 1])
  }

  // ---------------------------------------------------------------- the invariant

  predicate HoldsMutex(p: FlushPhase) { !p.Ready? && !p.Gone? }
  predicate OwnsSlot(p: CallPhase) { p.Owned? || p.Filled? }
  predicate FlushesSlot(p: FlushPhase) { p.Received? || p.Written? || p.ErrChecked? }
  predicate HasSent(p: CallPhase) { p.Sent? || p.Spawned? || p.Accepted? }

  /** `owners` tells the truth: it names exactly the writer, queue position or flusher using a slot. */
  ghost predicate Ownership(s: State)
    requires Shape(s)
  {
    && |s.cc| <= |s.sent|
    && (forall i :: 0 <= i < |s.slots| ==> (s.slots[i].busy <==> s.owners[i] != Free))
    && (forall k :: 0 <= k < |s.calls| && OwnsSlot(s.calls[k].phase) ==> s.owners[s.calls[k].phase.i] == ByCall(k))
    && (forall q :: 0 <= q < |s.cc| ==> s.owners[s.cc[q]] == InQueue(|s.sent| - |s.cc| + q))
    && (forall w :: 0 <= w < |s.workers| && FlushesSlot(s.workers[w]) ==> NamedFlusher(s.owners[s.workers[w].i], w))
    && (forall i :: 0 <= i < |s.slots| ==> OwnerUses(s, i, s.owners[i]))
  }

  predicate NamedFlusher(o: Owner, w: nat) { o.ByWorker? && o.w == w }

  ghost predicate OwnerUses(s: State, i: nat, o: Owner) {
    match o
    case Free => true
    case ByCall(k) => k < |s.calls| && OwnsSlot(s.calls[k].phase) && s.calls[k].phase.i == i
    case InQueue(n) => |s.cc| <= |s.sent| && |s.sent| - |s.cc| <= n < |s.sent| && s.cc[n - (|s.sent| - |s.cc|)] == i
    case ByWorker(w, n) => w < |s.workers| && FlushesSlot(s.workers[w]) && s.workers[w].i == i
  }

  ghost predicate Mutex(s: State) {
    && (s.rc.Some? ==> s.rc.value < |s.workers|)
    && (forall w :: 0 <= w < |s.workers| ==> (HoldsMutex(s.workers[w]) <==> s.rc == Some(w)))
  }


  const IsSent: Call -> bool := (x: Call) => x.phase.Sent?
  const IsWaiting: FlushPhase -> bool := (p: FlushPhase) => p.Ready? || p.Locked?

  /** Every queued index has its goroutine: spawned and waiting, or about to be spawned. */
  ghost predicate Supply(s: State) {
    |s.cc| == Count(s.calls, IsSent) + Count(s.workers, IsWaiting)
  }

  /** The calls that have sent are listed once each. */
  ghost predicate SentOnce(s: State) {
    && (forall n :: 0 <= n < |s.sent| ==> s.sent[n] < |s.calls| && HasSent(s.calls[s.sent[n]].phase))
    && (forall m, n :: 0 <= m < n < |s.sent| ==> s.sent[m] != s.sent[n])
    && (forall k :: 0 <= k < |s.calls| && HasSent(s.calls[k].phase) ==> k in s.sent)
  }

  /** The goroutine holding `rc` has taken an index whose buffer it has not passed on yet. */
  predicate InHand(s: State) { s.rc.Some? && s.rc.value < |s.workers| && s.workers[s.rc.value].Received? }

  /** Passed on, then in hand, then queued: that is the order of the sends. */
  ghost predicate InOrder(s: State)
    requires Shape(s)
  {
    && |s.sent| == |s.sink| + (if InHand(s) then 1 else 0) + |s.cc|
    && (InHand(s) ==> s.owners[s.workers[s.rc.value].i] == ByWorker(s.rc.value, |s.sink|))
    && (forall n :: 0 <= n < |s.sent| ==> s.sent[n] < |s.calls|)
    && (forall n :: 0 <= n < |s.sink| ==> s.sink[n] == s.calls[s.sent[n]].b)
  }

  /** From the copy to the flush a slot holds the bytes of the call that filled it. */
  ghost predicate Holds(s: State, i: nat)
    requires i < |s.slots| == |s.owners|
  {
    match s.owners[i]
    case Free => true
    case ByCall(k) => k < |s.calls| && (s.calls[k].phase.Filled? ==> s.slots[i].buf == s.calls[k].b)
    case InQueue(n) => n < |s.sent| && s.sent[n] < |s.calls| && s.slots[i].buf == s.calls[s.sent[n]].b
    case ByWorker(w, n) => n < |s.sent| && s.sent[n] < |s.calls| && s.slots[i].buf == s.calls[s.sent[n]].b
  }

  ghost predicate Contents(s: State)
    requires Shape(s)
  {
    forall i :: 0 <= i < |s.slots| ==> Holds(s, i)
  }

  ghost predicate Data(s: State)
    requires Shape(s)
  {
    InOrder(s) && Contents(s)
  }

  ghost predicate Inv(s: State) {
    Shape(s) && Ownership(s) && Mutex(s) && Supply(s) && SentOnce(s) && Data(s)
  }

  lemma MutexKept(s: State, a: Action)
    requires Shape(s) && Mutex(s) && Step(s, a).Some?
    ensures Mutex(Step(s, a).value)
  {
  }

  lemma SupplyCall(s: State, k: nat)
    requires Shape(s) && Supply(s) && k < |s.calls| && StepCall(s, k).Some?
    ensures Supply(StepCall(s, k).value)
  {
    var t := StepCall(s, k).value;
    CountUpdate(s.calls, k, t.calls[k], IsSent);
    if s.calls[k].phase.Sent? { CountAppend(s.workers, Ready, IsWaiting); }
  }

  lemma SupplyWorker(s: State, w: nat, ok: bool)
    requires Shape(s) && Supply(s) && w < |s.workers| && StepWorker(s, w, ok).Some?
    ensures Supply(StepWorker(s, w, ok).value)
  {
    CountUpdate(s.workers, w, StepWorker(s, w, ok).value.workers[w], IsWaiting);
  }

  lemma SupplyKept(s: State, a: Action)
    requires Shape(s) && Supply(s) && Step(s, a).Some?
    ensures Supply(Step(s, a).value)
  {
    match a
    case Begin(b) => CountAppend(s.calls, Call(b, Entered), IsSent);
    case CallStep(k) => SupplyCall(s, k);
    case WorkerStep(w, ok) => SupplyWorker(s, w, ok);
  }

  /** A step that moves program counters only, none of them in or out of a slot or the send. */
  ghost predicate Quiet(s: State, t: State) {
    && t.slots == s.slots && t.owners == s.owners && t.cc == s.cc && t.sent == s.sent && t.sink == s.sink
    && |s.calls| <= |t.calls| && |s.workers| <= |t.workers|
    && (forall k :: 0 <= k < |t.calls| ==>
          if k < |s.calls| then t.calls[k] == s.calls[k] || SameRole(s.calls[k], t.calls[k])
          else t.calls[k].phase.Entered?)
    && (forall w :: 0 <= w < |t.workers| ==>
          if w < |s.workers| then t.workers[w] == s.workers[w] || SameDuty(s.workers[w], t.workers[w])
          else t.workers[w].Ready?)
  }
  predicate SameRole(x: Call, y: Call) {
    x.b == y.b && !OwnsSlot(x.phase) && !OwnsSlot(y.phase) && (HasSent(x.phase) <==> HasSent(y.phase))
  }
  predicate SameDuty(p: FlushPhase, q: FlushPhase) {
    && !p.Received? && !q.Received? && (FlushesSlot(p) <==> FlushesSlot(q))
    && (FlushesSlot(p) ==> q.i == p.i)
  }

  predicate Moves(s: State, a: Action) {
    match a
    case Begin(_) => false
    case CallStep(k) => k < |s.calls| && (CanSwap(s, k) || CanFill(s, k) || CanSend(s, k))
    case WorkerStep(w, _) => w < |s.workers| && (CanReceive(s, w) || CanPass(s, w) || CanClear(s, w))
  }

  lemma QuietCall(s: State, k: nat)
    requires Shape(s) && k < |s.calls| && StepCall(s, k).Some? && !Moves(s, CallStep(k))
    ensures Quiet(s, StepCall(s, k).value)
  {
  }

  lemma QuietWorker(s: State, w: nat, ok: bool)
    requires Shape(s) && w < |s.workers| && StepWorker(s, w, ok).Some? && !Moves(s, WorkerStep(w, ok))
    ensures Quiet(s, StepWorker(s, w, ok).value)
  {
  }

  lemma QuietStep(s: State, a: Action)
    requires Shape(s) && Step(s, a).Some? && !Moves(s, a)
    ensures Quiet(s, Step(s, a).value)
  {
    match a
    case Begin(b) =>
    case CallStep(k) => QuietCall(s, k);
    case WorkerStep(w, ok) => QuietWorker(s, w, ok);
  }

  ghost predicate SameSends(s: State, t: State) {
    && t.sent == s.sent && |s.calls| <= |t.calls|
    && (forall k :: 0 <= k < |t.calls| ==>
          (HasSent(t.calls[k].phase) <==> k < |s.calls| && HasSent(s.calls[k].phase)))
  }

  lemma SentOnceSame(s: State, t: State)
    requires SentOnce(s) && SameSends(s, t)
    ensures SentOnce(t)
  {
  }

  lemma SentOnceCall(s: State, k: nat)
    requires Shape(s) && SentOnce(s) && k < |s.calls| && StepCall(s, k).Some?
    ensures SentOnce(StepCall(s, k).value)
  {
    if CanSend(s, k) {
      SentOnceSend(s, k);
    } else {
      SentOnceSame(s, StepCall(s, k).value);
    }
  }

  lemma SentOnceKept(s: State, a: Action)
    requires Shape(s) && SentOnce(s) && Step(s, a).Some?
    ensures SentOnce(Step(s, a).value)
  {
    match a
    case Begin(b) => SentOnceSame(s, Step(s, a).value);
    case CallStep(k) => SentOnceCall(s, k);
    case WorkerStep(w, ok) => SentOnceSame(s, StepWorker(s, w, ok).value);
  }

  lemma SentOnceSend(s: State, k: nat)
    requires SentOnce(s) && CanSend(s, k)
    ensures SentOnce(Send(s, k))
  {
  }

  // Ownership, one step at a time.

  lemma OwnSwap(s: State, k: nat)
    requires CanSwap(s, k) && Ownership(s)
    ensures Shape(Swap(s, k)) && Ownership(Swap(s, k))
  {
  }

  lemma OwnFill(s: State, k: nat)
    requires CanFill(s, k) && Ownership(s)
    ensures Shape(Fill(s, k)) && Ownership(Fill(s, k))
  {
  }

  lemma OwnSend(s: State, k: nat)
    requires CanSend(s, k) && Ownership(s)
    ensures Shape(Send(s, k)) && Ownership(Send(s, k))
  {
  }

  lemma OwnReceive(s: State, w: nat)
    requires CanReceive(s, w) && Ownership(s)
    ensures Shape(Receive(s, w)) && Ownership(Receive(s, w))
  {
  }

  lemma OwnPass(s: State, w: nat, ok: bool)
    requires CanPass(s, w) && Ownership(s)
    ensures Shape(Pass(s, w, ok)) && Ownership(Pass(s, w, ok))
  {
  }

  lemma OwnClear(s: State, w: nat)
    requires CanClear(s, w) && Ownership(s)
    ensures Shape(Clear(s, w)) && Ownership(Clear(s, w))
  {
  }

  lemma OwnQuiet(s: State, t: State)
    requires Shape(s) && Shape(t) && Ownership(s) && Quiet(s, t)
    ensures Ownership(t)
  {
    forall i | 0 <= i < |t.slots| ensures OwnerUses(t, i, t.owners[i]) {
      assert OwnerUses(s, i, s.owners[i]);
    }
  }

  lemma OwnershipKept(s: State, a: Action)
    requires Shape(s) && Ownership(s) && Step(s, a).Some?
    ensures Shape(Step(s, a).value) && Ownership(Step(s, a).value)
  {
    ShapeKept(s, a);
    if !Moves(s, a) {
      QuietStep(s, a);
      OwnQuiet(s, Step(s, a).value);
    } else {
      match a {
        case CallStep(k) => if CanSwap(s, k) { OwnSwap(s, k); } else if CanFill(s, k) { OwnFill(s, k); } else { OwnSend(s, k); }
        case WorkerStep(w, ok) =>
          if CanReceive(s, w) { OwnReceive(s, w); } else if CanPass(s, w) { OwnPass(s, w, ok); } else { OwnClear(s, w); }
      }
    }
  }

  // Order and contents.

  lemma DataReceive(s: State, w: nat)
    requires CanReceive(s, w) && Ownership(s) && Mutex(s) && Data(s)
    ensures Shape(Receive(s, w)) && Data(Receive(s, w))
  {
    forall i | 0 <= i < |s.slots| ensures Holds(Receive(s, w), i) { assert Holds(s, i); }
  }

  lemma DataPass(s: State, w: nat, ok: bool)
    requires CanPass(s, w) && Ownership(s) && Mutex(s) && Data(s)
    ensures Shape(Pass(s, w, ok)) && Data(Pass(s, w, ok))
  {
    assert s.rc == Some(w) && Holds(s, s.workers[w].i) by { assert HoldsMutex(s.workers[w]); }
    forall i | 0 <= i < |s.slots| ensures Holds(Pass(s, w, ok), i) { assert Holds(s, i); }
  }

  lemma DataSend(s: State, k: nat)
    requires CanSend(s, k) && Ownership(s) && Mutex(s) && Data(s)
    ensures Shape(Send(s, k)) && Data(Send(s, k))
  {
    forall i | 0 <= i < |s.slots| ensures Holds(Send(s, k), i) { assert Holds(s, i); }
  }

  lemma DataFill(s: State, k: nat)
    requires CanFill(s, k) && Ownership(s) && Mutex(s) && Data(s)
    ensures Shape(Fill(s, k)) && Data(Fill(s, k))
  {
    forall i | 0 <= i < |s.slots| ensures Holds(Fill(s, k), i) { assert Holds(s, i); }
  }

  lemma DataSwap(s: State, k: nat)
    requires CanSwap(s, k) && Ownership(s) && Mutex(s) && Data(s)
    ensures Shape(Swap(s, k)) && Data(Swap(s, k))
  {
    forall i | 0 <= i < |s.slots| ensures Holds(Swap(s, k), i) { assert Holds(s, i); }
  }

  lemma DataClear(s: State, w: nat)
    requires CanClear(s, w) && Ownership(s) && Mutex(s) && Data(s)
    ensures Shape(Clear(s, w)) && Data(Clear(s, w))
  {
    forall i | 0 <= i < |s.slots| ensures Holds(Clear(s, w), i) { assert Holds(s, i); }
  }

  lemma DataQuiet(s: State, t: State)
    requires Shape(s) && Shape(t) && Mutex(s) && Mutex(t) && Data(s) && Quiet(s, t)
    ensures Data(t)
  {
    forall i | 0 <= i < |t.slots| ensures Holds(t, i) { assert Holds(s, i); }
  }

  lemma DataKept(s: State, a: Action)
    requires Shape(s) && Ownership(s) && Mutex(s) && Data(s) && Step(s, a).Some?
    ensures Shape(Step(s, a).value) && Data(Step(s, a).value)
  {
    ShapeKept(s, a);
    if !Moves(s, a) {
      MutexKept(s, a);
      QuietStep(s, a);
      DataQuiet(s, Step(s, a).value);
    } else {
      match a {
        case CallStep(k) =>
          if CanSwap(s, k) { DataSwap(s, k); } else if CanFill(s, k) { DataFill(s, k); } else { DataSend(s, k); }
        case WorkerStep(w, ok) =>
          if CanReceive(s, w) { DataReceive(s, w); } else if CanPass(s, w) { DataPass(s, w, ok); } else { DataClear(s, w); }
      }
    }
  }

  // ---------------------------------------------------------------- main results

  lemma InvInit(max: nat)
    requires max >= 1
    ensures Inv(Init(max))
  {
  }

  lemma InvKept(s: State, a: Action)
    requires Inv(s) && Step(s, a).Some?
    ensures Inv(Step(s, a).value)
  {
    OwnershipKept(s, a);
    MutexKept(s, a);
    SupplyKept(s, a);
    SentOnceKept(s, a);
    DataKept(s, a);
  }

  lemma {:induction false} InvRun(s: State, schedule: seq<Action>)
    requires Inv(s)
    ensures Run(s, schedule).Some? ==> Inv(Run(s, schedule).value)
  {
    if schedule != [] {
      var n := |schedule| - 1;
      InvRun(s, schedule[..n]);
      if Run(s, schedule).Some? {
        InvKept(Run(s, schedule[..n]).value, schedule[n]);
      }
    }
  }

  ghost predicate Reachable(s: State, max: nat) {
    max >= 1 && exists schedule :: Run(Init(max), schedule) == Some(s)
  }

  lemma ReachableInv(s: State, max: nat)
    requires Reachable(s, max)
    ensures Inv(s) && |s.slots| == max
  {
    var schedule :| Run(Init(max), schedule) == Some(s);
    InvInit(max);
    InvRun(Init(max), schedule);
    RunKeepsMax(Init(max), schedule);
  }

  lemma {:induction false} RunKeepsMax(s: State, schedule: seq<Action>)
    requires Shape(s)
    ensures Run(s, schedule).Some? ==> |Run(s, schedule).value.slots| == |s.slots|
  {
    if schedule != [] {
      var n := |schedule| - 1;
      RunKeepsMax(s, schedule[..n]);
      if Run(s, schedule).Some? { StepKeepsMax(Run(s, schedule[..n]).value, schedule[n]); }
    }
  }

  lemma StepKeepsMax(s: State, a: Action)
    requires Shape(s) && Step(s, a).Some?
    ensures |Step(s, a).value.slots| == |s.slots|
  {
  }

  /**
   * What the underlying writer was given is, byte for byte and in order, the payloads of an initial part
   * of the sends; a call is in that list at most once, and only if it was not refused.
   */
  lemma Delivery(s: State, max: nat)
    requires Reachable(s, max)
    ensures |s.sink| <= |s.sent|
    ensures forall n :: 0 <= n < |s.sent| ==> s.sent[n] < |s.calls| && HasSent(s.calls[s.sent[n]].phase)
    ensures forall n :: 0 <= n < |s.sink| ==> s.sink[n] == s.calls[s.sent[n]].b
    ensures forall m, n :: 0 <= m < n < |s.sent| ==> s.sent[m] != s.sent[n]
    ensures forall k :: 0 <= k < |s.calls| && s.calls[k].phase.Accepted? ==> k in s.sent
  {
    ReachableInv(s, max);
  }

  /** The list of sends only grows, so the order it fixes is final. */
  lemma SendsGrow(s: State, a: Action)
    requires Shape(s) && Step(s, a).Some?
    ensures s.sent <= Step(s, a).value.sent && s.sink <= Step(s, a).value.sink
  {
  }

  /** A slot is busy exactly while a writer owns it, its index is queued, or it is being flushed. */
  lemma BusyExactly(s: State, max: nat, i: nat)
    requires Reachable(s, max) && i < max
    ensures |s.slots| == max
    ensures s.slots[i].busy <==>
            || (exists k :: 0 <= k < |s.calls| && OwnsSlot(s.calls[k].phase) && s.calls[k].phase.i == i)
            || i in s.cc
            || (exists w :: 0 <= w < |s.workers| && FlushesSlot(s.workers[w]) && s.workers[w].i == i)
  {
    ReachableInv(s, max);
    assert OwnerUses(s, i, s.owners[i]);
  }

  /** No call ever waits at the send on cc. */
  lemma SendNeverBlocks(s: State, max: nat, k: nat)
    requires Reachable(s, max) && k < |s.calls| && s.calls[k].phase.Filled?
    ensures Shape(s) && StepCall(s, k).Some?
  {
    ReachableInv(s, max);
    DistinctBelow(s.cc, |s.slots|, s.calls[k].phase.i);
  }

  /** A goroutine that holds `rc` never waits at the receive from cc. */
  lemma ReceiveNeverBlocks(s: State, max: nat, w: nat, ok: bool)
    requires Reachable(s, max) && w < |s.workers| && s.workers[w].Locked?
    ensures Shape(s) && StepWorker(s, w, ok).Some?
  {
    ReachableInv(s, max);
    CountPositive(s.workers, w, IsWaiting);
  }

  predicate CallOpen(p: CallPhase) { !p.Accepted? && !p.Cancelled? && !p.Busy? }

  /** Nothing deadlocks: an unfinished call can always move, and some unfinished goroutine can. */
  lemma Progress(s: State, max: nat)
    requires Reachable(s, max)
    ensures Shape(s)
    ensures forall k :: 0 <= k < |s.calls| && CallOpen(s.calls[k].phase) ==> StepCall(s, k).Some?
    ensures (exists w :: 0 <= w < |s.workers| && !s.workers[w].Gone?) ==>
              exists w :: 0 <= w < |s.workers| && StepWorker(s, w, true).Some?
  {
    ReachableInv(s, max);
    forall k | 0 <= k < |s.calls| && CallOpen(s.calls[k].phase) ensures StepCall(s, k).Some? {
      if s.calls[k].phase.Filled? { SendNeverBlocks(s, max, k); }
    }
    if w :| 0 <= w < |s.workers| && !s.workers[w].Gone? {
      var h := if s.rc.Some? then s.rc.value else w;
      assert HoldsMutex(s.workers[h]) <==> s.rc == Some(h);
      if s.workers[h].Locked? { ReceiveNeverBlocks(s, max, h, true); }
      assert StepWorker(s, h, true).Some?;
    }
  }

  /** Every call has returned and every flushing goroutine is gone. */
  ghost predicate Quiescent(s: State) {
    && (forall k :: 0 <= k < |s.calls| ==> !CallOpen(s.calls[k].phase))
    && (forall w :: 0 <= w < |s.workers| ==> s.workers[w].Gone?)
  }

  /** Once everything has returned, every accepted write was passed on, exactly once, and the ring is free. */
  lemma Drained(s: State, max: nat)
    requires Reachable(s, max) && Quiescent(s)
    ensures |s.sink| == |s.sent|
    ensures forall n :: 0 <= n < |s.sink| ==> s.sent[n] < |s.calls| && s.sink[n] == s.calls[s.sent[n]].b
    ensures forall m, n :: 0 <= m < n < |s.sent| ==> s.sent[m] != s.sent[n]
    ensures forall k :: 0 <= k < |s.calls| ==> (s.calls[k].phase.Accepted? <==> k in s.sent)
    ensures forall i :: 0 <= i < |s.slots| ==> !s.slots[i].busy
  {
    ReachableInv(s, max);
    CountZero(s.calls, IsSent);
    CountZero(s.workers, IsWaiting);
    assert s.cc == [];
    forall i | 0 <= i < |s.slots| ensures !s.slots[i].busy { assert OwnerUses(s, i, s.owners[i]); }
  }

  // ---------------------------------------------------------------- everything begun can be brought to its end

  /** Steps a goroutine has before it. */
  function FlushLeft(p: FlushPhase): nat {
    match p
    case Ready => 6
    case Locked => 5
    case Received(_) => 4
    case Written(_, _) => 3
    case ErrChecked(_) => 2
    case Released => 1
    case Gone => 0
  }

  /** Steps a call has before it, with those of the goroutine it starts. */
  function CallLeft(p: CallPhase): nat {
    match p
    case Entered => 13
    case Checked => 12
    case Numbered(_) => 11
    case Owned(_) => 10
    case Filled(_) => 9
    case Sent => 8
    case Spawned => 1
    case _ => 0
  }

  function CallsLeft(calls: seq<Call>): nat {
    if calls == [] then 0 else CallsLeft(calls[..|calls| - 1]) + CallLeft(calls[|calls| - 1].phase)
  }

  function FlushesLeft(workers: seq<FlushPhase>): nat {
    if workers == [] then 0 else FlushesLeft(workers[..|workers| - 1]) + FlushLeft(workers[|workers| - 1])
  }

  lemma {:induction false} CallsLeftUpdate(calls: seq<Call>, k: nat, x: Call)
    requires k < |calls|
    ensures CallsLeft(calls[k := x]) == CallsLeft(calls) - CallLeft(calls[k].phase) + CallLeft(x.phase)
  {
    var n := |calls| - 1;
    if k < n {
      assert calls[k := x][..n] == calls[..n][k := x];
      CallsLeftUpdate(calls[..n], k, x);
    } else {
      assert calls[k := x][..n] == calls[..n];
    }
  }

  lemma {:induction false} FlushesLeftUpdate(workers: seq<FlushPhase>, w: nat, p: FlushPhase)
    requires w < |workers|
    ensures FlushesLeft(workers[w := p]) == FlushesLeft(workers) - FlushLeft(workers[w]) + FlushLeft(p)
  {
    var n := |workers| - 1;
    if w < n {
      assert workers[w := p][..n] == workers[..n][w := p];
      FlushesLeftUpdate(workers[..n], w, p);
    } else {
      assert workers[w := p][..n] == workers[..n];
    }
  }

  function WorkLeft(s: State): nat { CallsLeft(s.calls) + FlushesLeft(s.workers) }

  /** A step of a call changes its phase, and may start a goroutine. */
  lemma CallLeftLess(s: State, k: nat)
    requires Shape(s) && k < |s.calls| && StepCall(s, k).Some?
    ensures WorkLeft(StepCall(s, k).value) < WorkLeft(s)
  {
    var t := StepCall(s, k).value;
    CallChanges(s, k);
    CallsLeftUpdate(s.calls, k, t.calls[k]);
    if s.calls[k].phase.Sent? { assert (s.workers + [Ready])[..|s.workers|] == s.workers; }
  }

  lemma CallChanges(s: State, k: nat)
    requires Shape(s) && k < |s.calls| && StepCall(s, k).Some?
    ensures var t := StepCall(s, k).value;
      && |t.calls| == |s.calls| && t.calls == s.calls[k := t.calls[k]]
      && t.workers == s.workers + (if s.calls[k].phase.Sent? then [Ready] else [])
      && CallLeft(t.calls[k].phase) + (if s.calls[k].phase.Sent? then 7 else 1) <= CallLeft(s.calls[k].phase)
  {
    assert s.workers + [] == s.workers;
  }

  lemma FlushLeftLess(s: State, w: nat, ok: bool)
    requires Shape(s) && w < |s.workers| && StepWorker(s, w, ok).Some?
    ensures WorkLeft(StepWorker(s, w, ok).value) < WorkLeft(s)
  {
    var t := StepWorker(s, w, ok).value;
    FlushesLeftUpdate(s.workers, w, t.workers[w]);
    assert t.workers == s.workers[w := t.workers[w]];
  }

  /** No underlying write fails. */
  predicate AllOk(schedule: seq<Action>) { forall i :: 0 <= i < |schedule| && schedule[i].WorkerStep? ==> schedule[i].ok }

  predicate NoBegin(schedule: seq<Action>) { forall i :: 0 <= i < |schedule| ==> !schedule[i].Begin? }

  lemma WorkLess(s: State, a: Action)
    requires Shape(s) && !a.Begin? && Step(s, a).Some?
    ensures WorkLeft(Step(s, a).value) < WorkLeft(s)
  {
    match a
    case CallStep(k) => CallLeftLess(s, k);
    case WorkerStep(w, ok) => FlushLeftLess(s, w, ok);
  }

  /** Without new calls a run has only so many steps. */
  lemma {:induction false} StepsBounded(s: State, schedule: seq<Action>)
    requires Shape(s) && NoBegin(schedule) && Run(s, schedule).Some?
    ensures |schedule| + WorkLeft(Run(s, schedule).value) <= WorkLeft(s)
  {
    if schedule != [] {
      var n := |schedule| - 1;
      StepsBounded(s, schedule[..n]);
      WorkLess(Run(s, schedule[..n]).value, schedule[n]);
    }
  }

  /** Where nothing that has begun can go on, everything has returned. */
  lemma EndIsQuiescent(s: State, max: nat)
    requires Reachable(s, max) && Shape(s) && forall a: Action :: !a.Begin? ==> Step(s, a).None?
    ensures Quiescent(s)
  {
    if !Quiescent(s) { var a, t := NextStep(s, max); }
  }

  lemma {:induction false} RunJoin(s: State, a: seq<Action>, t: State, b: seq<Action>)
    requires Shape(s) && Shape(t) && Run(s, a) == Some(t)
    ensures Run(s, a + b) == Run(t, b)
    decreases |b|
  {
    if b == [] {
      assert a + b == a;
    } else {
      var n := |b| - 1;
      RunJoin(s, a, t, b[..n]);
      assert (a + b)[..|a + b| - 1] == a + b[..n];
    }
  }

  lemma ReachableStep(s: State, max: nat, a: Action, t: State)
    requires Reachable(s, max) && Shape(s) && Step(s, a) == Some(t)
    ensures Reachable(t, max) && Run(s, [a]) == Some(t)
  {
    var schedule :| Run(Init(max), schedule) == Some(s);
    assert (schedule + [a])[..|schedule|] == schedule;
    assert Run(Init(max), schedule + [a]) == Some(t);
    assert [a][..0] == [];
  }

  /** Something that has begun can go on, unless everything has come to its end. */
  lemma NextStep(s: State, max: nat) returns (a: Action, t: State)
    requires Reachable(s, max) && !Quiescent(s)
    ensures Shape(s) && NoBegin([a]) && AllOk([a]) && Step(s, a) == Some(t) && WorkLeft(t) < WorkLeft(s)
  {
    Progress(s, max);
    if k :| 0 <= k < |s.calls| && CallOpen(s.calls[k].phase) {
      a := CallStep(k);
      CallLeftLess(s, k);
    } else {
      var w :| 0 <= w < |s.workers| && StepWorker(s, w, true).Some?;
      a := WorkerStep(w, true);
      FlushLeftLess(s, w, true);
    }
    t := Step(s, a).value;
  }

  /**
   * From every reachable state steps of what has begun, and no others, lead to a state in which everything has returned: no
   * write that was accepted can be lost for good. None of them need fail.
   */
  lemma {:induction false} Settles(s: State, max: nat) returns (schedule: seq<Action>, t: State)
    requires Reachable(s, max)
    ensures Shape(s) && NoBegin(schedule) && AllOk(schedule) && Run(s, schedule) == Some(t)
    ensures Reachable(t, max) && Quiescent(t)
    decreases WorkLeft(s)
  {
    ReachableInv(s, max);
    schedule, t := [], s;
    if !Quiescent(s) {
      var a, s1 := NextStep(s, max);
      ReachableStep(s, max, a, s1);
      ReachableInv(s1, max);
      schedule, t := Settles(s1, max);
      RunJoin(s, [a], s1, schedule);
      schedule := [a] + schedule;
    }
  }
}
