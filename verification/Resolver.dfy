/**
 * What keyFunc.getTrace computes, on values: the trace of method calls made to obtain a key, for any
 * behaviour of the registered methods and checks.
 */
module Resolver {
  import opened Util

  /** User(id, next): an error from a method; `next` says whether it is an ErrNextMethod. */
  datatype Err = ErrKeyNotReg | ErrKeyMissAgain | ErrKeyNotValid | User(id: int, next: bool)

  datatype Event =
    | Called(key: string, i: nat, miss: string, err: Option<Err>)
    | Checked(key: string, ok: bool)

  /**
   * The registrations. Methods and checks are arbitrary stateful functions: what they answer may depend on
   * everything that happened before.
   */
  datatype Env = Env(
    count: map<string, nat>,
    method_: (seq<Event>, string, nat) -> (string, Option<Err>),
    check: (seq<Event>, string) -> bool)
  {
    predicate Registered(key: string) { key in count && count[key] > 0 }

    function Methods(key: string): nat { if key in count then count[key] else 0 }
  }

  datatype Entry = Entry(key: string, i: nat, err: Option<Err>)

  /** `stray` is the free-standing node that stands for an unregistered key. */
  datatype Out = Out(trace: seq<Entry>, log: seq<Event>, stray: Option<string>) {
    function Err(): Option<Err> {
      if stray.Some? then Some(ErrKeyNotReg) else if trace == [] then None else trace[|trace| - 1].err
    }
  }

  function Keys(trace: seq<Entry>): (s: set<string>)
    ensures forall k :: 0 <= k < |trace| ==> trace[k].key in s
    ensures forall x :: x in s ==> exists k :: 0 <= k < |trace| && trace[k].key == x
  {
    set k | 0 <= k < |trace| :: trace[k].key
  }

  function SetErr(trace: seq<Entry>, e: Option<Err>): (t: seq<Entry>)
    requires trace != []
    ensures |t| == |trace| && t[..|t| - 1] == trace[..|t| - 1] && t[|t| - 1] == trace[|t| - 1].(err := e)
  {
    trace[|trace| - 1 := trace[|trace| - 1].(err := e)]
  }

  lemma SetErrKeys(trace: seq<Entry>, e: Option<Err>)
    requires trace != []
    ensures Keys(SetErr(trace, e)) == Keys(trace)
  {
    assert forall k :: 0 <= k < |trace| ==> SetErr(trace, e)[k].key == trace[k].key;
  }

  predicate Extends(t: seq<Entry>, s: seq<Entry>) {
    |s| <= |t| && forall k :: 0 <= k < |s| ==> t[k] == s[k]
  }

  /** How one round of the loop ends: with a return, with the same method again, or with the next one. */
  datatype Verdict = Return | Retry | Next
  datatype Round = Round(out: Out, verdict: Verdict)

  /** getTrace(key, trace) for a key that is not in the trace. */
  function Resolve(env: Env, key: string, trace: seq<Entry>, log: seq<Event>): (r: Out)
    requires key !in Keys(trace)
    ensures Extends(r.trace, trace)
    ensures r.stray == None ==> |r.trace| > |trace| && key in Keys(r.trace) && key in env.count
    decreases env.count.Keys - Keys(trace), 1, 0, 0
  {
    if env.Registered(key) then Loop(env, key, 0, trace, log) else Out(trace, log, Some(key))
  }

  /** The loop of getTrace from its i-th method on. */
  function Loop(env: Env, key: string, i: nat, trace: seq<Entry>, log: seq<Event>): (r: Out)
    requires env.Registered(key) && i <= env.count[key] && (key in Keys(trace) || i == 0)
    ensures Extends(r.trace, trace)
    ensures r.stray == None && i < env.count[key] ==> |r.trace| > |trace| && key in Keys(r.trace)
    decreases env.count.Keys - Keys(trace), if key in Keys(trace) then 2 else 0, env.count[key] - i, 1
  {
    if i == env.count[key] then Out(trace, log, None)
    else
      var Round(o, verdict) := CallMethod(env, key, i, trace, log);
      KeysExtend(trace, o.trace);
      match verdict
      case Return => o
      case Retry => Loop(env, key, i, o.trace, o.log)
      case Next => Loop(env, key, i + 1, o.trace, o.log)
  }

  /** One round: append a node, call method i, obtain the key it misses, check the result. */
  function CallMethod(env: Env, key: string, i: nat, trace: seq<Entry>, log: seq<Event>): (r: Round)
    requires env.Registered(key) && i < env.count[key] && (key in Keys(trace) || i == 0)
    ensures Extends(r.out.trace, trace)
    ensures r.out.stray == None ==> |r.out.trace| > |trace| && key in Keys(r.out.trace)
    ensures r.verdict != Return ==> r.out.stray == None
    ensures r.verdict == Retry ==> env.count.Keys - Keys(r.out.trace) < env.count.Keys - Keys(trace)
    decreases env.count.Keys - Keys(trace), if key in Keys(trace) then 2 else 0, env.count[key] - i, 0
  {
    var (miss, err) := env.method_(log, key, i);
    var log1 := log + [Called(key, i, miss, err)];
    var t := trace + [Entry(key, i, err)];
    KeysAppend(trace, Entry(key, i, err));
    if miss != "" then
      if miss in Keys(t) then
        SetErrKeys(t, Some(ErrKeyMissAgain));
        Round(Out(SetErr(t, Some(ErrKeyMissAgain)), log1, None), Return)
      else
        var r := Resolve(env, miss, t, log1);
        KeysExtend(t, r.trace);
        if r.stray.Some? then Round(r, Return)
        else
          FewerLeft(env, trace, r.trace, miss);
          Round(r, if r.Err() == None then Retry else if IsNext(r.Err()) then Next else Return)
    else if err == None then
      var ok := env.check(log1, key);
      var log2 := log1 + [Checked(key, ok)];
      SetErrKeys(t, Some(ErrKeyNotValid));
      if ok then Round(Out(t, log2, None), Return)
      else Round(Out(SetErr(t, Some(ErrKeyNotValid)), log2, None), Next)
    else Round(Out(t, log1, None), if IsNext(err) then Next else Return)
  }

  /** pe.Is(err, ErrNextMethod) */
  predicate IsNext(e: Option<Err>) { e.Some? && e.value.User? && e.value.next }

  /** A key obtained on the way is one key less that can still be entered. */
  lemma FewerLeft(env: Env, s: seq<Entry>, t: seq<Entry>, key: string)
    requires Keys(s) <= Keys(t) && key in Keys(t) && key !in Keys(s) && key in env.count
    ensures env.count.Keys - Keys(t) < env.count.Keys - Keys(s)
  {
    assert key in env.count.Keys - Keys(s);
  }

  lemma KeysAppend(trace: seq<Entry>, e: Entry)
    ensures Keys(trace + [e]) == Keys(trace) + {e.key}
  {
    var t := trace + [e];
    assert t[|trace|] == e;
    forall x | x in Keys(trace) ensures x in Keys(t) {
      var k :| 0 <= k < |trace| && trace[k].key == x;
      assert t[k].key == x;
    }
  }

  lemma KeysExtend(s: seq<Entry>, t: seq<Entry>)
    requires Extends(t, s)
    ensures Keys(s) <= Keys(t)
  {
    forall x | x in Keys(s) ensures x in Keys(t) {
      var k :| 0 <= k < |s| && s[k].key == x;
      assert t[k].key == x;
    }
  }

  // ---------------------------------------------------------------- each key is entered once

  /** The calls made for `key` and below concern `key` or keys that were not in the trace before. */
  ghost predicate OnlyNew(trace: seq<Entry>, t: seq<Entry>, key: string) {
    Extends(t, trace) && forall k :: |trace| <= k < |t| ==> t[k].key == key || t[k].key !in Keys(trace)
  }

  lemma {:induction false} CallsOnlyNew(env: Env, key: string, trace: seq<Entry>, log: seq<Event>)
    requires key !in Keys(trace)
    ensures OnlyNew(trace, Resolve(env, key, trace, log).trace, key)
    decreases env.count.Keys - Keys(trace), 1, 0, 0
  {
    if env.Registered(key) { LoopOnlyNew(env, key, 0, trace, log); }
  }

  lemma {:induction false} LoopOnlyNew(env: Env, key: string, i: nat, trace: seq<Entry>, log: seq<Event>)
    requires env.Registered(key) && i <= env.count[key] && (key in Keys(trace) || i == 0)
    ensures OnlyNew(trace, Loop(env, key, i, trace, log).trace, key)
    decreases env.count.Keys - Keys(trace), if key in Keys(trace) then 2 else 0, env.count[key] - i, 1
  {
    if i < env.count[key] {
      var Round(o, verdict) := CallMethod(env, key, i, trace, log);
      RoundOnlyNew(env, key, i, trace, log);
      KeysExtend(trace, o.trace);
      if verdict != Return {
        var i' := if verdict == Retry then i else i + 1;
        LoopOnlyNew(env, key, i', o.trace, o.log);
        assert Loop(env, key, i, trace, log) == Loop(env, key, i', o.trace, o.log);
      }
    }
  }

  lemma {:induction false} RoundOnlyNew(env: Env, key: string, i: nat, trace: seq<Entry>, log: seq<Event>)
    requires env.Registered(key) && i < env.count[key] && (key in Keys(trace) || i == 0)
    ensures OnlyNew(trace, CallMethod(env, key, i, trace, log).out.trace, key)
    decreases env.count.Keys - Keys(trace), if key in Keys(trace) then 2 else 0, env.count[key] - i, 0
  {
    var (miss, err) := env.method_(log, key, i);
    var t := trace + [Entry(key, i, err)];
    KeysAppend(trace, Entry(key, i, err));
    if miss != "" && miss !in Keys(t) {
      CallsOnlyNew(env, miss, t, log + [Called(key, i, miss, err)]);
    }
  }

  /** The keys getTrace is called for, in order: `key`, then what its methods miss. */
  function Entered(env: Env, key: string, trace: seq<Entry>, log: seq<Event>): seq<string>
    requires key !in Keys(trace)
    decreases env.count.Keys - Keys(trace), 1, 0, 0
  {
    [key] + if env.Registered(key) then LoopEnters(env, key, 0, trace, log) else []
  }

  function LoopEnters(env: Env, key: string, i: nat, trace: seq<Entry>, log: seq<Event>): seq<string>
    requires env.Registered(key) && i <= env.count[key] && (key in Keys(trace) || i == 0)
    decreases env.count.Keys - Keys(trace), if key in Keys(trace) then 2 else 0, env.count[key] - i, 1
  {
    if i == env.count[key] then []
    else
      var Round(o, verdict) := CallMethod(env, key, i, trace, log);
      KeysExtend(trace, o.trace);
      RoundEnters(env, key, i, trace, log) +
      if verdict == Return then [] else LoopEnters(env, key, if verdict == Retry then i else i + 1, o.trace, o.log)
  }

  function RoundEnters(env: Env, key: string, i: nat, trace: seq<Entry>, log: seq<Event>): seq<string>
    requires env.Registered(key) && i < env.count[key] && (key in Keys(trace) || i == 0)
    decreases env.count.Keys - Keys(trace), if key in Keys(trace) then 2 else 0, env.count[key] - i, 0
  {
    var (miss, err) := env.method_(log, key, i);
    var t := trace + [Entry(key, i, err)];
    KeysAppend(trace, Entry(key, i, err));
    if miss == "" || miss in Keys(t) then [] else Entered(env, miss, t, log + [Called(key, i, miss, err)])
  }

  /** All different, none known before, and each left in the trace or standing for itself outside of it. */
  ghost predicate NewOnce(es: seq<string>, before: set<string>, o: Out) {
    && (forall i, j :: 0 <= i < j < |es| ==> es[i] != es[j])
    && (forall i :: 0 <= i < |es| ==> es[i] !in before && (es[i] in Keys(o.trace) || o.stray == Some(es[i])))
  }

  /** Whatever the methods answer, getTrace is called for no key twice, nor for one in the trace. */
  lemma {:induction false} EnteredOnce(env: Env, key: string, trace: seq<Entry>, log: seq<Event>)
    requires key !in Keys(trace)
    ensures NewOnce(Entered(env, key, trace, log), Keys(trace), Resolve(env, key, trace, log))
    decreases env.count.Keys - Keys(trace), 1, 0, 0
  {
    if env.Registered(key) { LoopEntersOnce(env, key, 0, trace, log); }
  }

  lemma {:induction false} LoopEntersOnce(env: Env, key: string, i: nat, trace: seq<Entry>, log: seq<Event>)
    requires env.Registered(key) && i <= env.count[key] && (key in Keys(trace) || i == 0)
    ensures NewOnce(LoopEnters(env, key, i, trace, log), Keys(trace) + {key}, Loop(env, key, i, trace, log))
    ensures var o := Loop(env, key, i, trace, log); i < env.count[key] ==> key in Keys(o.trace)
    decreases env.count.Keys - Keys(trace), if key in Keys(trace) then 2 else 0, env.count[key] - i, 1
  {
    if i < env.count[key] {
      var Round(o, verdict) := CallMethod(env, key, i, trace, log);
      RoundEntersOnce(env, key, i, trace, log);
      KeysExtend(trace, o.trace);
      if verdict != Return {
        var i' := if verdict == Retry then i else i + 1;
        var rest := Loop(env, key, i', o.trace, o.log);
        LoopEntersOnce(env, key, i', o.trace, o.log);
        KeysExtend(o.trace, rest.trace);
        EntersJoin(RoundEnters(env, key, i, trace, log), LoopEnters(env, key, i', o.trace, o.log), key, trace, o, rest);
      }
    }
  }

  /** A round, and the rest of the loop behind it. */
  lemma EntersJoin(es: seq<string>, fs: seq<string>, key: string, trace: seq<Entry>, o: Out, rest: Out)
    requires NewOnce(es, Keys(trace) + {key}, o) && o.stray.None? && NewOnce(fs, Keys(o.trace) + {key}, rest)
    requires Keys(trace) <= Keys(o.trace) <= Keys(rest.trace)
    ensures NewOnce(es + fs, Keys(trace) + {key}, rest)
  {
  }

  lemma {:induction false} RoundEntersOnce(env: Env, key: string, i: nat, trace: seq<Entry>, log: seq<Event>)
    requires env.Registered(key) && i < env.count[key] && (key in Keys(trace) || i == 0)
    ensures NewOnce(RoundEnters(env, key, i, trace, log), Keys(trace) + {key}, CallMethod(env, key, i, trace, log).out)
    ensures key in Keys(CallMethod(env, key, i, trace, log).out.trace)
    decreases env.count.Keys - Keys(trace), if key in Keys(trace) then 2 else 0, env.count[key] - i, 0
  {
    var (miss, err) := env.method_(log, key, i);
    var t := trace + [Entry(key, i, err)];
    KeysAppend(trace, Entry(key, i, err));
    if miss != "" && miss !in Keys(t) {
      var log1 := log + [Called(key, i, miss, err)];
      EnteredOnce(env, miss, t, log1);
      KeysExtend(t, Resolve(env, miss, t, log1).trace);
    } else {
      SetErrKeys(t, Some(ErrKeyMissAgain));
      SetErrKeys(t, Some(ErrKeyNotValid));
    }
  }

  // ---------------------------------------------------------------- how many calls

  /** Number of methods registered for the keys of s. */
  ghost function Sum(env: Env, s: set<string>): nat {
    if s == {} then 0 else var x :| x in s; env.Methods(x) + Sum(env, s - {x})
  }

  lemma {:induction false} SumTakes(env: Env, s: set<string>, x: string)
    requires x in s
    ensures Sum(env, s) == env.Methods(x) + Sum(env, s - {x})
  {
    var y :| y in s && Sum(env, s) == env.Methods(y) + Sum(env, s - {y});
    if x != y {
      SumTakes(env, s - {y}, x);
      SumTakes(env, s - {x}, y);
      assert s - {y} - {x} == s - {x} - {y};
    }
  }

  lemma {:induction false} SumDisjoint(env: Env, a: set<string>, b: set<string>)
    requires a !! b
    ensures Sum(env, a + b) == Sum(env, a) + Sum(env, b) && |a + b| == |a| + |b|
  {
    if a == {} {
      assert a + b == b;
    } else {
      var x :| x in a;
      SumDisjoint(env, a - {x}, b);
      SumTakes(env, a, x);
      SumTakes(env, a + b, x);
      assert a + b - {x} == (a - {x}) + b;
    }
  }

  lemma {:induction false} SumMonotone(env: Env, a: set<string>, b: set<string>)
    requires a <= b
    ensures Sum(env, a) <= Sum(env, b) && |a| <= |b|
  {
    SumDisjoint(env, a, b - a);
    assert a + (b - a) == b;
  }

  /** For every key entered between trace and t: its methods and one retry in its caller. */
  function Budget(env: Env, trace: seq<Entry>, t: seq<Entry>): nat {
    if |t| <= |trace| then 0
    else
      var s := t[..|t| - 1];
      Budget(env, trace, s) + (if t[|t| - 1].key in Keys(s) then 0 else env.Methods(t[|t| - 1].key) + 1)
  }

  lemma {:induction false} BudgetSplits(env: Env, a: seq<Entry>, b: seq<Entry>, c: seq<Entry>)
    requires Extends(b, a) && Extends(c, b)
    ensures Budget(env, a, c) == Budget(env, a, b) + Budget(env, b, c)
  {
    if |c| > |b| { BudgetSplits(env, a, b, c[..|c| - 1]); } else { assert c == b; }
  }

  /** Entering one key costs its methods and one retry in its caller. */
  lemma BudgetOfKey(env: Env, trace: seq<Entry>, e: Entry)
    ensures Budget(env, trace, trace + [e]) == if e.key in Keys(trace) then 0 else env.Methods(e.key) + 1
  {
    assert (trace + [e])[..|trace|] == trace;
    assert Budget(env, trace, trace) == 0;
  }

  lemma {:induction false} BudgetIsSum(env: Env, t: seq<Entry>)
    ensures Budget(env, [], t) == Sum(env, Keys(t)) + |Keys(t)|
  {
    if t == [] {
      assert Keys(t) == {};
    } else {
      var s, e := t[..|t| - 1], t[|t| - 1];
      BudgetIsSum(env, s);
      assert t == s + [e];
      KeysAppend(s, e);
      if e.key in Keys(s) {
        assert Keys(t) == Keys(s);
      } else {
        SumTakes(env, Keys(t), e.key);
        assert Keys(t) - {e.key} == Keys(s);
      }
    }
  }

  /** One node per call: this bounds the number of method calls. */
  lemma {:induction false} CallBound(env: Env, key: string, trace: seq<Entry>, log: seq<Event>)
    requires key !in Keys(trace)
    ensures var t := Resolve(env, key, trace, log).trace;
            Extends(t, trace) && |t| - |trace| <= Budget(env, trace, t) - (if |t| == |trace| then 0 else 1)
    decreases env.count.Keys - Keys(trace), 1, 0, 0
  {
    if env.Registered(key) {
      LoopBound(env, key, 0, trace, log);
      assert LoopPays(env, key, 0, trace, Loop(env, key, 0, trace, log).trace);
    }
  }

  /** What the loop may still spend: its own methods, unless `key` has yet to be entered and counts as new. */
  ghost function Own(env: Env, key: string, i: nat, trace: seq<Entry>): int
    requires env.Registered(key) && i <= env.count[key]
  {
    if key in Keys(trace) then env.count[key] - i else -1
  }

  ghost predicate LoopPays(env: Env, key: string, i: nat, trace: seq<Entry>, t: seq<Entry>)
    requires env.Registered(key) && i <= env.count[key]
  {
    |t| - |trace| <= Budget(env, trace, t) + Own(env, key, i, trace)
  }

  /** The loop after a round that does not end it. */
  lemma LoopGoesOn(env: Env, key: string, i: nat, trace: seq<Entry>, log: seq<Event>)
    requires env.Registered(key) && i < env.count[key] && (key in Keys(trace) || i == 0)
    requires CallMethod(env, key, i, trace, log).verdict != Return
    ensures var r := CallMethod(env, key, i, trace, log);
      key in Keys(r.out.trace) && Extends(r.out.trace, trace)
      && Loop(env, key, i, trace, log)
         == Loop(env, key, if r.verdict == Retry then i else i + 1, r.out.trace, r.out.log)
  {
  }

  lemma {:induction false} LoopBound(env: Env, key: string, i: nat, trace: seq<Entry>, log: seq<Event>)
    requires env.Registered(key) && i <= env.count[key] && (key in Keys(trace) || i == 0)
    ensures LoopPays(env, key, i, trace, Loop(env, key, i, trace, log).trace)
    decreases env.count.Keys - Keys(trace), if key in Keys(trace) then 2 else 0, env.count[key] - i, 1
  {
    if i < env.count[key] {
      var r := CallMethod(env, key, i, trace, log);
      RoundBound(env, key, i, trace, log);
      KeysExtend(trace, r.out.trace);
      if r.verdict != Return {
        var i' := if r.verdict == Retry then i else i + 1;
        LoopGoesOn(env, key, i, trace, log);
        LoopBound(env, key, i', r.out.trace, r.out.log);
        PayInTurn(env, key, i, trace, r, Loop(env, key, i', r.out.trace, r.out.log).trace);
      }
    }
  }

  lemma PayInTurn(env: Env, key: string, i: nat, trace: seq<Entry>, r: Round, t: seq<Entry>)
    requires env.Registered(key) && i < env.count[key] && r.verdict != Return && RoundPays(env, key, i, trace, r)
    requires Extends(r.out.trace, trace) && Extends(t, r.out.trace)
    requires LoopPays(env, key, if r.verdict == Retry then i else i + 1, r.out.trace, t)
    ensures LoopPays(env, key, i, trace, t)
  {
    BudgetSplits(env, trace, r.out.trace, t);
  }

  /** A round costs at most one method; a retry is paid by the key obtained in between. */
  ghost predicate RoundPays(env: Env, key: string, i: nat, trace: seq<Entry>, r: Round)
    requires env.Registered(key) && i < env.count[key]
  {
    |r.out.trace| - |trace| <= Budget(env, trace, r.out.trace) + Own(env, key, i, trace)
      - (if r.verdict == Return then 0 else Own(env, key, if r.verdict == Retry then i else i + 1, r.out.trace))
  }

  lemma {:induction false} RoundBound(env: Env, key: string, i: nat, trace: seq<Entry>, log: seq<Event>)
    requires env.Registered(key) && i < env.count[key] && (key in Keys(trace) || i == 0)
    ensures RoundPays(env, key, i, trace, CallMethod(env, key, i, trace, log))
    decreases env.count.Keys - Keys(trace), if key in Keys(trace) then 2 else 0, env.count[key] - i, 0
  {
    var (miss, err) := env.method_(log, key, i);
    var t := trace + [Entry(key, i, err)];
    KeysAppend(trace, Entry(key, i, err));
    if miss != "" && miss !in Keys(t) {
      var log1 := log + [Called(key, i, miss, err)];
      CallBound(env, miss, t, log1);
      var r := Resolve(env, miss, t, log1);
      MissBound(env, key, i, trace, err, r, CallMethod(env, key, i, trace, log).verdict);
    } else {
      HereBound(env, key, i, trace, err, CallMethod(env, key, i, trace, log));
    }
  }

  lemma HereBound(env: Env, key: string, i: nat, trace: seq<Entry>, err: Option<Err>, r: Round)
    requires env.Registered(key) && i < env.count[key] && (key in Keys(trace) || i == 0) && r.verdict != Retry
    requires var t := trace + [Entry(key, i, err)];
             |r.out.trace| == |t| && r.out.trace[..|trace|] == trace && r.out.trace[|trace|].key == key
    ensures RoundPays(env, key, i, trace, r)
  {
    var e := r.out.trace[|trace|];
    assert r.out.trace == trace + [e];
    BudgetOfKey(env, trace, e);
    KeysAppend(trace, e);
  }

  lemma MissBound(env: Env, key: string, i: nat, trace: seq<Entry>, err: Option<Err>, o: Out, verdict: Verdict)
    requires env.Registered(key) && i < env.count[key] && (key in Keys(trace) || i == 0)
    requires var t := trace + [Entry(key, i, err)];
             && Extends(o.trace, t) && (verdict != Return ==> |o.trace| > |t|)
             && |o.trace| - |t| <= Budget(env, t, o.trace) - (if |o.trace| == |t| then 0 else 1)
    ensures RoundPays(env, key, i, trace, Round(o, verdict))
  {
    var t := trace + [Entry(key, i, err)];
    BudgetOfKey(env, trace, Entry(key, i, err));
    BudgetSplits(env, trace, t, o.trace);
    KeysAppend(trace, Entry(key, i, err));
    KeysExtend(t, o.trace);
  }

  // ---------------------------------------------------------------- the trace tells what happened

  /** The trace read off the history from event o on: a node per call, with its error as reported or as judged. */
  function Replay(log: seq<Event>, o: nat): seq<Entry> {
    if |log| <= o then []
    else
      var s := Replay(log[..|log| - 1], o);
      match log[|log| - 1]
      case Called(key, i, miss, err) =>
        s + [Entry(key, i, if miss != "" && (miss == key || miss in Keys(s)) then Some(ErrKeyMissAgain) else err)]
      case Checked(key, ok) => if ok || s == [] then s else SetErr(s, Some(ErrKeyNotValid))
  }

  lemma {:induction false} ResolveReplays(env: Env, key: string, trace: seq<Entry>, log: seq<Event>, o: nat)
    requires key !in Keys(trace) && trace == Replay(log, o) && o <= |log|
    ensures var r := Resolve(env, key, trace, log); r.trace == Replay(r.log, o) && o <= |r.log|
    decreases env.count.Keys - Keys(trace), 1, 0, 0
  {
    if env.Registered(key) { LoopReplays(env, key, 0, trace, log, o); }
  }

  lemma {:induction false} LoopReplays(env: Env, key: string, i: nat, trace: seq<Entry>, log: seq<Event>, o: nat)
    requires env.Registered(key) && i <= env.count[key] && (key in Keys(trace) || i == 0) && trace == Replay(log, o) && o <= |log|
    ensures var r := Loop(env, key, i, trace, log); r.trace == Replay(r.log, o) && o <= |r.log|
    decreases env.count.Keys - Keys(trace), if key in Keys(trace) then 2 else 0, env.count[key] - i, 1
  {
    if i < env.count[key] {
      var Round(r, verdict) := CallMethod(env, key, i, trace, log);
      RoundReplays(env, key, i, trace, log, o);
      KeysExtend(trace, r.trace);
      if verdict != Return {
        var i' := if verdict == Retry then i else i + 1;
        LoopReplays(env, key, i', r.trace, r.log, o);
        assert Loop(env, key, i, trace, log) == Loop(env, key, i', r.trace, r.log);
      }
    }
  }

  lemma {:induction false} RoundReplays(env: Env, key: string, i: nat, trace: seq<Entry>, log: seq<Event>, o: nat)
    requires env.Registered(key) && i < env.count[key] && (key in Keys(trace) || i == 0) && trace == Replay(log, o) && o <= |log|
    ensures var r := CallMethod(env, key, i, trace, log).out; r.trace == Replay(r.log, o) && o <= |r.log|
    decreases env.count.Keys - Keys(trace), if key in Keys(trace) then 2 else 0, env.count[key] - i, 0
  {
    var (miss, err) := env.method_(log, key, i);
    var log1 := log + [Called(key, i, miss, err)];
    var t := trace + [Entry(key, i, err)];
    KeysAppend(trace, Entry(key, i, err));
    assert log1[..|log|] == log;
    if miss != "" {
      if miss in Keys(t) {
        assert SetErr(t, Some(ErrKeyMissAgain)) == trace + [Entry(key, i, Some(ErrKeyMissAgain))];
      } else {
        ResolveReplays(env, miss, t, log1, o);
      }
    } else if err == None {
      var ok := env.check(log1, key);
      assert (log1 + [Checked(key, ok)])[..|log1|] == log1;
    }
  }

  // ---------------------------------------------------------------- what a nil result means

  /** If o ends without an error, the check of key has just said yes. */
  predicate JustChecked(o: Out, key: string) {
    o.Err() == None ==> o.log != [] && o.log[|o.log| - 1] == Checked(key, true)
  }

  predicate Failed(o: Out) { o.Err().Some? }

  /** One turn of the loop: it is over, or it goes on from a state in which less is left to do. */
  lemma Turn(env: Env, key: string, i: nat, trace: seq<Entry>, log: seq<Event>) returns (o: Out, over: bool, i': nat)
    requires env.Registered(key) && i < env.count[key] && (key in Keys(trace) || i == 0)
    ensures over ==> Loop(env, key, i, trace, log) == o && JustChecked(o, key)
    ensures !over ==>
              && i <= i' <= env.count[key] && key in Keys(o.trace) && Extends(o.trace, trace)
              && Keys(trace) <= Keys(o.trace)
              && (i' == i ==> env.count.Keys - Keys(o.trace) < env.count.Keys - Keys(trace))
              && (i' == env.count[key] ==> Failed(Out(o.trace, o.log, None)))
              && Loop(env, key, i, trace, log) == Loop(env, key, i', o.trace, o.log)
  {
    var r := CallMethod(env, key, i, trace, log);
    KeysExtend(trace, r.out.trace);
    o, over, i' := r.out, r.verdict == Return, if r.verdict == Retry then i else i + 1;
    TurnEnds(env, key, i, trace, log);
  }

  lemma TurnEnds(env: Env, key: string, i: nat, trace: seq<Entry>, log: seq<Event>)
    requires env.Registered(key) && i < env.count[key] && (key in Keys(trace) || i == 0)
    ensures var r := CallMethod(env, key, i, trace, log);
            && (r.verdict == Return ==> JustChecked(r.out, key))
            && (r.verdict == Next ==> Failed(Out(r.out.trace, r.out.log, None)))
  {
  }

  lemma {:induction false} LoopChecked(env: Env, key: string, i: nat, trace: seq<Entry>, log: seq<Event>)
    requires env.Registered(key) && i <= env.count[key] && (key in Keys(trace) || i == 0)
    requires i == env.count[key] ==> Failed(Out(trace, log, None))
    ensures JustChecked(Loop(env, key, i, trace, log), key)
    decreases env.count.Keys - Keys(trace), if key in Keys(trace) then 2 else 0, env.count[key] - i
  {
    if i < env.count[key] {
      var o, over, i' := Turn(env, key, i, trace, log);
      if !over { LoopChecked(env, key, i', o.trace, o.log); }
    }
  }

  // ---------------------------------------------------------------- methods are tried in order

  /** Index of the method of `key` that was called last. */
  function LastIndex(trace: seq<Entry>, key: string): Option<nat> {
    if trace == [] then None
    else if trace[|trace| - 1].key == key then Some(trace[|trace| - 1].i)
    else LastIndex(trace[..|trace| - 1], key)
  }

  /** A call starts with method 0, repeats the last method of its key, or goes on to the next one. */
  predicate Follows(env: Env, trace: seq<Entry>, e: Entry) {
    e.i < env.Methods(e.key) &&
    match LastIndex(trace, e.key)
    case None => e.i == 0
    case Some(j) => e.i == j || e.i == j + 1
  }

  predicate InOrder(env: Env, trace: seq<Entry>) {
    trace == [] ||
    var n := |trace| - 1;
    InOrder(env, trace[..n]) && Follows(env, trace[..n], trace[n])
  }

  lemma {:induction false} InOrderRegistered(env: Env, trace: seq<Entry>)
    requires InOrder(env, trace)
    ensures Keys(trace) <= env.count.Keys
  {
    if trace != [] {
      var n := |trace| - 1;
      InOrderRegistered(env, trace[..n]);
      assert trace == trace[..n] + [trace[n]];
      KeysAppend(trace[..n], trace[n]);
    }
  }

  lemma InOrderAppend(env: Env, trace: seq<Entry>, e: Entry)
    requires InOrder(env, trace) && Follows(env, trace, e)
    ensures InOrder(env, trace + [e]) && LastIndex(trace + [e], e.key) == Some(e.i)
  {
    assert (trace + [e])[..|trace|] == trace;
  }

  lemma {:induction false} LastIndexAway(trace: seq<Entry>, t: seq<Entry>, key: string)
    requires Extends(t, trace) && forall k :: |trace| <= k < |t| ==> t[k].key != key
    ensures LastIndex(t, key) == LastIndex(trace, key)
  {
    if |t| > |trace| { LastIndexAway(trace, t[..|t| - 1], key); } else { assert t == trace; }
  }

  lemma {:induction false} LastIndexIn(trace: seq<Entry>, key: string)
    ensures LastIndex(trace, key).Some? <==> key in Keys(trace)
  {
    if trace != [] {
      var n := |trace| - 1;
      LastIndexIn(trace[..n], key);
      assert trace == trace[..n] + [trace[n]];
      KeysAppend(trace[..n], trace[n]);
    }
  }

  /** Method i of key may be called next. */
  predicate Ready(trace: seq<Entry>, key: string, i: nat) {
    match LastIndex(trace, key)
    case None => i == 0
    case Some(j) => i == j || i == j + 1
  }

  lemma {:induction false} ResolveInOrder(env: Env, key: string, trace: seq<Entry>, log: seq<Event>)
    requires key !in Keys(trace) && InOrder(env, trace)
    ensures InOrder(env, Resolve(env, key, trace, log).trace)
    decreases env.count.Keys - Keys(trace), 1, 0, 0
  {
    LastIndexIn(trace, key);
    if env.Registered(key) { LoopInOrder(env, key, 0, trace, log, Resolve(env, key, trace, log)); }
  }

  lemma {:induction false} LoopInOrder(env: Env, key: string, i: nat, trace: seq<Entry>, log: seq<Event>, o: Out)
    requires env.Registered(key) && i <= env.count[key] && (key in Keys(trace) || i == 0)
    requires InOrder(env, trace) && Ready(trace, key, i) && o == Loop(env, key, i, trace, log)
    ensures InOrder(env, o.trace)
    decreases env.count.Keys - Keys(trace), if key in Keys(trace) then 2 else 0, env.count[key] - i, 1
  {
    if i < env.count[key] {
      var r := CallMethod(env, key, i, trace, log);
      RoundInOrder(env, key, i, trace, log);
      KeysExtend(trace, r.out.trace);
      if r.verdict != Return {
        var i' := if r.verdict == Retry then i else i + 1;
        LoopGoesOn(env, key, i, trace, log);
        assert Ready(r.out.trace, key, i');
        LoopInOrder(env, key, i', r.out.trace, r.out.log, o);
      }
    }
  }

  /** A round in which a method misses a key that is not in the trace leaves the trace of obtaining that key. */
  lemma MissTrace(env: Env, key: string, i: nat, trace: seq<Entry>, log: seq<Event>)
    requires env.Registered(key) && i < env.count[key] && (key in Keys(trace) || i == 0)
    ensures var (miss, err) := env.method_(log, key, i); var t := trace + [Entry(key, i, err)];
      miss != "" && miss !in Keys(t) ==>
        CallMethod(env, key, i, trace, log).out.trace == Resolve(env, miss, t, log + [Called(key, i, miss, err)]).trace
  {
  }

  lemma {:induction false} RoundInOrder(env: Env, key: string, i: nat, trace: seq<Entry>, log: seq<Event>)
    requires env.Registered(key) && i < env.count[key] && (key in Keys(trace) || i == 0)
    requires InOrder(env, trace) && Ready(trace, key, i)
    ensures var t := CallMethod(env, key, i, trace, log).out.trace; InOrder(env, t) && LastIndex(t, key) == Some(i)
    decreases env.count.Keys - Keys(trace), if key in Keys(trace) then 2 else 0, env.count[key] - i, 0
  {
    var (miss, err) := env.method_(log, key, i);
    var e := Entry(key, i, err);
    var t := trace + [e];
    KeysAppend(trace, e);
    InOrderAppend(env, trace, e);
    if miss != "" && miss !in Keys(t) {
      var log1 := log + [Called(key, i, miss, err)];
      var u := Resolve(env, miss, t, log1).trace;
      ResolveInOrder(env, miss, t, log1);
      CallsOnlyNew(env, miss, t, log1);
      LastIndexAway(t, u, key);
      MissTrace(env, key, i, trace, log);
    } else {
      HereInOrder(env, key, i, trace, CallMethod(env, key, i, trace, log).out.trace);
    }
  }

  lemma HereInOrder(env: Env, key: string, i: nat, trace: seq<Entry>, t: seq<Entry>)
    requires InOrder(env, trace) && Ready(trace, key, i) && i < env.Methods(key)
    requires |t| == |trace| + 1 && t[..|trace|] == trace && t[|trace|].key == key && t[|trace|].i == i
    ensures InOrder(env, t) && LastIndex(t, key) == Some(i)
  {
  }

  // ---------------------------------------------------------------- main results for GetTrace

  /** The whole run for one key, from an empty trace, in any state of the world. */
  function GetTrace(env: Env, key: string, log: seq<Event>): Out { Resolve(env, key, [], log) }

  /**
   * Whatever the methods answer: at most the methods of the entered keys plus one retry for every entered
   * key but the first are called, in order of registration per key, and the trace replays the history.
   */
  lemma TraceFacts(env: Env, key: string, log: seq<Event>)
    ensures var r := GetTrace(env, key, log);
            && (r.trace != [] ==> |r.trace| <= Sum(env, Keys(r.trace)) + |Keys(r.trace)| - 1)
            && InOrder(env, r.trace)
            && r.trace == Replay(r.log, |log|)
  {
    CallBound(env, key, [], log);
    BudgetIsSum(env, GetTrace(env, key, log).trace);
    ResolveInOrder(env, key, [], log);
    ResolveReplays(env, key, [], log, |log|);
  }

  /** In terms of the registrations alone. */
  lemma TotalBound(env: Env, key: string, log: seq<Event>)
    ensures var t := GetTrace(env, key, log).trace; t != [] ==> |t| <= Sum(env, env.count.Keys) + |env.count.Keys| - 1
  {
    var t := GetTrace(env, key, log).trace;
    TraceFacts(env, key, log);
    InOrderRegistered(env, t);
    SumMonotone(env, Keys(t), env.count.Keys);
  }

  /** A nil result means that the check of the key has just said yes. */
  lemma NilMeansChecked(env: Env, key: string, log: seq<Event>)
    ensures JustChecked(GetTrace(env, key, log), key)
  {
    if env.Registered(key) { LoopChecked(env, key, 0, [], log); }
  }
}
