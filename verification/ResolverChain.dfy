/** keyFunc: a chain of keys, each of whose methods misses the next one first: the bound on the calls is reached. */
module ResolverChain {
  import opened Util
  import opened Resolver

  /** The j-th key. */
  function Key(j: nat): (k: string)
    ensures |k| == j + 1
  {
    seq(j + 1, _ => 'a')
  }

  lemma KeyNext(j: nat)
    ensures Key(j) + "a" == Key(j + 1)
  {
  }

  /** A method of `key` has been called. */
  predicate CalledIn(log: seq<Event>, key: string) {
    exists k :: 0 <= k < |log| && log[k].Called? && log[k].key == key
  }

  function KeySet(n: nat): (s: set<string>)
    ensures forall j :: 0 <= j < n ==> Key(j) in s
    ensures forall x :: x in s ==> |x| <= n
  {
    if n == 0 then {} else KeySet(n - 1) + {Key(n - 1)}
  }

  /** n keys with a method each; every key but the last misses the next one until that has been called. */
  function Chain(n: nat): Env {
    Env(map k | k in KeySet(n) :: 1,
        (log: seq<Event>, key: string, i: nat) =>
          if |key| < n && !CalledIn(log, key + "a") then (key + "a", None) else ("", None),
        (log: seq<Event>, key: string) => true)
  }

  lemma {:induction false} SumOfOnes(env: Env, s: set<string>)
    requires forall x :: x in s ==> env.Methods(x) == 1
    ensures Sum(env, s) == |s|
  {
    if x :| x in s {
      SumTakes(env, s, x);
      SumOfOnes(env, s - {x});
    }
  }

  lemma {:induction false} KeySetSize(n: nat)
    ensures |KeySet(n)| == n
  {
    if n > 0 {
      KeySetSize(n - 1);
      assert Key(n - 1) !in KeySet(n - 1);
    }
  }

  /** Nothing about keys from the j-th on has happened. */
  predicate Untouched(trace: seq<Entry>, log: seq<Event>, j: nat) {
    && (forall k :: 0 <= k < |trace| ==> |trace[k].key| <= j)
    && (forall k :: 0 <= k < |log| && log[k].Called? ==> |log[k].key| <= j)
  }

  /** The last call for a key whose next one, if there is any, has been obtained. */
  lemma LastCall(n: nat, j: nat, trace: seq<Entry>, log: seq<Event>)
    requires j < n && (j + 1 == n || CalledIn(log, Key(j + 1)))
    ensures var e := Entry(Key(j), 0, None);
      Chain(n).Registered(Key(j)) && CallMethod(Chain(n), Key(j), 0, trace, log)
      == Round(Out(trace + [e], log + [Called(Key(j), 0, "", None)] + [Checked(Key(j), true)], None), Return)
  {
    KeyNext(j);
    assert Chain(n).method_(log, Key(j), 0) == ("", None);
  }

  /** The j-th key costs one call of every method from its own on, and one more of every one but the last. */
  lemma {:induction false} ChainCosts(n: nat, j: nat, trace: seq<Entry>, log: seq<Event>)
    requires j < n && Untouched(trace, log, j)
    ensures Key(j) !in Keys(trace)
    ensures var r := Resolve(Chain(n), Key(j), trace, log);
      |r.trace| == |trace| + 2 * (n - j) - 1 && r.stray.None? && r.Err().None? && CalledIn(r.log, Key(j))
    decreases n - j
  {
    if j + 1 == n {
      LastCall(n, j, trace, log);
      var log2 := log + [Called(Key(j), 0, "", None)] + [Checked(Key(j), true)];
      assert log2[|log|] == Called(Key(j), 0, "", None);
    } else {
      var e, log1 := Entry(Key(j), 0, None), log + [Called(Key(j), 0, Key(j + 1), None)];
      var t := trace + [e];
      FirstCall(n, j, trace, log);
      KeysAppend(trace, e);
      ChainCosts(n, j + 1, t, log1);
      var r := Resolve(Chain(n), Key(j + 1), t, log1);
      ChainStep(n, j, trace, log, r);
    }
  }

  /** A key whose first call misses the next one, which is then obtained. */
  lemma ChainStep(n: nat, j: nat, trace: seq<Entry>, log: seq<Event>, r: Out)
    requires j + 1 < n && Untouched(trace, log, j) && Key(j) !in Keys(trace)
    requires var t := trace + [Entry(Key(j), 0, None)];
      Key(j + 1) !in Keys(t) && r == Resolve(Chain(n), Key(j + 1), t, log + [Called(Key(j), 0, Key(j + 1), None)])
    requires r.stray.None? && r.Err().None? && CalledIn(r.log, Key(j + 1))
    ensures var o := Resolve(Chain(n), Key(j), trace, log);
      |o.trace| == |r.trace| + 1 && o.stray.None? && o.Err().None? && CalledIn(o.log, Key(j))
  {
    var e := Entry(Key(j), 0, None);
    FirstCall(n, j, trace, log);
    KeysAppend(trace, e);
    KeysExtend(trace + [e], r.trace);
    assert CallMethod(Chain(n), Key(j), 0, trace, log) == Round(r, Retry);
    LastCall(n, j, r.trace, r.log);
    var log2 := r.log + [Called(Key(j), 0, "", None)] + [Checked(Key(j), true)];
    assert log2[|r.log|] == Called(Key(j), 0, "", None);
    assert Loop(Chain(n), Key(j), 0, r.trace, r.log) == Out(r.trace + [e], log2, None);
  }

  /** The first call for a key that is not the last: it misses the next one. */
  lemma FirstCall(n: nat, j: nat, trace: seq<Entry>, log: seq<Event>)
    requires j + 1 < n && Untouched(trace, log, j)
    ensures Chain(n).Registered(Key(j)) && Chain(n).method_(log, Key(j), 0) == (Key(j + 1), None)
    ensures Untouched(trace + [Entry(Key(j), 0, None)], log + [Called(Key(j), 0, Key(j + 1), None)], j + 1)
  {
    KeyNext(j);
  }

  /** With n keys the most calls there can be: their methods, and one retry for every key but the first. */
  lemma BudgetReached(n: nat)
    requires n > 0
    ensures var t := GetTrace(Chain(n), Key(0), []).trace;
      |t| == Sum(Chain(n), Chain(n).count.Keys) + |Chain(n).count.Keys| - 1 == 2 * n - 1
  {
    ChainCosts(n, 0, [], []);
    KeySetSize(n);
    assert Chain(n).count.Keys == KeySet(n);
    SumOfOnes(Chain(n), KeySet(n));
  }
}
