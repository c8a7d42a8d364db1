/** keyFunc.KeyFunc: getTrace in memory, building a doubly linked list of nodes around the callbacks. */
module KeyFunc {
  import opened Util
  import R = Resolver

  class Node {
    const Key: string
    const MethodIndex: nat
    var Err: Option<R.Err>
    var perp: Node?
    var nextp: Node?
    ghost const pos: nat // place in its list

    constructor (key: string, methodI: nat, err: Option<R.Err>, ghost pos: nat)
      ensures Key == key && MethodIndex == methodI && Err == err && perp == null && nextp == null && this.pos == pos
    {
      Key, MethodIndex, Err := key, methodI, err;
      this.pos := pos;
      perp, nextp := null, null;
    }

    /** From the k-th node of a list: its first node. */
    method First(ghost ns: seq<Node>, ghost k: nat) returns (f: Node)
      requires Chain(ns) && k < |ns| && ns[k] == this
      ensures f == ns[0]
    {
      f := this;
      ghost var j := k;
      while f.perp != null
        invariant 0 <= j < |ns| && ns[j] == f
        decreases j
      {
        assert Linked(ns, j);
        f := f.perp;
        j := j - 1;
      }
      assert Linked(ns, j);
    }

    /** From the k-th node of a list: its last node. */
    method Last(ghost ns: seq<Node>, ghost k: nat) returns (f: Node)
      requires Chain(ns) && k < |ns| && ns[k] == this
      ensures f == ns[|ns| - 1]
    {
      f := this;
      ghost var j := k;
      while f.nextp != null
        invariant 0 <= j < |ns| && ns[j] == f
        decreases |ns| - j
      {
        assert Linked(ns, j);
        f := f.nextp;
        j := j + 1;
      }
      assert Linked(ns, j);
    }

    /** Everything Asc yields, in order. */
    method Asc(ghost ns: seq<Node>, ghost k: nat) returns (all: seq<Node>)
      requires Chain(ns) && k < |ns| && ns[k] == this
      ensures all == ns
    {
      all := [];
      var i: Node? := First(ns, k);
      while i != null
        invariant |all| <= |ns| && all == ns[..|all|] && i == (if |all| == |ns| then null else ns[|all|])
        decreases |ns| - |all|
      {
        assert Linked(ns, |all|);
        all := all + [i];
        i := i.nextp;
      }
    }

    /** Everything Desc yields, in order: the list backwards. */
    method Desc(ghost ns: seq<Node>, ghost k: nat) returns (all: seq<Node>)
      requires Chain(ns) && k < |ns| && ns[k] == this
      ensures |all| == |ns| && forall j :: 0 <= j < |ns| ==> all[j] == ns[|ns| - 1 - j]
    {
      all := [];
      var i: Node? := Last(ns, k);
      while i != null
        invariant |all| <= |ns| && i == (if |all| == |ns| then null else ns[|ns| - 1 - |all|])
        invariant forall j :: 0 <= j < |all| ==> all[j] == ns[|ns| - 1 - j]
        decreases |ns| - |all|
      {
        assert Linked(ns, |ns| - 1 - |all|);
        all := all + [i];
        i := i.perp;
      }
    }
  }

  /** The k-th node is linked to its neighbours in the list. */
  ghost predicate Linked(ns: seq<Node>, k: nat)
    requires k < |ns|
    reads ns[k]
  {
    && ns[k].pos == k
    && ns[k].perp == (if k == 0 then null else ns[k - 1])
    && ns[k].nextp == (if k == |ns| - 1 then null else ns[k + 1])
  }

  /** The nodes form one list, linked both ways. */
  ghost predicate Chain(ns: seq<Node>)
    reads ns
  {
    forall k :: 0 <= k < |ns| ==> Linked(ns, k)
  }

  function Value(n: Node): R.Entry
    reads n
  {
    R.Entry(n.Key, n.MethodIndex, n.Err)
  }

  ghost predicate At(ns: seq<Node>, t: seq<R.Entry>, k: nat)
    requires k < |ns| == |t|
    reads ns[k]
  {
    Linked(ns, k) && Value(ns[k]) == t[k]
  }

  /** The list ns holds the trace t. */
  ghost predicate Holds(ns: seq<Node>, t: seq<R.Entry>)
    reads ns
  {
    |t| == |ns| && forall k :: 0 <= k < |ns| ==> At(ns, t, k)
  }

  lemma HoldsChain(ns: seq<Node>, t: seq<R.Entry>)
    requires Holds(ns, t)
    ensures Chain(ns)
  {
    forall k | 0 <= k < |ns| ensures Linked(ns, k) { assert At(ns, t, k); }
  }

  function OrNull(ns: seq<Node>): Node? { if ns == [] then null else ns[|ns| - 1] }

  /** Whether the loop over trace.Desc() meets a node for missKey. */
  method InTrace(trace: Node, missKey: string, ghost ns: seq<Node>, ghost t: seq<R.Entry>) returns (found: bool)
    requires Holds(ns, t) && OrNull(ns) == trace
    ensures found <==> missKey in R.Keys(t)
  {
    HoldsChain(ns, t);
    var desc := trace.Desc(ns, |ns| - 1);
    for j := 0 to |desc|
      invariant forall q :: 0 <= q < j ==> desc[q].Key != missKey
    {
      if desc[j].Key == missKey {
        assert At(ns, t, |ns| - 1 - j);
        return true;
      }
    }
    forall k | 0 <= k < |ns| ensures t[k].key != missKey { assert desc[|ns| - 1 - k] == ns[k] && At(ns, t, k); }
    return false;
  }

  /** A new node behind the last one. */
  method Append(trace: Node?, key: string, i: nat, ghost ns: seq<Node>, ghost t: seq<R.Entry>) returns (tmpp: Node)
    requires Holds(ns, t) && OrNull(ns) == trace
    modifies Nodes(ns)
    ensures fresh(tmpp) && Holds(ns + [tmpp], t + [R.Entry(key, i, None)])
  {
    assert trace != null ==> At(ns, t, |ns| - 1);
    tmpp := new Node(key, i, None, |ns|);
    if trace != null {
      assert trace in ns && trace in Nodes(ns) by { assert ns[|ns| - 1] == trace; }
      trace.nextp := tmpp;
      tmpp.perp := trace;
    }
    ghost var ns', t' := ns + [tmpp], t + [R.Entry(key, i, None)];
    forall k | 0 <= k < |ns'| ensures At(ns', t', k) {
      if k < |ns| { assert old(At(ns, t, k)) && (k < |ns| - 1 ==> ns[k].pos != trace.pos); }
    }
  }

  /** trace.Err = e on the last node. */
  method SetErr(trace: Node, e: Option<R.Err>, ghost ns: seq<Node>, ghost t: seq<R.Entry>)
    requires Holds(ns, t) && OrNull(ns) == trace
    modifies trace
    ensures Holds(ns, R.SetErr(t, e))
  {
    assert At(ns, t, |ns| - 1);
    trace.Err := e;
    forall k | 0 <= k < |ns| ensures At(ns, R.SetErr(t, e), k) {
      assert old(At(ns, t, k)) && (k < |ns| - 1 ==> ns[k].pos != trace.pos);
      assert k < |ns| - 1 ==> R.SetErr(t, e)[..|t| - 1][k] == t[..|t| - 1][k];
    }
  }

  /** r and the list ns are what `out` says. */
  ghost predicate Shows(out: R.Out, r: Node, ns: seq<Node>)
    reads r, ns
  {
    && Holds(ns, out.trace)
    && match out.stray
       case None => OrNull(ns) == r
       case Some(k) => r !in ns && Value(r) == R.Entry(k, 0, Some(R.ErrKeyNotReg)) && r.perp == null && r.nextp == null
  }

  /** Then r carries the error of the result. */
  lemma ShowsErr(out: R.Out, r: Node, ns: seq<Node>)
    requires Shows(out, r, ns)
    ensures r.Err == out.Err()
  {
    if out.stray == None { assert At(ns, out.trace, |ns| - 1); }
  }

  ghost function Nodes(ns: seq<Node>): set<object> { set n | n in ns :: n }

  /** ns2 is ns with new nodes behind it, and r is new or one of them. */
  twostate predicate Grown(ns: seq<Node>, new ns2: seq<Node>, new r: Node) {
    |ns| <= |ns2| && ns2[..|ns|] == ns && fresh(Nodes(ns2) - Nodes(ns)) && (r in ns2 || fresh(r))
  }

  twostate lemma GrownTwice(ns: seq<Node>, new ns1: seq<Node>, new ns2: seq<Node>, new r: Node)
    requires |ns| <= |ns1| <= |ns2| && ns1[..|ns|] == ns && ns2[..|ns1|] == ns1
    requires fresh(Nodes(ns1) - Nodes(ns)) && fresh(Nodes(ns2) - Nodes(ns1))
    requires r in ns2 || fresh(r)
    ensures Grown(ns, ns2, r)
  {
    assert ns2[..|ns|] == ns1[..|ns|];
  }

  /** How a round goes on after its call: with the trace and the history as they are then, and the answer. */
  ghost function AfterCall(env: R.Env, key: string, t: seq<R.Entry>, log: seq<R.Event>, miss: string, err: Option<R.Err>): R.Round
    requires t != []
  {
    if miss != "" then
      if miss in R.Keys(t) then R.Round(R.Out(R.SetErr(t, Some(R.ErrKeyMissAgain)), log, None), R.Return)
      else
        var out := R.Resolve(env, miss, t, log);
        R.Round(out, if out.Err() == None then R.Retry else if R.IsNext(out.Err()) then R.Next else R.Return)
    else if err == None then
      if env.check(log, key) then R.Round(R.Out(t, log + [R.Checked(key, true)], None), R.Return)
      else R.Round(R.Out(R.SetErr(t, Some(R.ErrKeyNotValid)), log + [R.Checked(key, false)], None), R.Next)
    else R.Round(R.Out(t, log, None), if R.IsNext(err) then R.Next else R.Return)
  }

  lemma CallThenAfter(env: R.Env, key: string, i: nat, t: seq<R.Entry>, log: seq<R.Event>)
    requires env.Registered(key) && i < env.count[key] && (key in R.Keys(t) || i == 0)
    ensures var (miss, err) := env.method_(log, key, i);
      R.CallMethod(env, key, i, t, log)
      == AfterCall(env, key, t + [R.Entry(key, i, err)], log + [R.Called(key, i, miss, err)], miss, err)
  {
  }

  class KeyFunc {
    const env: R.Env              // what the registered functions do
    var keyGet: map<string, nat>  // how many methods each key has
    var world: seq<R.Event>       // what the registered functions were asked and answered so far

    ghost predicate Valid()
      reads this
    {
      keyGet == env.count
    }

    method Call(key: string, i: nat) returns (missKey: string, err: Option<R.Err>)
      modifies this`world
      ensures (missKey, err) == env.method_(old(world), key, i)
      ensures world == old(world) + [R.Called(key, i, missKey, err)]
    {
      var answer := env.method_(world, key, i);
      missKey, err := answer.0, answer.1;
      world := world + [R.Called(key, i, missKey, err)];
    }

    method Check(key: string) returns (ok: bool)
      modifies this`world
      ensures ok == env.check(old(world), key) && world == old(world) + [R.Checked(key, ok)]
    {
      ok := env.check(world, key);
      world := world + [R.Checked(key, ok)];
    }

    method GetTrace(key: string) returns (r: Node, ghost ns: seq<Node>)
      requires Valid()
      modifies this`world
      ensures fresh(Nodes(ns)) && fresh(r)
      ensures var out := R.GetTrace(env, key, old(world)); Shows(out, r, ns) && world == out.log
    {
      r, ns := getTrace(key, null, [], []);
    }

    method getTrace(key: string, trace: Node?, ghost ns: seq<Node>, ghost t: seq<R.Entry>) returns (r: Node, ghost ns2: seq<Node>)
      requires Valid() && Holds(ns, t) && OrNull(ns) == trace && key !in R.Keys(t)
      modifies this`world, Nodes(ns)
      ensures Grown(ns, ns2, r)
      ensures var out := R.Resolve(env, key, t, old(world)); Shows(out, r, ns2) && world == out.log
      decreases env.count.Keys - R.Keys(t), 1, 0, 0
    {
      if key !in keyGet || keyGet[key] == 0 {
        r := new Node(key, 0, Some(R.ErrKeyNotReg), 0);
        return r, ns;
      }
      r, ns2 := Methods(key, trace, ns, t, R.Loop(env, key, 0, t, world));
    }

    /** The loop over the registered methods; `goal` is what it ends in. */
    method Methods(key: string, trace: Node?, ghost ns: seq<Node>, ghost t: seq<R.Entry>, ghost goal: R.Out)
      returns (r: Node, ghost ns2: seq<Node>)
      requires Valid() && Holds(ns, t) && OrNull(ns) == trace && key !in R.Keys(t) && env.Registered(key)
      requires goal == R.Loop(env, key, 0, t, world)
      modifies this`world, Nodes(ns)
      ensures Grown(ns, ns2, r) && Shows(goal, r, ns2) && world == goal.log
      decreases env.count.Keys - R.Keys(t), 0, env.count[key], 2
    {
      var fs := keyGet[key];
      var i, over;
      ghost var t2;
      r, over, i, ns2, t2 := Turn(key, 0, trace, ns, t, goal);
      while !over && i < fs
        invariant Valid() && (!over ==> i <= fs)
        invariant Grown(ns, ns2, r) && (over ==> Shows(goal, r, ns2) && world == goal.log)
        invariant !over ==> Pending(goal, key, i, ns2, t2) && OrNull(ns2) == r && env.count.Keys - R.Keys(t2) < env.count.Keys - R.Keys(t)
        decreases !over, env.count.Keys - R.Keys(t2), fs as int - i
      {
        ghost var ns1 := ns2;
        r, over, i, ns2, t2 := Turn(key, i, r, ns2, t2, goal);
        GrownTwice(ns, ns1, ns2, r);
      }
      if !over { PendingEnds(goal, key, i, r, ns2, t2); }
    }

    /** Behind the last method the loop has ended. */
    lemma PendingEnds(goal: R.Out, key: string, i: nat, r: Node, ns: seq<Node>, t: seq<R.Entry>)
      requires Pending(goal, key, i, ns, t) && i == env.count[key] && OrNull(ns) == r
      ensures Shows(goal, r, ns) && world == goal.log
    {
      assert goal == R.Out(t, world, None);
    }

    /** From method i on, the loop will end in `goal`. */
    ghost predicate Pending(goal: R.Out, key: string, i: nat, ns: seq<Node>, t: seq<R.Entry>)
      reads this, ns
    {
      && env.Registered(key) && i <= env.count[key] && key in R.Keys(t) && Holds(ns, t)
      && goal == R.Loop(env, key, i, t, world)
    }

    /** One turn of that loop: it is over, or goes on with method i'. */
    method Turn(key: string, i: nat, trace: Node?, ghost ns: seq<Node>, ghost t: seq<R.Entry>, ghost goal: R.Out)
      returns (r: Node, over: bool, i': nat, ghost ns2: seq<Node>, ghost t2: seq<R.Entry>)
      requires Valid() && Holds(ns, t) && OrNull(ns) == trace
      requires env.Registered(key) && i < env.count[key] && (key in R.Keys(t) || i == 0)
      requires goal == R.Loop(env, key, i, t, world)
      modifies this`world, Nodes(ns)
      ensures Grown(ns, ns2, r) && (over ==> Shows(goal, r, ns2) && world == goal.log)
      ensures !over ==>
                && Pending(goal, key, i', ns2, t2) && OrNull(ns2) == r && i <= i'
                && (var now, later := env.count.Keys - R.Keys(t), env.count.Keys - R.Keys(t2);
                    later < now || (later == now && i < i'))
      decreases env.count.Keys - R.Keys(t), if key in R.Keys(t) then 2 else 0, env.count[key] - i, 1
    {
      ghost var round := R.CallMethod(env, key, i, t, world);
      var verdict;
      r, verdict, ns2 := Round(key, i, trace, ns, t);
      R.KeysExtend(t, round.out.trace);
      t2, over := round.out.trace, verdict == R.Return;
      i' := if verdict == R.Next then i + 1 else i;
    }

    /** One round: a node, a call, the key it misses or the check. */
    method Round(key: string, i: nat, trace: Node?, ghost ns: seq<Node>, ghost t: seq<R.Entry>)
      returns (r: Node, verdict: R.Verdict, ghost ns2: seq<Node>)
      requires Valid() && Holds(ns, t) && OrNull(ns) == trace
      requires env.Registered(key) && i < env.count[key] && (key in R.Keys(t) || i == 0)
      modifies this`world, Nodes(ns)
      ensures Grown(ns, ns2, r)
      ensures var round := R.CallMethod(env, key, i, t, old(world));
              verdict == round.verdict && Shows(round.out, r, ns2) && world == round.out.log
      decreases env.count.Keys - R.Keys(t), if key in R.Keys(t) then 2 else 0, env.count[key] - i, 0
    {
      CallThenAfter(env, key, i, t, world);
      var missKey, err;
      r, missKey, err := Begin(key, i, trace, ns, t);
      ghost var ns1, t1 := ns + [r], t + [R.Entry(key, i, err)];
      R.KeysAppend(t, R.Entry(key, i, err));
      r, verdict, ns2 := After(key, missKey, err, r, ns1, t1);
      GrownTwice(ns, ns1, ns2, r);
    }

    /** The rest of a round, when method i has answered. */
    method After(key: string, missKey: string, err: Option<R.Err>, trace: Node, ghost ns: seq<Node>, ghost t: seq<R.Entry>)
      returns (r: Node, verdict: R.Verdict, ghost ns2: seq<Node>)
      requires Valid() && Holds(ns, t) && OrNull(ns) == trace && key in R.Keys(t) && key in env.count && t[|t| - 1].err == err
      modifies this`world, Nodes(ns)
      ensures Grown(ns, ns2, r)
      ensures var round := AfterCall(env, key, t, old(world), missKey, err);
              verdict == round.verdict && Shows(round.out, r, ns2) && world == round.out.log
      decreases env.count.Keys - R.Keys(t), 1, 2, 0
    {
      r, ns2 := trace, ns;
      assert ns[|ns| - 1] == trace && trace in ns;
      assert trace in Nodes(ns);
      if missKey != "" {
        var found := InTrace(trace, missKey, ns, t);
        if found {
          SetErr(r, Some(R.ErrKeyMissAgain), ns, t);
          return r, R.Return, ns2;
        }
        r, verdict, ns2 := Obtain(missKey, r, ns, t);
      } else if err == None {
        r, verdict := Judge(key, r, ns, t);
      } else {
        verdict := if R.IsNext(err) then R.Next else R.Return;
      }
    }

    /** The key that is missed, and how to go on when it has been obtained or not. */
    method Obtain(missKey: string, trace: Node, ghost ns: seq<Node>, ghost t: seq<R.Entry>)
      returns (r: Node, verdict: R.Verdict, ghost ns2: seq<Node>)
      requires Valid() && Holds(ns, t) && OrNull(ns) == trace && missKey !in R.Keys(t)
      modifies this`world, Nodes(ns)
      ensures Grown(ns, ns2, r)
      ensures var out := R.Resolve(env, missKey, t, old(world));
              Shows(out, r, ns2) && world == out.log
              && verdict == if out.Err() == None then R.Retry else if R.IsNext(out.Err()) then R.Next else R.Return
      decreases env.count.Keys - R.Keys(t), 1, 1, 0
    {
      r, ns2 := getTrace(missKey, trace, ns, t);
      ShowsErr(R.Resolve(env, missKey, t, old(world)), r, ns2);
      verdict := if r.Err == None then R.Retry else if R.IsNext(r.Err) then R.Next else R.Return;
    }

    /** Up to trace.Err = err: a node, the call, its error. */
    method Begin(key: string, i: nat, trace: Node?, ghost ns: seq<Node>, ghost t: seq<R.Entry>)
      returns (r: Node, missKey: string, err: Option<R.Err>)
      requires Holds(ns, t) && OrNull(ns) == trace
      modifies this`world, Nodes(ns)
      ensures fresh(r) && (missKey, err) == env.method_(old(world), key, i)
      ensures world == old(world) + [R.Called(key, i, missKey, err)]
      ensures Holds(ns + [r], t + [R.Entry(key, i, err)])
    {
      r := Append(trace, key, i, ns, t);
      missKey, err := Call(key, i);
      SetErr(r, err, ns + [r], t + [R.Entry(key, i, None)]);
      assert R.SetErr(t + [R.Entry(key, i, None)], err) == t + [R.Entry(key, i, err)];
    }

    /** The check after a call without error. */
    method Judge(key: string, trace: Node, ghost ns: seq<Node>, ghost t: seq<R.Entry>) returns (r: Node, verdict: R.Verdict)
      requires Holds(ns, t) && OrNull(ns) == trace
      modifies this`world, trace
      ensures r == trace
      ensures var ok := env.check(old(world), key);
              && world == old(world) + [R.Checked(key, ok)]
              && verdict == (if ok then R.Return else R.Next)
              && Holds(ns, if ok then t else R.SetErr(t, Some(R.ErrKeyNotValid)))
    {
      r := trace;
      var ok := Check(key);
      verdict := R.Return;
      if !ok {
        SetErr(trace, Some(R.ErrKeyNotValid), ns, t);
        verdict := R.Next;
      }
    }
  }
}
