/** Small vocabulary shared by the models: optional values and counting over sequences. */
module Util {

  datatype Option<+T> = None | Some(value: T)

  newtype byte = b: int | 0 <= b < 256
  type Bytes = seq<byte>

  /** How many elements of `s` satisfy `p`. */
  function Count<T>(s: seq<T>, p: T -> bool): nat {
    if s == [] then 0 else Count(s[..|s| - 1], p) + (if p(s[|s| - 1]) then 1 else 0)
  }

  lemma CountAppend<T>(s: seq<T>, x: T, p: T -> bool)
    ensures Count(s + [x], p) == Count(s, p) + (if p(x) then 1 else 0)
  {
    assert (s + [x])[..|s|] == s;
  }

  lemma {:induction false} CountUpdate<T>(s: seq<T>, i: nat, x: T, p: T -> bool)
    requires i < |s|
    ensures Count(s[i := x], p) == Count(s, p) - (if p(s[i]) then 1 else 0) + (if p(x) then 1 else 0)
  {
    var n := |s| - 1;
    if i < n {
      assert s[i := x][..n] == s[..n][i := x];
      CountUpdate(s[..n], i, x, p);
    } else {
      assert s[i := x][..n] == s[..n];
    }
  }

  lemma {:induction false} CountPositive<T>(s: seq<T>, i: nat, p: T -> bool)
    requires i < |s| && p(s[i])
    ensures Count(s, p) >= 1
  {
    if i < |s| - 1 { CountPositive(s[..|s| - 1], i, p); }
  }

  lemma {:induction false} CountZero<T>(s: seq<T>, p: T -> bool)
    requires forall i :: 0 <= i < |s| ==> !p(s[i])
    ensures Count(s, p) == 0
  {
    if s != [] { CountZero(s[..|s| - 1], p); }
  }

  /** Distinct indices below `max` that avoid `hole` leave room for one more. */
  lemma DistinctBelow(s: seq<nat>, max: nat, hole: nat)
    requires forall k :: 0 <= k < |s| ==> s[k] < max && s[k] != hole
    requires forall j, k :: 0 <= j < k < |s| ==> s[j] != s[k]
    requires hole < max
    ensures |s| < max
  {
    var used := set k | 0 <= k < |s| :: s[k];
    SetOfDistinct(s, used);
    SetBelow(used + {hole}, max);
  }

  lemma {:induction false} SetOfDistinct<T>(s: seq<T>, u: set<T>)
    requires forall j, k :: 0 <= j < k < |s| ==> s[j] != s[k]
    requires u == set k | 0 <= k < |s| :: s[k]
    ensures |u| == |s|
  {
    if s != [] {
      var n := |s| - 1;
      var u' := set k | 0 <= k < n :: s[..n][k];
      SetOfDistinct(s[..n], u');
      assert u == u' + {s[n]};
    }
  }

  lemma {:induction false} SetBelow(u: set<nat>, n: nat)
    requires forall x :: x in u ==> x < n
    ensures |u| <= n
  {
    if n > 0 { SetBelow(u - {n - 1}, n - 1); } else { assert u == {}; }
  }

  lemma Regroup<T>(a: seq<T>, b: seq<T>, c: seq<T>)
    ensures a + b + c == a + (b + c)
  {
  }
}
