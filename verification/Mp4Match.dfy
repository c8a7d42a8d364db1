/** decoder/mp4: matching several box patterns at once in a listing of boxes. */
module Mp4Match {
  import opened Util
  import opened Mp4Box

  type Pattern = seq<Name>

  /** One call of the f-th function, with the entries up to index `last`. */
  datatype Call = Call(f: nat, window: seq<Ie>, last: nat)

  /** What a called function answers: whether its pattern is to be dropped, and its error. */
  datatype Reply<+E> = Reply(drop: bool, err: Option<E>)

  /** The functions: what the last call of a history is answered. They may depend on all earlier calls. */
  type Functions<!E> = seq<Call> -> Reply<E>

  // ----- One pattern on its own -----

  /** How much of p is matched before entry n when p is the only pattern. */
  function Matched(p: Pattern, ies: seq<Ie>, n: nat): (c: nat)
    requires p != [] && n <= |ies|
    ensures c < |p| && c <= n
  {
    if n == 0 then 0
    else
      var c := Matched(p, ies, n - 1);
      if ies[n - 1].n == p[c] && c + 1 < |p| then c + 1 else 0
  }

  /** p is completed by entry n. */
  predicate FiresAt(p: Pattern, ies: seq<Ie>, n: nat)
    requires p != [] && n < |ies|
  {
    Matched(p, ies, n) == |p| - 1 && ies[n].n == p[|p| - 1]
  }

  /** The entries from `start` on have the names of p. */
  predicate NamesAt(p: Pattern, ies: seq<Ie>, start: int) {
    0 <= start && start + |p| <= |ies| && forall k :: 0 <= k < |p| ==> ies[start + k].n == p[k]
  }

  /** What is matched are the last entries read. */
  lemma {:induction false} MatchedSuffix(p: Pattern, ies: seq<Ie>, n: nat)
    requires p != [] && n <= |ies|
    ensures var c := Matched(p, ies, n); forall k :: 0 <= k < c ==> ies[n - c + k].n == p[k]
    ensures var c := Matched(p, ies, n); c > 0 ==> Matched(p, ies, n - c) == 0
  {
    if n > 0 {
      MatchedSuffix(p, ies, n - 1);
      var c, b := Matched(p, ies, n), Matched(p, ies, n - 1);
      forall k | 0 <= k < c
        ensures ies[n - c + k].n == p[k]
      {
        assert c == b + 1;
        if k < b { assert ies[n - 1 - b + k].n == p[k]; }
      }
    }
  }

  lemma {:induction false} MatchedGrows(p: Pattern, ies: seq<Ie>, start: nat, k: nat)
    requires p != [] && NamesAt(p, ies, start) && Matched(p, ies, start) == 0 && k < |p|
    ensures Matched(p, ies, start + k) == k
  {
    if k > 0 {
      MatchedGrows(p, ies, start, k - 1);
      assert ies[start + (k - 1)].n == p[k - 1];
    }
  }

  /** A pattern fires at the end of an occurrence exactly when nothing of it was matched before the occurrence. */
  lemma FiresIff(p: Pattern, ies: seq<Ie>, n: nat)
    requires p != [] && n < |ies|
    ensures FiresAt(p, ies, n) <==>
            n + 1 >= |p| && NamesAt(p, ies, n + 1 - |p|) && Matched(p, ies, n + 1 - |p|) == 0
  {
    if FiresAt(p, ies, n) {
      MatchedSuffix(p, ies, n);
      var start := n + 1 - |p|;
      forall k | 0 <= k < |p|
        ensures ies[start + k].n == p[k]
      {
        if k < |p| - 1 { assert ies[n - (|p| - 1) + k].n == p[k]; }
      }
    }
    if n + 1 >= |p| && NamesAt(p, ies, n + 1 - |p|) && Matched(p, ies, n + 1 - |p|) == 0 {
      MatchedGrows(p, ies, n + 1 - |p|, |p| - 1);
      assert ies[n + 1 - |p| + (|p| - 1)].n == p[|p| - 1];
    }
  }

  /** An occurrence is missed when its first entry ends a false start: a mismatching entry is not tried as a beginning. */
  lemma MissedAfterFalseStart(p: Pattern, ies: seq<Ie>)
    requires |p| == 2 && p[0] != p[1]
    requires |ies| == 3 && ies[0].n == p[0] && ies[1].n == p[0] && ies[2].n == p[1]
    ensures NamesAt(p, ies, 1) && !FiresAt(p, ies, 0) && !FiresAt(p, ies, 1) && !FiresAt(p, ies, 2)
  {
    assert Matched(p, ies, 1) == 1;
    assert Matched(p, ies, 2) == 0;
  }

  /** Two firings of one pattern: the later window starts after the earlier one has ended. */
  lemma WindowsApart(p: Pattern, ies: seq<Ie>, n: nat, n': nat)
    requires p != [] && n < n' < |ies| && FiresAt(p, ies, n) && FiresAt(p, ies, n')
    ensures n < n' + 1 - |p|
  {
    assert Matched(p, ies, n + 1) == 0;
    MatchedSince(p, ies, n + 1, n');
  }

  lemma {:induction false} MatchedSince(p: Pattern, ies: seq<Ie>, from: nat, n: nat)
    requires p != [] && from <= n <= |ies| && Matched(p, ies, from) == 0
    ensures Matched(p, ies, n) <= n - from
  {
    if from < n { MatchedSince(p, ies, from, n - 1); }
  }

  // ----- All patterns, each on its own -----

  predicate NonEmpty(pats: seq<Pattern>) { forall f :: 0 <= f < |pats| ==> pats[f] != [] }

  predicate InRange(pats: seq<Pattern>, fs: seq<nat>) { forall i :: 0 <= i < |fs| ==> fs[i] < |pats| }

  /** The patterns still active, the calls so far, and the error that ended the run. */
  datatype Progress<+E> = Progress(fs: seq<nat>, calls: seq<Call>, err: Option<E>)

  /** append(s[:i], s[i+1:]...) */
  function Remove<T>(s: seq<T>, i: nat): (r: seq<T>)
    requires i < |s|
    ensures |r| == |s| - 1 && forall k :: 0 <= k < |r| ==> r[k] == if k < i then s[k] else s[k + 1]
  {
    s[..i] + s[i + 1..]
  }

  function CallAt(pats: seq<Pattern>, ies: seq<Ie>, n: nat, f: nat): Call
    requires f < |pats| && pats[f] != [] && n < |ies| && FiresAt(pats[f], ies, n)
  {
    Call(f, ies[n + 1 - |pats[f]|..n + 1], n)
  }

  /** What entry n does to the active patterns from the i-th on, each matched as if it were alone. */
  function Row<E>(pats: seq<Pattern>, ies: seq<Ie>, reply: Functions<E>, n: nat, fs: seq<nat>, i: nat, calls: seq<Call>)
    : (r: Progress<E>)
    requires NonEmpty(pats) && InRange(pats, fs) && n < |ies| && i <= |fs|
    ensures InRange(pats, r.fs)
    decreases |fs| - i
  {
    if i == |fs| then Progress(fs, calls, None)
    else if FiresAt(pats[fs[i]], ies, n) then
      var calls' := calls + [CallAt(pats, ies, n, fs[i])];
      var r := reply(calls');
      if r.err.Some? then Progress(fs, calls', r.err)
      else if r.drop then Row(pats, ies, reply, n, Remove(fs, i), i, calls')
      else Row(pats, ies, reply, n, fs, i + 1, calls')
    else Row(pats, ies, reply, n, fs, i + 1, calls)
  }

  function Rows<E>(pats: seq<Pattern>, ies: seq<Ie>, reply: Functions<E>, n: nat, fs: seq<nat>, calls: seq<Call>)
    : Progress<E>
    requires NonEmpty(pats) && InRange(pats, fs) && n <= |ies|
    decreases |ies| - n
  {
    if n == |ies| || fs == [] then Progress(fs, calls, None)
    else
      var r := Row(pats, ies, reply, n, fs, 0, calls);
      if r.err.Some? then r else Rows(pats, ies, reply, n + 1, r.fs, r.calls)
  }

  function Ids(n: nat): (ids: seq<nat>)
    ensures |ids| == n && forall k :: 0 <= k < n ==> ids[k] == k
  {
    seq(n, (k: nat) => k)
  }

  // ----- deals -----

  /** The count kept for each active pattern is what it alone would have matched; the first i have seen entry n. */
  predicate Counted(pats: seq<Pattern>, ies: seq<Ie>, fs: seq<nat>, counts: seq<nat>, i: nat, n: nat)
    requires NonEmpty(pats) && InRange(pats, fs) && n <= |ies| && (i > 0 ==> n < |ies|)
  {
    |counts| == |fs| && forall j :: 0 <= j < |fs| ==> counts[j] == Matched(pats[fs[j]], ies, if j < i then n + 1 else n)
  }

  /** The three slices are kept aligned: the j-th one's pattern, function and count belong together. */
  predicate Aligned(pats: seq<Pattern>, names: seq<Pattern>, fs: seq<nat>) {
    |names| == |fs| && InRange(pats, fs) && forall j :: 0 <= j < |fs| ==> names[j] == pats[fs[j]]
  }

  lemma DropKeeps(pats: seq<Pattern>, ies: seq<Ie>, names: seq<Pattern>, fs: seq<nat>, counts: seq<nat>, i: nat, cu: nat)
    requires NonEmpty(pats) && cu < |ies| && i < |fs| && Aligned(pats, names, fs)
    requires |counts| == |fs|
    requires forall j :: 0 <= j < |fs| && j != i ==> counts[j] == Matched(pats[fs[j]], ies, if j < i then cu + 1 else cu)
    ensures Aligned(pats, Remove(names, i), Remove(fs, i)) && Counted(pats, ies, Remove(fs, i), Remove(counts, i), i, cu)
  {
  }

  /** What is known between two patterns: the slices, and what is left to do for this entry. */
  ghost predicate Dealing<E>(ies: seq<Ie>, pats: seq<Pattern>, reply: Functions<E>, cu: nat, names: seq<Pattern>,
                             fs: seq<nat>, counts: seq<nat>, calls: seq<Call>, i: nat, row: Progress<E>)
    requires NonEmpty(pats) && cu < |ies|
  {
    && i <= |fs| && Aligned(pats, names, fs) && Counted(pats, ies, fs, counts, i, cu)
    && Row(pats, ies, reply, cu, fs, i, calls) == row
  }

  /** The entry does not complete the i-th active pattern. */
  method Unmatched<E>(ies: seq<Ie>, ghost pats: seq<Pattern>, ghost reply: Functions<E>, cu: nat, boxNames: seq<Pattern>,
                      ghost fs: seq<nat>, counts0: seq<nat>, ghost calls: seq<Call>, i: nat, ghost row: Progress<E>)
    returns (matchCounts: seq<nat>, done: bool)
    requires NonEmpty(pats) && cu < |ies| && i < |fs|
    requires Dealing(ies, pats, reply, cu, boxNames, fs, counts0, calls, i, row)
    ensures done == FiresAt(pats[fs[i]], ies, cu) && |matchCounts| == |fs|
    ensures done ==> matchCounts == counts0[i := 0]
    ensures !done ==> Dealing(ies, pats, reply, cu, boxNames, fs, matchCounts, calls, i + 1, row)
  {
    matchCounts, done := counts0, false;
    ghost var p, c := pats[fs[i]], counts0[i];
    assert Matched(p, ies, cu + 1) == if ies[cu].n == p[c] && c + 1 < |p| then c + 1 else 0;
    if ies[cu].n == boxNames[i][matchCounts[i]] {
      matchCounts := matchCounts[i := matchCounts[i] + 1];
      if matchCounts[i] == |boxNames[i]| {
        matchCounts := matchCounts[i := 0];
        done := true;
      }
    } else {
      matchCounts := matchCounts[i := 0];
    }
  }

  /** After a call answered without error: on to the next pattern, or to the one that takes its place. */
  lemma CalledKeeps<E>(ies: seq<Ie>, pats: seq<Pattern>, reply: Functions<E>, cu: nat, names: seq<Pattern>, fs: seq<nat>,
                       counts: seq<nat>, calls: seq<Call>, i: nat, row: Progress<E>, call: Call)
    requires NonEmpty(pats) && cu < |ies| && i < |fs| && Dealing(ies, pats, reply, cu, names, fs, counts, calls, i, row)
    requires FiresAt(pats[fs[i]], ies, cu) && call == CallAt(pats, ies, cu, fs[i]) && reply(calls + [call]).err.None?
    ensures var counts' := counts[i := 0];
      if reply(calls + [call]).drop then
        Dealing(ies, pats, reply, cu, Remove(names, i), Remove(fs, i), Remove(counts', i), calls + [call], i, row)
      else Dealing(ies, pats, reply, cu, names, fs, counts', calls + [call], i + 1, row)
  {
    DropKeeps(pats, ies, names, fs, counts[i := 0], i, cu);
  }

  /** The inner loop: entry cu is shown to every active pattern. */
  method DealEntry<E>(ies: seq<Ie>, ghost pats: seq<Pattern>, reply: Functions<E>, cu: nat, boxNames0: seq<Pattern>,
                      fs0: seq<nat>, counts0: seq<nat>, calls0: seq<Call>)
    returns (boxNames: seq<Pattern>, fs: seq<nat>, matchCounts: seq<nat>, calls: seq<Call>, err: Option<E>)
    requires NonEmpty(pats) && cu < |ies| && Aligned(pats, boxNames0, fs0)
    requires Counted(pats, ies, fs0, counts0, 0, cu)
    ensures Progress(fs, calls, err) == Row(pats, ies, reply, cu, fs0, 0, calls0)
    ensures err.None? ==> Aligned(pats, boxNames, fs) && Counted(pats, ies, fs, matchCounts, 0, cu + 1)
  {
    boxNames, fs, matchCounts, calls, err := boxNames0, fs0, counts0, calls0, None;
    ghost var row: Progress<E> := Row(pats, ies, reply, cu, fs, 0, calls);
    var i := 0;
    while i < |boxNames|
      invariant err.None? && Dealing(ies, pats, reply, cu, boxNames, fs, matchCounts, calls, i, row)
      decreases |boxNames| - i
    {
      ghost var counts := matchCounts;
      var done;
      matchCounts, done := Unmatched(ies, pats, reply, cu, boxNames, fs, matchCounts, calls, i, row);
      if done {
        FiresIff(pats[fs[i]], ies, cu);
        var call := Call(fs[i], ies[cu - |boxNames[i]| + 1..cu + 1], cu);
        assert call == CallAt(pats, ies, cu, fs[i]);
        var r := reply(calls + [call]);
        if r.err.None? { CalledKeeps(ies, pats, reply, cu, boxNames, fs, counts, calls, i, row, call); }
        calls := calls + [call];
        if r.err.Some? {
          err := r.err;
          return;
        } else if r.drop {
          boxNames, fs, matchCounts := Remove(boxNames, i), Remove(fs, i), Remove(matchCounts, i);
          i := i - 1;
        }
      }
      i := i + 1;
    }
  }

  /** Together the patterns behave as if each were matched on its own. */
  method Deals<E>(ies: seq<Ie>, pats: seq<Pattern>, reply: Functions<E>) returns (calls: seq<Call>, err: Option<E>)
    requires NonEmpty(pats)
    ensures var r := Rows(pats, ies, reply, 0, Ids(|pats|), []); calls == r.calls && err == r.err
  {
    var boxNames, fs := pats, Ids(|pats|);
    var matchCounts: seq<nat> := seq(|pats|, _ => 0);
    calls, err := [], None;
    var cu := 0;
    while cu < |ies| && |boxNames| != 0
      invariant cu <= |ies| && err.None?
      invariant Aligned(pats, boxNames, fs) && Counted(pats, ies, fs, matchCounts, 0, cu)
      invariant Rows(pats, ies, reply, cu, fs, calls) == Rows(pats, ies, reply, 0, Ids(|pats|), [])
    {
      boxNames, fs, matchCounts, calls, err := DealEntry(ies, pats, reply, cu, boxNames, fs, matchCounts, calls);
      if err.Some? { return; }
      cu := cu + 1;
    }
  }

  // ----- What the calls are -----

  /** Entry m, pattern f comes before entry n, pattern b in the order of matching. */
  predicate Before(m: int, f: int, n: int, b: int) { m < n || (m == n && f < b) }

  /** Every call is for a pattern that fires there, with the entries of that occurrence. */
  predicate Genuine(pats: seq<Pattern>, ies: seq<Ie>, calls: seq<Call>)
    requires NonEmpty(pats)
  {
    forall k :: 0 <= k < |calls| ==>
      var c := calls[k];
      c.f < |pats| && c.last < |ies| && FiresAt(pats[c.f], ies, c.last) && c == CallAt(pats, ies, c.last, c.f)
  }

  /** Calls come in order of their last entries; for the same entry, in order of the patterns. */
  predicate InOrder(calls: seq<Call>) {
    forall j, k :: 0 <= j < k < |calls| ==> Before(calls[j].last, calls[j].f, calls[k].last, calls[k].f)
  }

  /** The k-th call was answered without error. */
  predicate NoErrorAt<E>(reply: Functions<E>, calls: seq<Call>, k: nat)
    requires k < |calls|
  {
    reply(calls[..k + 1]).err.None?
  }

  predicate DropsAt<E>(reply: Functions<E>, calls: seq<Call>, k: nat)
    requires k < |calls|
  {
    reply(calls[..k + 1]).drop
  }

  /** The f-th pattern was dropped by a call for an entry before m. */
  ghost predicate DroppedBefore<E>(reply: Functions<E>, calls: seq<Call>, f: nat, m: nat) {
    exists k :: 0 <= k < |calls| && calls[k].f == f && calls[k].last < m && DropsAt(reply, calls, k)
  }

  /** A firing has its call, unless its pattern was dropped before. */
  ghost predicate Covered<E>(pats: seq<Pattern>, ies: seq<Ie>, reply: Functions<E>, calls: seq<Call>, f: nat, m: nat)
    requires NonEmpty(pats) && f < |pats| && m < |ies|
  {
    FiresAt(pats[f], ies, m) ==> CallAt(pats, ies, m, f) in calls || DroppedBefore(reply, calls, f, m)
  }

  ghost predicate AllCovered<E>(pats: seq<Pattern>, ies: seq<Ie>, reply: Functions<E>, calls: seq<Call>, n: int, b: int)
    requires NonEmpty(pats)
  {
    forall f: nat, m: nat :: f < |pats| && m < |ies| && Before(m, f, n, b) ==> Covered(pats, ies, reply, calls, f, m)
  }

  /** The active patterns, in order, are those no call has dropped; a dropped one is not called again. */
  ghost predicate ActiveExactly<E>(pats: seq<Pattern>, reply: Functions<E>, calls: seq<Call>, fs: seq<nat>) {
    && InRange(pats, fs)
    && (forall i, j :: 0 <= i < j < |fs| ==> fs[i] < fs[j])
    && (forall f: nat :: f < |pats| && f !in fs ==> exists k :: 0 <= k < |calls| && calls[k].f == f && DropsAt(reply, calls, k))
    && (forall k :: 0 <= k < |calls| && DropsAt(reply, calls, k) ==> calls[k].f !in fs)
  }

  predicate OnceDroppedNeverCalled<E>(reply: Functions<E>, calls: seq<Call>) {
    forall j, k :: 0 <= j < k < |calls| && DropsAt(reply, calls, j) ==> calls[k].f != calls[j].f
  }

  /** What holds when everything before entry n, pattern b has been matched without error. */
  ghost predicate Sofar<E>(pats: seq<Pattern>, ies: seq<Ie>, reply: Functions<E>, calls: seq<Call>, fs: seq<nat>, n: int, b: int)
    requires NonEmpty(pats)
  {
    && Genuine(pats, ies, calls) && InOrder(calls) && OnceDroppedNeverCalled(reply, calls)
    && (forall k :: 0 <= k < |calls| ==> Before(calls[k].last, calls[k].f, n, b))
    && (forall k :: 0 <= k < |calls| ==> NoErrorAt(reply, calls, k))
    && ActiveExactly(pats, reply, calls, fs)
    && AllCovered(pats, ies, reply, calls, n, b)
  }

  /** What a finished run leaves: as above, but its last call may have failed. */
  ghost predicate Finished<E>(pats: seq<Pattern>, ies: seq<Ie>, reply: Functions<E>, calls: seq<Call>, err: Option<E>)
    requires NonEmpty(pats)
  {
    && Genuine(pats, ies, calls) && InOrder(calls) && OnceDroppedNeverCalled(reply, calls)
    && (forall k :: 0 <= k < |calls| ==> NoErrorAt(reply, calls, k) || (k == |calls| - 1 && err.Some?))
    && (if err.Some? then
          calls != [] && err == reply(calls).err
          && AllCovered(pats, ies, reply, calls, calls[|calls| - 1].last, calls[|calls| - 1].f + 1)
        else AllCovered(pats, ies, reply, calls, |ies|, 0))
  }

  /** The pattern the i-th active one is at, or the end of them. */
  function At(pats: seq<Pattern>, fs: seq<nat>, i: nat): nat
    requires i <= |fs|
  {
    if i < |fs| then fs[i] else |pats|
  }

  lemma HistoryGrows<E>(reply: Functions<E>, calls: seq<Call>, c: Call)
    ensures forall k :: 0 <= k < |calls| ==> DropsAt(reply, calls + [c], k) == DropsAt(reply, calls, k)
    ensures forall k :: 0 <= k < |calls| ==> NoErrorAt(reply, calls + [c], k) == NoErrorAt(reply, calls, k)
  {
    forall k | 0 <= k < |calls|
      ensures DropsAt(reply, calls + [c], k) == DropsAt(reply, calls, k)
      ensures NoErrorAt(reply, calls + [c], k) == NoErrorAt(reply, calls, k)
    {
      assert (calls + [c])[..k + 1] == calls[..k + 1];
    }
  }

  lemma CoveredGrows<E>(pats: seq<Pattern>, ies: seq<Ie>, reply: Functions<E>, calls: seq<Call>, c: Call, f: nat, m: nat)
    requires NonEmpty(pats) && f < |pats| && m < |ies| && Covered(pats, ies, reply, calls, f, m)
    ensures Covered(pats, ies, reply, calls + [c], f, m)
  {
    HistoryGrows(reply, calls, c);
    if DroppedBefore(reply, calls, f, m) {
      var k :| 0 <= k < |calls| && calls[k].f == f && calls[k].last < m && DropsAt(reply, calls, k);
      assert (calls + [c])[k] == calls[k] && DropsAt(reply, calls + [c], k);
    }
  }

  /** Patterns that are not active, at entry n, between two neighbouring active ones, were dropped before n. */
  lemma Gap<E>(pats: seq<Pattern>, ies: seq<Ie>, reply: Functions<E>, calls: seq<Call>, fs: seq<nat>, n: nat, b: nat, f: nat)
    requires NonEmpty(pats) && n < |ies| && Sofar(pats, ies, reply, calls, fs, n, b)
    requires b <= f < |pats| && f !in fs
    ensures Covered(pats, ies, reply, calls, f, n)
  {
    var k :| 0 <= k < |calls| && calls[k].f == f && DropsAt(reply, calls, k);
    assert Before(calls[k].last, calls[k].f, n, b);
    assert DroppedBefore(reply, calls, f, n);
  }

  /** Nothing active fires at entry n from pattern b to before pattern b'. */
  lemma Advance<E>(pats: seq<Pattern>, ies: seq<Ie>, reply: Functions<E>, calls: seq<Call>, fs: seq<nat>,
                   n: nat, b: nat, b': nat)
    requires NonEmpty(pats) && n < |ies| && Sofar(pats, ies, reply, calls, fs, n, b) && b <= b'
    requires forall f :: b <= f < b' && f < |pats| && f in fs ==> !FiresAt(pats[f], ies, n)
    ensures Sofar(pats, ies, reply, calls, fs, n, b')
  {
    forall f: nat, m: nat | f < |pats| && m < |ies| && Before(m, f, n, b')
      ensures Covered(pats, ies, reply, calls, f, m)
    {
      if !Before(m, f, n, b) && f !in fs { Gap(pats, ies, reply, calls, fs, n, b, f); }
    }
  }

  lemma NextEntry<E>(pats: seq<Pattern>, ies: seq<Ie>, reply: Functions<E>, calls: seq<Call>, fs: seq<nat>, n: nat)
    requires NonEmpty(pats) && n < |ies| && Sofar(pats, ies, reply, calls, fs, n, |pats|)
    ensures Sofar(pats, ies, reply, calls, fs, n + 1, 0)
  {
  }

  /** With every pattern dropped nothing later needs a call. */
  lemma NothingActive<E>(pats: seq<Pattern>, ies: seq<Ie>, reply: Functions<E>, calls: seq<Call>, n: nat)
    requires NonEmpty(pats) && n <= |ies| && Sofar(pats, ies, reply, calls, [], n, 0)
    ensures Sofar(pats, ies, reply, calls, [], |ies|, 0)
  {
    forall f: nat, m: nat | f < |pats| && m < |ies|
      ensures Covered(pats, ies, reply, calls, f, m)
    {
      if m >= n {
        assert f !in [];
        var k :| 0 <= k < |calls| && calls[k].f == f && DropsAt(reply, calls, k);
        assert Before(calls[k].last, calls[k].f, n, 0);
        assert DroppedBefore(reply, calls, f, m);
      }
    }
  }

  // The next call: what it keeps, conjunct by conjunct.

  predicate Extends<E>(pats: seq<Pattern>, ies: seq<Ie>, reply: Functions<E>, calls: seq<Call>, fs: seq<nat>, n: nat, i: nat, c: Call)
    requires NonEmpty(pats) && InRange(pats, fs)
  {
    n < |ies| && i < |fs| && FiresAt(pats[fs[i]], ies, n) && c == CallAt(pats, ies, n, fs[i])
  }

  lemma CallOrder<E>(pats: seq<Pattern>, ies: seq<Ie>, reply: Functions<E>, calls: seq<Call>, fs: seq<nat>,
                     n: nat, i: nat, c: Call)
    requires NonEmpty(pats) && i < |fs| && Sofar(pats, ies, reply, calls, fs, n, fs[i])
    requires Extends(pats, ies, reply, calls, fs, n, i, c)
    ensures Genuine(pats, ies, calls + [c]) && InOrder(calls + [c]) && OnceDroppedNeverCalled(reply, calls + [c])
    ensures forall k :: 0 <= k < |calls + [c]| ==> Before((calls + [c])[k].last, (calls + [c])[k].f, n, fs[i] + 1)
  {
    HistoryGrows(reply, calls, c);
    var calls' := calls + [c];
    forall j, k | 0 <= j < k < |calls'| && DropsAt(reply, calls', j)
      ensures calls'[k].f != calls'[j].f
    {
      assert DropsAt(reply, calls, j) && calls[j].f !in fs;
    }
  }

  lemma CallCovers<E>(pats: seq<Pattern>, ies: seq<Ie>, reply: Functions<E>, calls: seq<Call>, fs: seq<nat>,
                      n: nat, i: nat, c: Call)
    requires NonEmpty(pats) && i < |fs| && Sofar(pats, ies, reply, calls, fs, n, fs[i])
    requires Extends(pats, ies, reply, calls, fs, n, i, c)
    ensures AllCovered(pats, ies, reply, calls + [c], n, fs[i] + 1)
  {
    forall f: nat, m: nat | f < |pats| && m < |ies| && Before(m, f, n, fs[i] + 1)
      ensures Covered(pats, ies, reply, calls + [c], f, m)
    {
      if Before(m, f, n, fs[i]) {
        CoveredGrows(pats, ies, reply, calls, c, f, m);
      } else {
        assert (calls + [c])[|calls|] == CallAt(pats, ies, m, f);
      }
    }
  }

  /** Which patterns stay active after a call. */
  function StillActive<E>(reply: Functions<E>, calls: seq<Call>, fs: seq<nat>, i: nat, c: Call): seq<nat>
    requires i < |fs|
  {
    if reply(calls + [c]).drop then Remove(fs, i) else fs
  }

  lemma StillActiveElements<E>(reply: Functions<E>, calls: seq<Call>, fs: seq<nat>, i: nat, c: Call)
    requires i < |fs| && (forall i, j :: 0 <= i < j < |fs| ==> fs[i] < fs[j]) && c.f == fs[i]
    ensures forall f :: f in StillActive(reply, calls, fs, i, c) <==> f in fs && !(reply(calls + [c]).drop && f == c.f)
    ensures DropsAt(reply, calls + [c], |calls|) == reply(calls + [c]).drop
  {
    WithoutElements(fs, i);
    assert (calls + [c])[..|calls| + 1] == calls + [c];
  }

  /** A pattern that is not active has been dropped by some call. */
  lemma InactiveDropped<E>(pats: seq<Pattern>, reply: Functions<E>, calls: seq<Call>, fs: seq<nat>, i: nat, c: Call, f: nat)
    requires i < |fs| && ActiveExactly(pats, reply, calls, fs) && c.f == fs[i]
    requires f < |pats| && f !in StillActive(reply, calls, fs, i, c)
    ensures exists k :: 0 <= k < |calls + [c]| && (calls + [c])[k].f == f && DropsAt(reply, calls + [c], k)
  {
    var calls' := calls + [c];
    StillActiveElements(reply, calls, fs, i, c);
    if f !in fs {
      HistoryGrows(reply, calls, c);
      var k :| 0 <= k < |calls| && calls[k].f == f && DropsAt(reply, calls, k);
      assert calls'[k].f == f && DropsAt(reply, calls', k);
    } else {
      assert calls'[|calls|].f == f;
    }
  }

  lemma CallActive<E>(pats: seq<Pattern>, reply: Functions<E>, calls: seq<Call>, fs: seq<nat>, i: nat, c: Call)
    requires i < |fs| && ActiveExactly(pats, reply, calls, fs) && c.f == fs[i]
    ensures ActiveExactly(pats, reply, calls + [c], StillActive(reply, calls, fs, i, c))
  {
    var fs', calls' := StillActive(reply, calls, fs, i, c), calls + [c];
    StillActiveElements(reply, calls, fs, i, c);
    WithoutElements(fs, i);
    forall f: nat | f < |pats| && f !in fs'
      ensures exists k :: 0 <= k < |calls'| && calls'[k].f == f && DropsAt(reply, calls', k)
    {
      InactiveDropped(pats, reply, calls, fs, i, c, f);
    }
    HistoryGrows(reply, calls, c);
    forall k | 0 <= k < |calls'| && DropsAt(reply, calls', k)
      ensures calls'[k].f !in fs'
    {
      if k < |calls| { assert DropsAt(reply, calls, k); }
    }
  }

  lemma WithoutElements(fs: seq<nat>, i: nat)
    requires i < |fs| && forall i, j :: 0 <= i < j < |fs| ==> fs[i] < fs[j]
    ensures forall f :: f in Remove(fs, i) <==> f in fs && f != fs[i]
    ensures forall j, k :: 0 <= j < k < |fs| - 1 ==> Remove(fs, i)[j] < Remove(fs, i)[k]
  {
    var w := Remove(fs, i);
    assert forall k :: 0 <= k < |w| ==> w[k] == if k < i then fs[k] else fs[k + 1];
    forall f | f in fs && f != fs[i]
      ensures f in w
    {
      var k :| 0 <= k < |fs| && fs[k] == f;
      assert w[if k < i then k else k - 1] == f;
    }
  }

  lemma CallErrors<E>(reply: Functions<E>, calls: seq<Call>, c: Call)
    requires forall k :: 0 <= k < |calls| ==> NoErrorAt(reply, calls, k)
    ensures forall k :: 0 <= k < |calls| ==> NoErrorAt(reply, calls + [c], k)
    ensures NoErrorAt(reply, calls + [c], |calls|) == reply(calls + [c]).err.None?
  {
    HistoryGrows(reply, calls, c);
    assert (calls + [c])[..|calls| + 1] == calls + [c];
  }

  lemma CallFails<E>(pats: seq<Pattern>, ies: seq<Ie>, reply: Functions<E>, calls: seq<Call>, fs: seq<nat>,
                     n: nat, i: nat, c: Call)
    requires NonEmpty(pats) && i < |fs| && Sofar(pats, ies, reply, calls, fs, n, fs[i])
    requires Extends(pats, ies, reply, calls, fs, n, i, c) && reply(calls + [c]).err.Some?
    ensures Finished(pats, ies, reply, calls + [c], reply(calls + [c]).err)
  {
    CallOrder(pats, ies, reply, calls, fs, n, i, c);
    CallCovers(pats, ies, reply, calls, fs, n, i, c);
    CallErrors(reply, calls, c);
  }

  lemma CallSucceeds<E>(pats: seq<Pattern>, ies: seq<Ie>, reply: Functions<E>, calls: seq<Call>, fs: seq<nat>,
                        n: nat, i: nat, c: Call)
    requires NonEmpty(pats) && i < |fs| && Sofar(pats, ies, reply, calls, fs, n, fs[i])
    requires Extends(pats, ies, reply, calls, fs, n, i, c) && reply(calls + [c]).err.None?
    ensures Sofar(pats, ies, reply, calls + [c], StillActive(reply, calls, fs, i, c), n, fs[i] + 1)
  {
    CallOrder(pats, ies, reply, calls, fs, n, i, c);
    CallCovers(pats, ies, reply, calls, fs, n, i, c);
    CallActive(pats, reply, calls, fs, i, c);
    CallErrors(reply, calls, c);
  }

  /** The i-th active pattern is called at entry n, without error: on to the next active one. */
  lemma CallKeeps<E>(pats: seq<Pattern>, ies: seq<Ie>, reply: Functions<E>, calls: seq<Call>, fs: seq<nat>,
                     n: nat, i: nat, c: Call)
    requires NonEmpty(pats) && i < |fs| && Sofar(pats, ies, reply, calls, fs, n, fs[i])
    requires Extends(pats, ies, reply, calls, fs, n, i, c) && reply(calls + [c]).err.None?
    ensures var drop := reply(calls + [c]).drop;
      var fs', i' := if drop then Remove(fs, i) else fs, if drop then i else i + 1;
      Sofar(pats, ies, reply, calls + [c], fs', n, At(pats, fs', i'))
  {
    CallSucceeds(pats, ies, reply, calls, fs, n, i, c);
    var drop := reply(calls + [c]).drop;
    var fs', i' := if drop then Remove(fs, i) else fs, if drop then i else i + 1;
    NoneBetween(pats, fs, i, drop);
    Advance(pats, ies, reply, calls + [c], fs', n, fs[i] + 1, At(pats, fs', i'));
  }

  /** No active pattern lies between the one just called and the next active one. */
  lemma NoneBetween(pats: seq<Pattern>, fs: seq<nat>, i: nat, drop: bool)
    requires i < |fs| && InRange(pats, fs) && forall j, k :: 0 <= j < k < |fs| ==> fs[j] < fs[k]
    ensures var fs', i' := if drop then Remove(fs, i) else fs, if drop then i else i + 1;
      fs[i] + 1 <= At(pats, fs', i') && forall f :: fs[i] + 1 <= f < At(pats, fs', i') ==> f !in fs'
  {
    WithoutElements(fs, i);
    var fs', i' := if drop then Remove(fs, i) else fs, if drop then i else i + 1;
    assert forall k :: 0 <= k <= i ==> fs[k] <= fs[i];
    assert forall k :: i < k < |fs| ==> fs[i + 1] <= fs[k];
  }

  lemma QuietKeeps<E>(pats: seq<Pattern>, ies: seq<Ie>, reply: Functions<E>, calls: seq<Call>, fs: seq<nat>, n: nat, i: nat)
    requires NonEmpty(pats) && n < |ies| && i < |fs| && Sofar(pats, ies, reply, calls, fs, n, fs[i])
    requires !FiresAt(pats[fs[i]], ies, n)
    ensures Sofar(pats, ies, reply, calls, fs, n, At(pats, fs, i + 1))
  {
    Advance(pats, ies, reply, calls, fs, n, fs[i], At(pats, fs, i + 1));
  }

  lemma {:induction false} RowKeeps<E>(pats: seq<Pattern>, ies: seq<Ie>, reply: Functions<E>, n: nat, fs: seq<nat>,
                                       i: nat, calls: seq<Call>)
    requires NonEmpty(pats) && InRange(pats, fs) && n < |ies| && i <= |fs|
    requires Sofar(pats, ies, reply, calls, fs, n, At(pats, fs, i))
    ensures RowKept(pats, ies, reply, n, Row(pats, ies, reply, n, fs, i, calls))
    decreases |fs| - i
  {
    if i < |fs| {
      if FiresAt(pats[fs[i]], ies, n) {
        var c := CallAt(pats, ies, n, fs[i]);
        var r := reply(calls + [c]);
        if r.err.Some? {
          CallFails(pats, ies, reply, calls, fs, n, i, c);
        } else {
          CallKeeps(pats, ies, reply, calls, fs, n, i, c);
          if r.drop {
            RowKeeps(pats, ies, reply, n, Remove(fs, i), i, calls + [c]);
          } else {
            RowKeeps(pats, ies, reply, n, fs, i + 1, calls + [c]);
          }
        }
      } else {
        QuietKeeps(pats, ies, reply, calls, fs, n, i);
        RowKeeps(pats, ies, reply, n, fs, i + 1, calls);
      }
    }
  }

  ghost predicate RowKept<E>(pats: seq<Pattern>, ies: seq<Ie>, reply: Functions<E>, n: nat, r: Progress<E>)
    requires NonEmpty(pats)
  {
    if r.err.Some? then Finished(pats, ies, reply, r.calls, r.err)
    else Sofar(pats, ies, reply, r.calls, r.fs, n, |pats|)
  }

  lemma RowFromStart<E>(pats: seq<Pattern>, ies: seq<Ie>, reply: Functions<E>, n: nat, fs: seq<nat>, calls: seq<Call>)
    returns (r: Progress<E>)
    requires NonEmpty(pats) && InRange(pats, fs) && n < |ies| && Sofar(pats, ies, reply, calls, fs, n, 0)
    ensures r == Row(pats, ies, reply, n, fs, 0, calls) && RowKept(pats, ies, reply, n, r)
  {
    r := Row(pats, ies, reply, n, fs, 0, calls);
    Advance(pats, ies, reply, calls, fs, n, 0, At(pats, fs, 0));
    RowKeeps(pats, ies, reply, n, fs, 0, calls);
  }

  lemma SofarEnds<E>(pats: seq<Pattern>, ies: seq<Ie>, reply: Functions<E>, calls: seq<Call>, fs: seq<nat>, none: Option<E>)
    requires NonEmpty(pats) && Sofar(pats, ies, reply, calls, fs, |ies|, 0) && none.None?
    ensures Finished(pats, ies, reply, calls, none)
  {
  }

  lemma {:induction false} RowsKeep<E>(pats: seq<Pattern>, ies: seq<Ie>, reply: Functions<E>, n: nat, fs: seq<nat>,
                                       calls: seq<Call>)
    requires NonEmpty(pats) && InRange(pats, fs) && n <= |ies| && Sofar(pats, ies, reply, calls, fs, n, 0)
    ensures var r := Rows(pats, ies, reply, n, fs, calls); Finished(pats, ies, reply, r.calls, r.err)
    decreases |ies| - n
  {
    if fs == [] {
      NothingActive(pats, ies, reply, calls, n);
      SofarEnds(pats, ies, reply, calls, fs, Rows(pats, ies, reply, n, fs, calls).err);
    } else if n == |ies| {
      SofarEnds(pats, ies, reply, calls, fs, Rows(pats, ies, reply, n, fs, calls).err);
    } else {
      var r := RowFromStart(pats, ies, reply, n, fs, calls);
      if r.err.None? {
        NextEntry(pats, ies, reply, r.calls, r.fs, n);
        RowsKeep(pats, ies, reply, n + 1, r.fs, r.calls);
      }
    }
  }

  /** Whatever the functions answer: every call is genuine and in order, and every firing of a live pattern is called. */
  lemma DealsExactly<E>(pats: seq<Pattern>, ies: seq<Ie>, reply: Functions<E>)
    requires NonEmpty(pats)
    ensures var r := Rows(pats, ies, reply, 0, Ids(|pats|), []); Finished(pats, ies, reply, r.calls, r.err)
  {
    var fs, none: seq<Call> := Ids(|pats|), [];
    assert ActiveExactly(pats, reply, none, fs) by {
      forall f: nat | f < |pats|
        ensures f in fs
      {
        assert fs[f] == f;
      }
    }
    RowsKeep(pats, ies, reply, 0, Ids(|pats|), []);
  }

  /** What each window is: the names of its pattern; windows of one pattern are disjoint and increasing. */
  lemma WindowsExactly<E>(pats: seq<Pattern>, ies: seq<Ie>, reply: Functions<E>, j: nat, k: nat)
    requires NonEmpty(pats)
    requires var calls := Rows(pats, ies, reply, 0, Ids(|pats|), []).calls; j < k < |calls|
    ensures var calls := Rows(pats, ies, reply, 0, Ids(|pats|), []).calls;
      && calls[k].f < |pats| && calls[k].last < |ies|
      && |calls[k].window| == |pats[calls[k].f]|
      && (forall x :: 0 <= x < |calls[k].window| ==> calls[k].window[x].n == pats[calls[k].f][x])
      && |calls[k].window| <= calls[k].last + 1
      && calls[k].window == ies[calls[k].last + 1 - |calls[k].window|..calls[k].last + 1]
      && (calls[j].f == calls[k].f ==> calls[j].last < calls[k].last + 1 - |calls[k].window|)
  {
    DealsExactly(pats, ies, reply);
    var calls := Rows(pats, ies, reply, 0, Ids(|pats|), []).calls;
    WindowNames(pats[calls[k].f], ies, calls[k].last);
    if calls[j].f == calls[k].f { WindowsApart(pats[calls[k].f], ies, calls[j].last, calls[k].last); }
  }

  lemma WindowNames(p: Pattern, ies: seq<Ie>, last: nat)
    requires p != [] && last < |ies| && FiresAt(p, ies, last)
    ensures |p| <= last + 1
    ensures var w := ies[last + 1 - |p|..last + 1]; |w| == |p| && forall x :: 0 <= x < |p| ==> w[x].n == p[x]
  {
    FiresIff(p, ies, last);
    var w := ies[last + 1 - |p|..last + 1];
    forall x | 0 <= x < |p|
      ensures w[x].n == p[x]
    {
      assert w[x] == ies[last + 1 - |p| + x];
    }
  }
}
