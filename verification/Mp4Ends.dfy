/** decoder/mp4: every way in which a search over a chunk of fragments can end, and what it leaves in the two buffers. */
module Mp4Ends {
  import opened Util
  import opened Mp4Box
  import opened Mp4Match
  import opened Mp4Frag
  import opened Fmp4
  import opened Mp4Segment
  import G = Groups
  import S = SliceBuf

  // ----- One fragment -----

  /** The key frame buffer has its limit, and has memory once a group has been emitted. */
  predicate KeyKept(key: S.Value<byte>, gs: seq<G.Item>, s: Seg) {
    s.key.maxsize == key.maxsize && (s.key.isNil <==> key.isNil && G.Emitted(gs) == [])
  }

  /** The pending group of gs is complete with g, and does not fit into the key frame buffer. */
  predicate TooLong(key: S.Value<byte>, gs: seq<G.Item>, g: G.Item) {
    && g.key && G.Pending(gs) != [] && key.maxsize != 0 && (!key.isNil || G.Emitted(gs) != [])
    && |G.Emitted(gs)| + |G.Pending(gs)| > key.maxsize
  }

  /** What the next fragment does, by its check. */
  predicate StepEnds(key: S.Value<byte>, check: Check, gs: seq<G.Item>, g: G.Item, r: (Seg, Option<Stop>)) {
    match check
    case Broken => r.1 == Some(Panic)
    case Refused(reset) => r.1 == Some(CheckFailed) && r.0.pend.content == if reset then [] else G.Pending(gs)
    case Passed =>
      if TooLong(key, gs, g) then r.1 == Some(OverMax) && r.0.pend.content == G.Pending(gs)
      else r.1.None? && KeyKept(key, gs + [g], r.0)
  }

  lemma StepEndsExactly(buf: Bytes, key: S.Value<byte>, check: Check, mark: nat, s: Seg, gs: seq<G.Item>, g: G.Item, w: seq<Ie>)
    requires Segmented(gs, mark, s) && KeyKept(key, gs, s) && NoneEmpty(gs) && WindowOf(buf, w, g, |G.Concat(gs)|)
    ensures StepEnds(key, check, gs, g, OnFragment(buf, check, mark, s, w))
  {
    var r := OnFragment(buf, check, mark, s, w);
    if check.Passed? {
      PassedStep(buf, mark, s, gs, g, w);
      if r.1.None? { SegmentStep(buf, mark, s, gs, g, w, check); }
    }
  }

  /** A fragment that passes: what it does to the key frame buffer. */
  lemma PassedStep(buf: Bytes, mark: nat, s: Seg, gs: seq<G.Item>, g: G.Item, w: seq<Ie>)
    requires Segmented(gs, mark, s) && WindowOf(buf, w, g, |G.Concat(gs)|)
    ensures var r := OnFragment(buf, Passed, mark, s, w);
      if g.key && G.Pending(gs) != [] then
        match S.Appended(s.key, G.Pending(gs))
        case None => r == (s, Some(OverMax))
        case Some(key) => r.1.None? && r.0.key == key
      else r.1.None? && r.0.key == s.key
  {
  }

  // ----- All of them -----

  /** The fragments before j pass their checks and fit. */
  predicate GoOn(key: S.Value<byte>, checks: Checks, calls: seq<Call>, gs: seq<G.Item>, j: nat)
    requires j <= |calls| == |gs|
  {
    forall k :: 0 <= k < j ==> PassesAt(checks, calls, k) && !TooLong(key, gs[..k], gs[k])
  }

  lemma GoOnTake(key: S.Value<byte>, checks: Checks, calls: seq<Call>, gs: seq<G.Item>, n: nat)
    requires n < |calls| == |gs| && GoOn(key, checks, calls, gs, n + 1)
    ensures GoOn(key, checks, calls, gs, n) && checks(calls[..n + 1]).Passed? && !TooLong(key, gs[..n], gs[n])
  {
    assert PassesAt(checks, calls, n);
  }

  /** What the first j calls leave. */
  ghost predicate After(key: S.Value<byte>, mark: nat, gs: seq<G.Item>, r: (Seg, Option<Stop>)) {
    r.1.None? && Segmented(gs, mark, r.0) && KeyKept(key, gs, r.0)
  }

  lemma {:induction false} FoldGoesOn(buf: Bytes, key: S.Value<byte>, checks: Checks, mark: nat, s: Seg, calls: seq<Call>,
                                      gs: seq<G.Item>, j: nat)
    requires WindowsOf(buf, calls, gs) && j <= |calls| && GoOn(key, checks, calls, gs, j)
    requires Segmented([], mark, s) && KeyKept(key, [], s)
    ensures After(key, mark, gs[..j], Fold(buf, checks, mark, s, calls[..j]))
  {
    if j > 0 {
      GoOnTake(key, checks, calls, gs, j - 1);
      FoldGoesOn(buf, key, checks, mark, s, calls, gs, j - 1);
      FoldGoesOnce(buf, key, checks, mark, s, calls, gs, j - 1);
    }
  }

  lemma FoldGoesOnce(buf: Bytes, key: S.Value<byte>, checks: Checks, mark: nat, s: Seg, calls: seq<Call>, gs: seq<G.Item>, n: nat)
    requires WindowsOf(buf, calls, gs) && n < |calls| && After(key, mark, gs[..n], Fold(buf, checks, mark, s, calls[..n]))
    requires checks(calls[..n + 1]).Passed? && !TooLong(key, gs[..n], gs[n])
    ensures After(key, mark, gs[..n + 1], Fold(buf, checks, mark, s, calls[..n + 1]))
  {
    FoldNext(buf, key, checks, mark, s, calls, gs, n, Fold(buf, checks, mark, s, calls[..n]).0);
    SnocTake(gs, n);
    PassedNext(key, mark, gs[..n], gs[n], gs[..n + 1], Fold(buf, checks, mark, s, calls[..n + 1]));
  }

  lemma FoldAll(buf: Bytes, key: S.Value<byte>, checks: Checks, mark: nat, s: Seg, calls: seq<Call>, gs: seq<G.Item>)
    requires WindowsOf(buf, calls, gs) && GoOn(key, checks, calls, gs, |calls|)
    requires Segmented([], mark, s) && KeyKept(key, [], s)
    ensures After(key, mark, gs, Fold(buf, checks, mark, s, calls))
  {
    FoldGoesOn(buf, key, checks, mark, s, calls, gs, |calls|);
    assert calls[..|calls|] == calls && gs[..|calls|] == gs;
  }

  lemma SnocTake<T>(s: seq<T>, n: nat)
    requires n < |s|
    ensures s[..n + 1] == s[..n] + [s[n]]
  {
  }

  lemma PassedNext(key: S.Value<byte>, mark: nat, gs: seq<G.Item>, g: G.Item, all: seq<G.Item>, r: (Seg, Option<Stop>))
    requires NextTold(key, Passed, mark, gs, g, r) && !TooLong(key, gs, g) && all == gs + [g]
    ensures After(key, mark, all, r)
  {
  }

  lemma FoldNext(buf: Bytes, key: S.Value<byte>, checks: Checks, mark: nat, s: Seg, calls: seq<Call>, gs: seq<G.Item>, j: nat,
                 before: Seg)
    requires WindowsOf(buf, calls, gs) && j < |calls| && Fold(buf, checks, mark, s, calls[..j]) == (before, None)
    requires Segmented(gs[..j], mark, before) && KeyKept(key, gs[..j], before)
    ensures NextTold(key, checks(calls[..j + 1]), mark, gs[..j], gs[j], Fold(buf, checks, mark, s, calls[..j + 1]))
  {
    assert WindowOf(buf, calls[j].window, gs[j], |G.Concat(gs[..j])|);
    FoldStep(buf, checks, mark, s, calls, j);
    StepTold(buf, key, checks(calls[..j + 1]), mark, before, gs[..j], gs[j], calls[j].window);
  }

  ghost predicate NextTold(key: S.Value<byte>, check: Check, mark: nat, gs: seq<G.Item>, g: G.Item, r: (Seg, Option<Stop>)) {
    StepEnds(key, check, gs, g, r) && (r.1.None? ==> Segmented(gs + [g], mark, r.0))
  }

  lemma StepTold(buf: Bytes, key: S.Value<byte>, check: Check, mark: nat, s: Seg, gs: seq<G.Item>, g: G.Item, w: seq<Ie>)
    requires Segmented(gs, mark, s) && KeyKept(key, gs, s) && NoneEmpty(gs) && WindowOf(buf, w, g, |G.Concat(gs)|)
    ensures NextTold(key, check, mark, gs, g, OnFragment(buf, check, mark, s, w))
  {
    StepEndsExactly(buf, key, check, mark, s, gs, g, w);
    if OnFragment(buf, check, mark, s, w).1.None? { SegmentStep(buf, mark, s, gs, g, w, check); }
  }

  /** Fragment j ends the search. */
  predicate EndsIt(key: S.Value<byte>, checks: Checks, calls: seq<Call>, gs: seq<G.Item>, j: nat)
    requires j < |calls| == |gs|
  {
    !PassesAt(checks, calls, j) || TooLong(key, gs[..j], gs[j])
  }

  lemma {:induction false} FirstEnd(key: S.Value<byte>, checks: Checks, calls: seq<Call>, gs: seq<G.Item>, n: nat) returns (j: nat)
    requires n <= |calls| == |gs|
    ensures j <= n && GoOn(key, checks, calls, gs, j) && (j < n ==> EndsIt(key, checks, calls, gs, j))
  {
    j := n;
    if n > 0 {
      j := FirstEnd(key, checks, calls, gs, n - 1);
      if j == n - 1 && !EndsIt(key, checks, calls, gs, j) { j := n; }
    }
  }

  // ----- The search -----

  /** A search whose listing is done: matching stops at the first call that fails, and so does the fold. */
  lemma SearchIsFoldAlways(data: Bytes, fs: seq<Frag>, tail: Bytes, m: seq<Ie>, end: int, traks: set<int>,
                           pend: S.Value<byte>, key: S.Value<byte>, checks: Checks, fuel: nat)
    requires Chunk(data, fs, tail) && Rest(data, |Concat(fs)|, m, end) && fuel > |ChunkEntries(fs, m)|
    requires |data| <= MAX && traks != {} && (fs == [] && m == [] ==> |data| <= 3)
    ensures var s := Start(pend, key);
      SearchOf(data, traks, pend, key, checks, fuel) == Closed(Fold(data, checks, s.pend.t, s, StreamCalls(fs, 0, 0)))
  {
    DecodeChunk(data, fs, tail, m, end, fuel);
    if fs != [] { NotEmptyListing(fs); }
    var s, all := Start(pend, key), StreamCalls(fs, 0, 0);
    var reply := Answers(data, checks, s.pend.t, s);
    var calls := Rows(PATTERNS, ChunkEntries(fs, m), reply, 0, Ids(2), []).calls;
    ChunkCalls(fs, m, reply);
    if calls != all {
      assert all[..|calls|] == calls;
      FoldStops(data, checks, s.pend.t, s, all, |calls|);
    }
  }

  /** A successful search. */
  ghost predicate Complete(fs: seq<Frag>, r: Search) {
    var gs := Items(fs);
    r.result == Returned(G.Cursor(gs), None) && r.key.content == G.Emitted(gs) && r.pend.content == G.Pending(gs)
  }

  /** A search that fragment j has ended, by its check or because the group before it does not fit. */
  ghost predicate CutShort(fs: seq<Frag>, key: S.Value<byte>, check: Check, j: nat, r: Search)
    requires j < |fs|
  {
    var before := Items(fs)[..j];
    match check
    case Broken => r.result.Crashed?
    case Refused(reset) => Refuses(CheckFailed, if reset then [] else G.Pending(before), r)
    case Passed => TooLong(key, before, Items(fs)[j]) && Refuses(OverMax, G.Pending(before), r)
  }

  predicate Refuses(e: Stop, pending: Bytes, r: Search) {
    r.result == Returned(0, Some(Fragment(e))) && r.key.content == [] && r.pend.content == pending
  }

  /**
   * A search that the fragments before j let go on: with none left it is successful. Else fragment j ends it: a read outside
   * the buffer; a refusal, with the pending group thrown away or not; or a group that does not fit. After an error the cursor
   * is zero and the key frame buffer empty.
   */
  ghost predicate EndsAt(fs: seq<Frag>, key: S.Value<byte>, checks: Checks, j: nat, r: Search)
    requires j <= |fs|
  {
    var calls := StreamCalls(fs, 0, 0);
    && GoOn(key, checks, calls, Items(fs), j)
    && if j == |fs| then Complete(fs, r) else CutShort(fs, key, checks(calls[..j + 1]), j, r)
  }

  lemma FoldCompletes(data: Bytes, fs: seq<Frag>, key: S.Value<byte>, checks: Checks, s: Seg)
    requires WindowsOf(data, StreamCalls(fs, 0, 0), Items(fs)) && Segmented([], s.pend.t, s) && KeyKept(key, [], s)
    requires GoOn(key, checks, StreamCalls(fs, 0, 0), Items(fs), |fs|)
    ensures Complete(fs, Closed(Fold(data, checks, s.pend.t, s, StreamCalls(fs, 0, 0))))
  {
    var calls, gs := StreamCalls(fs, 0, 0), Items(fs);
    FoldAll(data, key, checks, s.pend.t, s, calls, gs);
    ClosedCompletes(fs, key, s.pend.t, Fold(data, checks, s.pend.t, s, calls));
  }

  lemma ClosedCompletes(fs: seq<Frag>, key: S.Value<byte>, mark: nat, r: (Seg, Option<Stop>))
    requires After(key, mark, Items(fs), r)
    ensures Complete(fs, Closed(r))
  {
  }

  lemma FoldCutShort(data: Bytes, fs: seq<Frag>, key: S.Value<byte>, checks: Checks, s: Seg, j: nat)
    requires WindowsOf(data, StreamCalls(fs, 0, 0), Items(fs)) && Segmented([], s.pend.t, s) && KeyKept(key, [], s)
    requires j < |fs| && GoOn(key, checks, StreamCalls(fs, 0, 0), Items(fs), j)
    requires EndsIt(key, checks, StreamCalls(fs, 0, 0), Items(fs), j)
    ensures CutShort(fs, key, checks(StreamCalls(fs, 0, 0)[..j + 1]), j,
                     Closed(Fold(data, checks, s.pend.t, s, StreamCalls(fs, 0, 0))))
  {
    var calls, gs, mark := StreamCalls(fs, 0, 0), Items(fs), s.pend.t;
    FoldGoesOn(data, key, checks, mark, s, calls, gs, j);
    FoldNext(data, key, checks, mark, s, calls, gs, j, Fold(data, checks, mark, s, calls[..j]).0);
    ClosedEnds(fs, key, checks(calls[..j + 1]), j, Fold(data, checks, mark, s, calls[..j + 1]));
    FoldStops(data, checks, mark, s, calls, j + 1);
  }

  /** A fold that fragment j has ended. */
  lemma ClosedEnds(fs: seq<Frag>, key: S.Value<byte>, check: Check, j: nat, r: (Seg, Option<Stop>))
    requires j < |fs| && StepEnds(key, check, Items(fs)[..j], Items(fs)[j], r)
    requires check.Passed? ==> TooLong(key, Items(fs)[..j], Items(fs)[j])
    ensures r.1.Some? && CutShort(fs, key, check, j, Closed(r))
  {
  }

  /** Every search of a chunk ends in one of these ways, at the first fragment that does not let it go on. */
  lemma SearchExactly(data: Bytes, fs: seq<Frag>, tail: Bytes, m: seq<Ie>, end: int, traks: set<int>,
                      pend: S.Value<byte>, key: S.Value<byte>, checks: Checks, fuel: nat) returns (j: nat)
    requires Chunk(data, fs, tail) && Rest(data, |Concat(fs)|, m, end) && fuel > |ChunkEntries(fs, m)|
    requires |data| <= MAX && traks != {} && pend.maxsize == 0 && (fs == [] && m == [] ==> |data| <= 3)
    ensures j <= |fs| && EndsAt(fs, key, checks, j, SearchOf(data, traks, pend, key, checks, fuel))
  {
    var s := Start(pend, key);
    SearchIsFoldAlways(data, fs, tail, m, end, traks, pend, key, checks, fuel);
    assert G.Cursor([]) == 0 && Segmented([], s.pend.t, s);
    assert data[0..|Concat(fs)|] == Concat(fs);
    FragmentWindows(data, fs);
    j := FirstEnd(key, checks, StreamCalls(fs, 0, 0), Items(fs), |fs|);
    if j == |fs| { FoldCompletes(data, fs, key, checks, s); } else { FoldCutShort(data, fs, key, checks, s, j); }
  }

  /** Any error but the two early ones leaves a cursor of zero and an empty key frame buffer; those leave both buffers alone. */
  lemma ErrorLeavesNothing(data: Bytes, traks: set<int>, pend: S.Value<byte>, key: S.Value<byte>, checks: Checks, fuel: nat)
    requires var r := SearchOf(data, traks, pend, key, checks, fuel).result; r.Returned? && r.err.Some?
    ensures var r := SearchOf(data, traks, pend, key, checks, fuel);
      && r.result.cu == 0
      && if r.result.err.value.BufTooLarge? || r.result.err.value.MisTraks? then r.pend == pend && r.key == key
         else r.key.content == []
  {
  }

  /** The two early errors, exactly. */
  lemma EarlyExactly(data: Bytes, traks: set<int>, pend: S.Value<byte>, key: S.Value<byte>, checks: Checks, fuel: nat)
    ensures var e := SearchOf(data, traks, pend, key, checks, fuel).result;
      && (e == Returned(0, Some(BufTooLarge)) <==> |data| > 100 * 1000 * 1000)
      && (e == Returned(0, Some(MisTraks)) <==> |data| <= 100 * 1000 * 1000 && traks == {})
  {
  }

  /** A search is successful only if every fragment of the chunk has passed its check. */
  lemma SuccessMeansPassed(data: Bytes, fs: seq<Frag>, tail: Bytes, m: seq<Ie>, end: int, traks: set<int>,
                           pend: S.Value<byte>, key: S.Value<byte>, checks: Checks, fuel: nat)
    requires Chunk(data, fs, tail) && Rest(data, |Concat(fs)|, m, end) && fuel > |ChunkEntries(fs, m)|
    requires |data| <= MAX && traks != {} && pend.maxsize == 0 && (fs == [] && m == [] ==> |data| <= 3)
    requires var r := SearchOf(data, traks, pend, key, checks, fuel).result; r.Returned? && r.err.None?
    ensures Passing(checks, StreamCalls(fs, 0, 0))
  {
    var j := SearchExactly(data, fs, tail, m, end, traks, pend, key, checks, fuel);
    CompletePassed(fs, key, checks, j, SearchOf(data, traks, pend, key, checks, fuel));
  }

  lemma CompletePassed(fs: seq<Frag>, key: S.Value<byte>, checks: Checks, j: nat, r: Search)
    requires j <= |fs| && EndsAt(fs, key, checks, j, r) && r.result.Returned? && r.result.err.None?
    ensures Passing(checks, StreamCalls(fs, 0, 0))
  {
  }
}
