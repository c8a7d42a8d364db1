/** decoder/mp4: what a search over a stream of fragments emits, and how it is resumed. */
module Mp4Segment {
  import opened Util
  import opened Mp4Box
  import opened Mp4Match
  import opened Mp4Frag
  import opened Fmp4
  import G = Groups
  import S = SliceBuf
  import BigEndian

  function ItemOf(f: Frag): G.Item { G.Item(FragBytes(f), IsKey(f)) }

  function Items(fs: seq<Frag>): (items: seq<G.Item>)
    ensures |items| == |fs| && forall k :: 0 <= k < |fs| ==> items[k] == ItemOf(fs[k])
  {
    seq(|fs|, (k: nat) requires k < |fs| => ItemOf(fs[k]))
  }

  lemma {:induction false} ItemsConcat(fs: seq<Frag>)
    ensures G.Concat(Items(fs)) == Concat(fs)
  {
    if fs != [] {
      ItemsConcat(fs[1..]);
      assert Items(fs)[1..] == Items(fs[1..]);
    }
  }

  // ----- The search as a fold over fragments -----

  /** What the captured variables and buffers hold after the pieces gs. */
  ghost predicate Segmented(gs: seq<G.Item>, mark: nat, s: Seg) {
    && s.have == (G.FirstKey(gs) < |gs|) && s.cu == G.Cursor(gs)
    && s.key.content == G.Emitted(gs) && s.pend.content == G.Pending(gs)
    && s.pend.t >= mark && (s.pend.content != [] ==> s.pend.t > mark) && s.pend.maxsize == 0
  }

  predicate NoneEmpty(gs: seq<G.Item>) { forall k :: 0 <= k < |gs| ==> gs[k].bytes != [] }

  /** One more piece, whatever its bytes, keeps the search segmented as long as there is no error. */
  lemma StepKey(buf: Bytes, mark: nat, s: Seg, gs: seq<G.Item>, g: G.Item, start: nat, end: nat)
    requires Segmented(gs, mark, s) && NoneEmpty(gs) && g.key && start == |G.Concat(gs)|
    requires start <= end <= |buf| && buf[start..end] == g.bytes
    requires var r := Emit(s, mark, start); r.1.None? && Keep(buf, r.0, start, end).1.None?
    ensures Segmented(gs + [g], mark, Keep(buf, Emit(s, mark, start).0, start, end).0)
  {
    G.SnocKey(gs, g);
    G.KeysSnoc(gs, g);
    G.KeysOrdered(gs);
    if s.have { G.PendingNotEmpty(gs); } else { G.NoGroup(gs); }
  }

  lemma StepOther(buf: Bytes, mark: nat, s: Seg, gs: seq<G.Item>, g: G.Item, start: nat, end: nat)
    requires Segmented(gs, mark, s) && !g.key && start == |G.Concat(gs)|
    requires start <= end <= |buf| && buf[start..end] == g.bytes
    requires Keep(buf, if s.have then s else s.(cu := end), start, end).1.None?
    ensures Segmented(gs + [g], mark, Keep(buf, if s.have then s else s.(cu := end), start, end).0)
  {
    G.KeysSnoc(gs, g);
    G.KeysOrdered(gs);
    if s.have { G.SnocJoins(gs, g); } else { G.SnocSkips(gs, g); G.NoGroup(gs); }
  }

  lemma FragmentBytes(buf: Bytes, f: Frag, at: nat)
    requires Mp4Box.Holds(buf, at, FragBytes(f))
    ensures at + FragSize(f) <= |buf| && buf[at..at + FragSize(f)] == FragBytes(f) != []
  {
    FragEntries(f, at);
  }

  lemma FragmentKeyFlag(buf: Bytes, f: Frag, at: nat)
    requires Proper(f) && Mp4Box.Holds(buf, at, FragBytes(f))
    ensures var w := Window(f, at); (|w| == 7 || |w| == 11) && w[0].i == at && w[|w| - 1].e == at + FragSize(f)
    ensures KeyFlag(buf, Window(f, at)) == Some(IsKey(f))
  {
    FragEntries(f, at);
    FragFlags(buf, at, f);
    var w := Window(f, at);
    assert |w| == if Two(f) then 11 else 7;
  }

  /** The entries w are those of the piece g, whose bytes begin at `at`. */
  predicate WindowOf(buf: Bytes, w: seq<Ie>, g: G.Item, at: nat) {
    && (|w| == 7 || |w| == 11) && KeyFlag(buf, w) == Some(g.key)
    && w[0].i == at <= w[|w| - 1].e <= |buf| && buf[at..w[|w| - 1].e] == g.bytes != []
  }

  lemma SegmentStep(buf: Bytes, mark: nat, s: Seg, gs: seq<G.Item>, g: G.Item, w: seq<Ie>, check: Check)
    requires Segmented(gs, mark, s) && NoneEmpty(gs) && WindowOf(buf, w, g, |G.Concat(gs)|)
    requires OnFragment(buf, check, mark, s, w).1.None?
    ensures Segmented(gs + [g], mark, OnFragment(buf, check, mark, s, w).0)
  {
    var at, end := w[0].i, w[|w| - 1].e;
    if g.key { StepKey(buf, mark, s, gs, g, at, end); } else { StepOther(buf, mark, s, gs, g, at, end); }
  }

  lemma SliceAfterFirst<T>(fs: seq<T>, n: nat)
    requires 0 < n <= |fs|
    ensures fs[1..][..n - 1] == fs[..n][1..] == fs[1..n] && fs[..n][0] == fs[0] && fs[..n] == [fs[0]] + fs[1..n]
  {
  }

  lemma OffsetAfterFirst(fs: seq<Frag>, n: nat)
    requires 0 < n <= |fs|
    ensures |Concat(fs[..n])| == FragSize(fs[0]) + |Concat(fs[1..n])|
  {
    FragEntries(fs[0], 0);
    SliceAfterFirst(fs, n);
  }

  lemma {:induction false} StreamCallsAt(fs: seq<Frag>, at: nat, s: nat, n: nat, start: nat)
    requires n < |fs| && start == at + |Concat(fs[..n])|
    ensures StreamCalls(fs, at, s)[n].window == Window(fs[n], start)
    decreases |fs|
  {
    if n > 0 {
      OffsetAfterFirst(fs, n);
      SliceAfterFirst(fs, n);
      StreamCallsAt(fs[1..], at + FragSize(fs[0]), s + |Shape(Two(fs[0]))|, n - 1, start);
    }
  }

  lemma PrefixHolds(buf: Bytes, fs: seq<Frag>, n: nat)
    requires n < |fs| && Mp4Box.Holds(buf, 0, Concat(fs))
    ensures Mp4Box.Holds(buf, 0, Concat(fs[..n])) && Mp4Box.Holds(buf, |Concat(fs[..n])|, FragBytes(fs[n]))
  {
    ConcatJoins(fs[..n], fs[n..]);
    assert fs[..n] + fs[n..] == fs;
    assert Concat(fs[n..]) == FragBytes(fs[n]) + Concat(fs[n..][1..]);
    HoldsParts(buf, 0, Concat(fs[..n]), Concat(fs[n..]));
    HoldsParts(buf, |Concat(fs[..n])|, FragBytes(fs[n]), Concat(fs[n..][1..]));
  }

  lemma {:induction false} ConcatJoins(a: seq<Frag>, b: seq<Frag>)
    ensures Concat(a + b) == Concat(a) + Concat(b)
  {
    if a == [] {
      assert a + b == b;
    } else {
      ConcatJoins(a[1..], b);
      FirstOfBoth(a, b);
      ConcatFirst(a);
      ConcatFirst(a + b);
      Regroup(FragBytes(a[0]), Concat(a[1..]), Concat(b));
    }
  }

  lemma FirstOfBoth<T>(a: seq<T>, b: seq<T>)
    requires a != []
    ensures (a + b)[0] == a[0] && (a + b)[1..] == a[1..] + b
  {
  }

  lemma ConcatFirst(fs: seq<Frag>)
    requires fs != []
    ensures Concat(fs) == FragBytes(fs[0]) + Concat(fs[1..])
  {
  }

  /** Every call is for its piece, where the pieces before it end. */
  predicate WindowsOf(buf: Bytes, calls: seq<Call>, gs: seq<G.Item>) {
    |calls| == |gs| && forall k :: 0 <= k < |gs| ==> WindowOf(buf, calls[k].window, gs[k], |G.Concat(gs[..k])|)
  }

  lemma WindowsOfPrefix(buf: Bytes, calls: seq<Call>, gs: seq<G.Item>)
    requires calls != [] && WindowsOf(buf, calls, gs)
    ensures var n := |calls| - 1;
      WindowsOf(buf, calls[..n], gs[..n]) && WindowOf(buf, calls[n].window, gs[n], |G.Concat(gs[..n])|)
    ensures forall k :: 0 <= k < |gs| ==> gs[k].bytes != []
  {
    WindowsOfTake(buf, calls, gs, |calls| - 1);
  }

  lemma WindowsOfTake(buf: Bytes, calls: seq<Call>, gs: seq<G.Item>, n: nat)
    requires WindowsOf(buf, calls, gs) && n <= |calls|
    ensures WindowsOf(buf, calls[..n], gs[..n])
  {
    assert forall k :: 0 <= k < n ==> gs[..n][..k] == gs[..k];
  }

  /** The last of the calls. */
  lemma SegmentFoldStep(buf: Bytes, checks: Checks, mark: nat, s: Seg, calls: seq<Call>, gs: seq<G.Item>, n: nat, before: Seg)
    requires calls != [] && n == |calls| - 1 && WindowsOf(buf, calls, gs)
    requires Fold(buf, checks, mark, s, calls[..n]) == (before, None) && Segmented(gs[..n], mark, before)
    requires Fold(buf, checks, mark, s, calls).1.None?
    ensures Segmented(gs, mark, Fold(buf, checks, mark, s, calls).0)
  {
    WindowsOfPrefix(buf, calls, gs);
    SegmentStep(buf, mark, before, gs[..n], gs[n], calls[n].window, checks(calls));
    assert gs[..n] + [gs[n]] == gs;
  }

  /** The captured variables group the pieces. */
  lemma {:induction false} SegmentFold(buf: Bytes, checks: Checks, mark: nat, s: Seg, calls: seq<Call>, gs: seq<G.Item>)
    requires WindowsOf(buf, calls, gs) && Segmented([], mark, s) && Fold(buf, checks, mark, s, calls).1.None?
    ensures Segmented(gs, mark, Fold(buf, checks, mark, s, calls).0)
  {
    if calls == [] {
      assert gs == [];
    } else {
      var n := |calls| - 1;
      var r := Fold(buf, checks, mark, s, calls[..n]);
      assert r.1.None?;
      WindowsOfTake(buf, calls, gs, n);
      SegmentFold(buf, checks, mark, s, calls[..n], gs[..n]);
      SegmentFoldStep(buf, checks, mark, s, calls, gs, n, r.0);
    }
  }

  lemma FragmentWindow(buf: Bytes, fs: seq<Frag>, k: nat)
    requires AllProper(fs) && Mp4Box.Holds(buf, 0, Concat(fs)) && k < |fs|
    ensures WindowOf(buf, StreamCalls(fs, 0, 0)[k].window, ItemOf(fs[k]), |Concat(fs[..k])|)
  {
    StreamCallsAt(fs, 0, 0, k, |Concat(fs[..k])|);
    PrefixHolds(buf, fs, k);
    FragmentKeyFlag(buf, fs[k], |Concat(fs[..k])|);
    FragmentBytes(buf, fs[k], |Concat(fs[..k])|);
  }

  /** The calls for the fragments laid one after the other from the start of the buffer. */
  lemma FragmentWindows(buf: Bytes, fs: seq<Frag>)
    requires AllProper(fs) && Mp4Box.Holds(buf, 0, Concat(fs))
    ensures WindowsOf(buf, StreamCalls(fs, 0, 0), Items(fs))
  {
    var gs, calls := Items(fs), StreamCalls(fs, 0, 0);
    forall k | 0 <= k < |gs|
      ensures WindowOf(buf, calls[k].window, gs[k], |G.Concat(gs[..k])|)
    {
      FragmentWindow(buf, fs, k);
      ItemsConcat(fs[..k]);
      assert gs[..k] == Items(fs[..k]);
    }
  }

  // ----- The whole search -----

  /** From `at` on the walk lists the entries m, which complete neither pattern, and stops at `end`. */
  ghost predicate Rest(data: Bytes, at: int, m: seq<Ie>, end: int) {
    Path(BOXES, data, at, m, end) && StopsAt(BOXES, data, end) && Silent(m, 0)
  }

  /** The chunk holds these fragments and then `tail`, in which decode finds no further fragment. */
  ghost predicate Chunk(data: Bytes, fs: seq<Frag>, tail: Bytes) {
    AllProper(fs) && data == Concat(fs) + tail && exists m, end :: Rest(data, |Concat(fs)|, m, end)
  }

  /** The listing of a chunk whose tail lists m. */
  function ChunkEntries(fs: seq<Frag>, m: seq<Ie>): seq<Ie> { Pre(Stream(fs), 0) + m }

  lemma StreamPath(data: Bytes, fs: seq<Frag>)
    requires AllProper(fs) && Mp4Box.Holds(data, 0, Concat(fs))
    ensures Path(BOXES, data, 0, Pre(Stream(fs), 0), |Concat(fs)|)
  {
    StreamSer(fs);
    SerLaid(BOXES, data, 0, Stream(fs));
    ForestPath(BOXES, data, 0, Stream(fs), |Concat(fs)|);
  }

  lemma ChunkPath(data: Bytes, fs: seq<Frag>, tail: Bytes, m: seq<Ie>, end: int)
    requires AllProper(fs) && data == Concat(fs) + tail && Path(BOXES, data, |Concat(fs)|, m, end)
    ensures Path(BOXES, data, 0, ChunkEntries(fs, m), end)
  {
    assert data[0..|Concat(fs)|] == Concat(fs);
    StreamPath(data, fs);
    PathJoin(BOXES, data, 0, Pre(Stream(fs), 0), |Concat(fs)|, m, end);
  }

  lemma DecodeChunk(data: Bytes, fs: seq<Frag>, tail: Bytes, m: seq<Ie>, end: int, fuel: nat)
    requires Chunk(data, fs, tail) && Rest(data, |Concat(fs)|, m, end)
    ensures var ies := ChunkEntries(fs, m);
      var o := Walk(BOXES, data, MOOF, START, fuel);
      && (o == Outcome.Unfinished || o == Done(ies, if ies == [] && |data| > 3 then Some(MisBox) else None))
      && (fuel > |ies| ==> o != Outcome.Unfinished)
  {
    var ies := ChunkEntries(fs, m);
    ChunkPath(data, fs, tail, m, end);
    if fuel < |ies| {
      WalkShort(BOXES, data, MOOF, START, ies, end, fuel);
    } else {
      var last := State(end, ies, None);
      assert [] + ies == ies;
      WalkFollows(BOXES, data, MOOF, START, fuel, ies, last, fuel - |ies|);
      WalkStops(BOXES, data, MOOF, last, fuel - |ies|);
      assert ies == [] ==> end == 0;
    }
  }

  lemma {:induction false} UntilErrorCalls<E>(reply: Functions<E>, done: seq<Call>, todo: seq<Call>)
    ensures var r := UntilError(reply, done, todo);
      r.calls <= done + todo && if r.err.None? then r.calls == done + todo else reply(r.calls).err.Some?
    decreases |todo|
  {
    if todo == [] {
      assert done + todo == done;
    } else {
      UntilErrorCalls(reply, done + [todo[0]], todo[1..]);
      assert done + [todo[0]] + todo[1..] == done + todo;
    }
  }

  /** Matching in a chunk's listing: the calls are the fragments' own, all of them or up to one that fails. */
  lemma ChunkCalls(fs: seq<Frag>, m: seq<Ie>, reply: Functions<Stop>)
    requires AllProper(fs) && Silent(m, 0) && forall calls :: NeverDrops(reply, calls)
    ensures var calls := Rows(PATTERNS, ChunkEntries(fs, m), reply, 0, Ids(2), []).calls;
      calls <= StreamCalls(fs, 0, 0) && (calls == StreamCalls(fs, 0, 0) || reply(calls).err.Some?)
  {
    var ies := ChunkEntries(fs, m);
    assert ies[0..] == ies;
    StreamShapes(fs, 0, ies, 0, m);
    StreamListing(fs, 0, ies, 0, m);
    assert Ids(2) == BOTH;
    OneCallPerFragment(ies, reply, 0, Shapes(fs), m, [], StreamCalls(fs, 0, 0));
    UntilErrorCalls(reply, [], StreamCalls(fs, 0, 0));
    assert [] + StreamCalls(fs, 0, 0) == StreamCalls(fs, 0, 0);
  }

  /** r is a search of the data that returned without error, whatever the buffers, tracks, checks and number of turns. */
  ghost predicate Succeeded(data: Bytes, r: Search) {
    && r.result.Returned? && r.result.err.None?
    && exists traks: set<int>, pend: S.Value<byte>, key: S.Value<byte>, checks: Checks, fuel: nat ::
        pend.maxsize == 0 && r == SearchOf(data, traks, pend, key, checks, fuel)
  }

  /** The fold a successful search is. */
  lemma SearchIsFold(data: Bytes, fs: seq<Frag>, tail: Bytes, traks: set<int>, pend: S.Value<byte>, key: S.Value<byte>,
                     checks: Checks, fuel: nat)
    requires Chunk(data, fs, tail)
    requires var r := SearchOf(data, traks, pend, key, checks, fuel).result; r.Returned? && r.err.None?
    ensures var s := Start(pend, key); var f := Fold(data, checks, s.pend.t, s, StreamCalls(fs, 0, 0));
      f.1.None? && SearchOf(data, traks, pend, key, checks, fuel) == Closed(f)
  {
    var m, end :| Rest(data, |Concat(fs)|, m, end);
    DecodeChunk(data, fs, tail, m, end, fuel);
    var s := Start(pend, key);
    var reply := Answers(data, checks, s.pend.t, s);
    SearchUnfolds(data, ChunkEntries(fs, m), traks, pend, key, checks, fuel);
    ChunkCalls(fs, m, reply);
  }

  /** What a search does with a listing that decode has given without error. */
  lemma SearchUnfolds(data: Bytes, m: seq<Ie>, traks: set<int>, pend: S.Value<byte>, key: S.Value<byte>, checks: Checks,
                      fuel: nat)
    requires var r := SearchOf(data, traks, pend, key, checks, fuel).result; r.Returned? && r.err.None?
    requires var o := Walk(BOXES, data, MOOF, START, fuel); o == Outcome.Unfinished || (o.Done? && o.m == m)
    ensures var s := Start(pend, key); var reply := Answers(data, checks, s.pend.t, s);
      var calls := Rows(PATTERNS, m, reply, 0, Ids(2), []).calls;
      var f := Fold(data, checks, s.pend.t, s, calls);
      f.1.None? && reply(calls).err.None? && SearchOf(data, traks, pend, key, checks, fuel) == Closed(f)
  {
  }

  /** A successful search has emitted the complete groups, keeps the last one, and says where that one begins. */
  lemma Segmentation(data: Bytes, fs: seq<Frag>, tail: Bytes, r: Search)
    requires Chunk(data, fs, tail) && Succeeded(data, r)
    ensures r.key.content == G.Emitted(Items(fs)) && r.pend.content == G.Pending(Items(fs))
    ensures r.result.cu == G.Cursor(Items(fs))
  {
    var traks: set<int>, pend: S.Value<byte>, key: S.Value<byte>, checks: Checks, fuel: nat :|
      pend.maxsize == 0 && r == SearchOf(data, traks, pend, key, checks, fuel);
    SearchIsFold(data, fs, tail, traks, pend, key, checks, fuel);
    var s := Start(pend, key);
    assert data[0..|Concat(fs)|] == Concat(fs);
    FragmentWindows(data, fs);
    assert G.Cursor([]) == 0 && Segmented([], s.pend.t, s);
    SegmentFold(data, checks, s.pend.t, s, StreamCalls(fs, 0, 0), Items(fs));
  }

  /** Key frame buffer and pending buffer: everything from the first key frame on, and nothing beyond the cursor is lost. */
  lemma SegmentationCovers(data: Bytes, fs: seq<Frag>, tail: Bytes, r: Search)
    requires Chunk(data, fs, tail) && Succeeded(data, r)
    ensures var first := G.FirstKey(Items(fs)); r.key.content + r.pend.content == Concat(fs[first..])
    ensures 0 <= r.result.cu <= |Concat(fs)| && data[r.result.cu..|Concat(fs)|] == r.pend.content
  {
    Segmentation(data, fs, tail, r);
    var gs := Items(fs);
    G.GroupsPartition(gs);
    ItemsConcat(fs);
    ItemsConcat(fs[G.FirstKey(gs)..]);
    assert gs[G.FirstKey(gs)..] == Items(fs[G.FirstKey(gs)..]);
    assert data[..|Concat(fs)|] == Concat(fs);
  }

  // ----- When it succeeds -----

  predicate PassesAt(checks: Checks, calls: seq<Call>, k: nat)
    requires k < |calls|
  {
    checks(calls[..k + 1]).Passed?
  }

  /** The checks pass on every call so far. */
  predicate Passing(checks: Checks, calls: seq<Call>) { forall k :: 0 <= k < |calls| ==> PassesAt(checks, calls, k) }

  lemma PassingTake(checks: Checks, calls: seq<Call>, n: nat)
    requires n <= |calls| && Passing(checks, calls)
    ensures Passing(checks, calls[..n]) && (calls != [] ==> checks(calls).Passed?)
  {
    forall k | 0 <= k < n
      ensures PassesAt(checks, calls[..n], k)
    {
      assert calls[..n][..k + 1] == calls[..k + 1] && PassesAt(checks, calls, k);
    }
    if calls != [] { assert PassesAt(checks, calls, |calls| - 1) && calls[..|calls|] == calls; }
  }

  lemma {:induction false} PassingFold(buf: Bytes, checks: Checks, mark: nat, s: Seg, calls: seq<Call>, gs: seq<G.Item>)
    requires WindowsOf(buf, calls, gs) && Segmented([], mark, s) && s.key.maxsize == 0 && Passing(checks, calls)
    ensures var r := Fold(buf, checks, mark, s, calls); r.1.None? && r.0.key.maxsize == 0
  {
    if calls != [] {
      var n := |calls| - 1;
      WindowsOfPrefix(buf, calls, gs);
      PassingTake(checks, calls, n);
      PassingFold(buf, checks, mark, s, calls[..n], gs[..n]);
      SegmentFold(buf, checks, mark, s, calls[..n], gs[..n]);
      PassingStep(buf, mark, Fold(buf, checks, mark, s, calls[..n]).0, gs[..n], gs[n], calls[n].window);
    }
  }

  lemma PassingStep(buf: Bytes, mark: nat, s: Seg, gs: seq<G.Item>, g: G.Item, w: seq<Ie>)
    requires Segmented(gs, mark, s) && s.key.maxsize == 0 && WindowOf(buf, w, g, |G.Concat(gs)|)
    ensures var r := OnFragment(buf, Passed, mark, s, w); r.1.None? && r.0.key.maxsize == 0
  {
  }

  /**
   * With passing checks, no limit on the key frame buffer and turns enough, a chunk in which there is any box is searched
   * without error.
   */
  lemma Succeeds(data: Bytes, fs: seq<Frag>, tail: Bytes, traks: set<int>, pend: S.Value<byte>, key: S.Value<byte>,
                 checks: Checks, fuel: nat, m: seq<Ie>, end: int)
    requires Chunk(data, fs, tail) && Rest(data, |Concat(fs)|, m, end) && fuel > |ChunkEntries(fs, m)|
    requires pend.maxsize == 0 && key.maxsize == 0 && |data| <= MAX && traks != {} && Passing(checks, StreamCalls(fs, 0, 0))
    requires fs == [] && m == [] ==> |data| <= 3
    ensures Succeeded(data, SearchOf(data, traks, pend, key, checks, fuel))
  {
    DecodeChunk(data, fs, tail, m, end, fuel);
    if fs != [] { NotEmptyListing(fs); }
    var s := Start(pend, key);
    AllPass(data, fs, m, checks, s);
    assert SearchOf(data, traks, pend, key, checks, fuel).result.Returned?;
  }

  /** No prefix of the calls fails, so that matching makes them all. */
  lemma AllPass(data: Bytes, fs: seq<Frag>, m: seq<Ie>, checks: Checks, s: Seg)
    requires AllProper(fs) && Mp4Box.Holds(data, 0, Concat(fs)) && Silent(m, 0) && Passing(checks, StreamCalls(fs, 0, 0))
    requires Segmented([], s.pend.t, s) && s.key.maxsize == 0
    ensures var calls := Rows(PATTERNS, ChunkEntries(fs, m), Answers(data, checks, s.pend.t, s), 0, Ids(2), []).calls;
      calls == StreamCalls(fs, 0, 0) && Fold(data, checks, s.pend.t, s, calls).1.None?
  {
    var reply := Answers(data, checks, s.pend.t, s);
    var calls := Rows(PATTERNS, ChunkEntries(fs, m), reply, 0, Ids(2), []).calls;
    ChunkCalls(fs, m, reply);
    FragmentWindows(data, fs);
    NoPrefixFails(data, checks, s, StreamCalls(fs, 0, 0), Items(fs), calls);
  }

  lemma NoPrefixFails(data: Bytes, checks: Checks, s: Seg, all: seq<Call>, gs: seq<G.Item>, calls: seq<Call>)
    requires WindowsOf(data, all, gs) && Passing(checks, all) && calls <= all
    requires Segmented([], s.pend.t, s) && s.key.maxsize == 0
    ensures Fold(data, checks, s.pend.t, s, calls).1.None?
  {
    WindowsOfTake(data, all, gs, |calls|);
    PassingTake(checks, all, |calls|);
    assert all[..|calls|] == calls;
    PassingFold(data, checks, s.pend.t, s, calls, gs[..|calls|]);
  }

  lemma NotEmptyListing(fs: seq<Frag>)
    requires fs != []
    ensures Pre(Stream(fs), 0) != []
  {
  }

  // ----- Resuming -----

  /** What is left of a buffer from a cursor on. */
  function From(data: Bytes, cu: int): Bytes { if 0 <= cu <= |data| then data[cu..] else [] }

  lemma StopsAtFrom(data: Bytes, cu: nat, at: nat)
    requires cu <= at && cu <= |data| && StopsAt(BOXES, data, at)
    ensures StopsAt(BOXES, From(data, cu), at - cu)
  {
    if at < |data| - 3 && at + 8 <= |data| { HeaderFrom(data, cu, at); }
  }

  /** A header is the same in what is left of a buffer. */
  lemma HeaderFrom(data: Bytes, cu: nat, at: nat)
    requires cu <= at && at + 8 <= |data|
    ensures From(data, cu)[at - cu + 4..at - cu + 8] == data[at + 4..at + 8]
    ensures Size(From(data, cu), at - cu) == Size(data, at)
  {
    assert BigEndian.Field(From(data, cu), at - cu, 4) == BigEndian.Field(data, at, 4);
  }

  function MovedOne(x: Ie, d: int): Ie { Ie(x.n, x.i - d, x.e - d) }

  function Moved(m: seq<Ie>, d: int): (r: seq<Ie>)
    ensures |r| == |m| && forall k :: 0 <= k < |m| ==> r[k] == MovedOne(m[k], d)
  {
    seq(|m|, k requires 0 <= k < |m| => MovedOne(m[k], d))
  }

  lemma FaithfulFrom(boxes: Boxes, data: Bytes, cu: nat, x: Ie)
    requires cu <= x.i && cu <= |data| && Faithful(boxes, data, x)
    ensures Faithful(boxes, From(data, cu), MovedOne(x, cu))
    ensures After(boxes, MovedOne(x, cu)) == After(boxes, x) - cu >= x.i - cu
  {
    HeaderFrom(data, cu, x.i);
  }

  lemma PathFromStep(boxes: Boxes, data: Bytes, cu: nat, m: seq<Ie>, end: int)
    requires m != [] && cu <= m[0].i && cu <= |data| && Faithful(boxes, data, m[0])
    requires Path(boxes, From(data, cu), After(boxes, m[0]) - cu, Moved(m[1..], cu), end - cu)
    ensures Path(boxes, From(data, cu), m[0].i - cu, Moved(m, cu), end - cu)
  {
    var x := MovedOne(m[0], cu);
    FaithfulFrom(boxes, data, cu, m[0]);
    PathCons(boxes, From(data, cu), x, Moved(m[1..], cu), end - cu);
    assert Moved(m, cu) == [x] + Moved(m[1..], cu);
  }

  lemma {:induction false} PathFrom(boxes: Boxes, data: Bytes, cu: nat, at: nat, m: seq<Ie>, end: int)
    requires cu <= at && cu <= |data| && Path(boxes, data, at, m, end)
    ensures Path(boxes, From(data, cu), at - cu, Moved(m, cu), end - cu) && end >= at
    decreases |m|
  {
    if m != [] {
      var next := After(boxes, m[0]);
      assert Faithful(boxes, data, m[0]) && m[0].i == at && Path(boxes, data, next, m[1..], end) && next >= at;
      PathFrom(boxes, data, cu, next, m[1..], end);
      PathFromStep(boxes, data, cu, m, end);
    }
  }

  lemma RestFrom(data: Bytes, cu: nat, at: nat, m: seq<Ie>, end: int)
    requires cu <= at && cu <= |data| && Rest(data, at, m, end)
    ensures Rest(From(data, cu), at - cu, Moved(m, cu), end - cu)
  {
    PathFrom(BOXES, data, cu, at, m, end);
    StopsAtFrom(data, cu, end);
    assert Fresh(Moved(m, cu), 0);
    SilentAlike(Moved(m, cu), 0, m);
  }

  lemma AfterFirst<T>(a: seq<T>, b: seq<T>, c: seq<T>)
    ensures (a + b + c)[|a|..] == b + c
  {
  }

  lemma BytesFrom(data: Bytes, fs: seq<Frag>, tail: Bytes, l: nat)
    requires data == Concat(fs) + tail && l <= |fs|
    ensures var cu := |Concat(fs[..l])|; cu <= |Concat(fs)| == cu + |Concat(fs[l..])| && From(data, cu) == Concat(fs[l..]) + tail
  {
    var a, b := Concat(fs[..l]), Concat(fs[l..]);
    assert Concat(fs) == a + b by {
      ConcatJoins(fs[..l], fs[l..]);
      assert fs[..l] + fs[l..] == fs;
    }
    AfterFirst(a, b, tail);
  }

  /** The chunk left from the cursor of an earlier search on. */
  lemma ChunkFrom(data: Bytes, fs: seq<Frag>, tail: Bytes, l: nat)
    requires Chunk(data, fs, tail) && l <= |fs|
    ensures var cu := |Concat(fs[..l])|; cu <= |data| && Chunk(From(data, cu), fs[l..], tail)
  {
    BytesFrom(data, fs, tail, l);
    var m, end :| Rest(data, |Concat(fs)|, m, end);
    RestFrom(data, |Concat(fs[..l])|, |Concat(fs)|, m, end);
  }

  lemma ItemsSlices(fs: seq<Frag>, k: nat)
    requires k <= |fs|
    ensures Items(fs)[..k] == Items(fs[..k]) && Items(fs)[k..] == Items(fs[k..])
  {
  }

  /** Where a search of a beginning of the stream leaves off, and what is then left of the stream. */
  lemma LeftOver(data: Bytes, fs: seq<Frag>, tail: Bytes, head: Bytes, k: nat, headTail: Bytes, first: Search)
    requires k <= |fs| && Chunk(data, fs, tail) && Chunk(head, fs[..k], headTail) && Succeeded(head, first)
    ensures var l := G.LastKey(Items(fs)[..k]);
      0 <= first.result.cu <= |data| && l <= |fs| && Chunk(From(data, first.result.cu), fs[l..], tail)
  {
    var l := G.LastKey(Items(fs)[..k]);
    ItemsSlices(fs, k);
    G.ResumeCursor(Items(fs), k);
    ItemsSlices(fs, l);
    ItemsConcat(fs[..l]);
    Segmentation(head, fs[..k], headTail, first);
    ChunkFrom(data, fs, tail, l);
  }

  /**
   * A search of a beginning of the stream, then one of what lies from its cursor on, emit together what one search of
   * everything emits, and their cursors add up to its cursor.
   */
  lemma ResumedSearch(data: Bytes, fs: seq<Frag>, tail: Bytes, head: Bytes, k: nat, headTail: Bytes,
                      first: Search, second: Search, all: Search)
    requires k <= |fs| && Chunk(data, fs, tail) && Chunk(head, fs[..k], headTail)
    requires Succeeded(head, first) && Succeeded(From(data, first.result.cu), second) && Succeeded(data, all)
    ensures first.key.content + second.key.content == all.key.content
    ensures first.result.cu + second.result.cu == all.result.cu
    ensures second.pend.content == all.pend.content
  {
    var gs, l := Items(fs), G.LastKey(Items(fs)[..k]);
    LeftOver(data, fs, tail, head, k, headTail, first);
    Segmentation(head, fs[..k], headTail, first);
    Segmentation(data, fs, tail, all);
    Segmentation(From(data, first.result.cu), fs[l..], tail, second);
    ItemsSlices(fs, k);
    ItemsSlices(fs, l);
    G.Resume(gs, k);
  }
}
