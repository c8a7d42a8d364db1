/** decoder/mp4: searches of a stream of fragments that is cut anywhere. */
module Mp4Cut {
  import opened Util
  import opened Mp4Box
  import opened Mp4Match
  import opened Mp4Frag
  import opened Fmp4
  import opened Mp4Segment
  import G = Groups
  import S = SliceBuf
  import BigEndian

  // ----- A fragment that is cut -----

  /** Everything of a fragment but its data. */
  function MoofForest(g: Frag): Forest { Container(MOOF, Leaf(MFHD, g.mfhd, Tracks(g)), End) }

  function MoofSize(g: Frag): nat { 16 + |g.mfhd| + TracksSize(g) }

  lemma MoofParts(g: Frag, at: nat)
    ensures SerSize(MoofForest(g)) == MoofSize(g) && FragSize(g) == MoofSize(g) + 8 + |g.mdat|
    ensures FragBytes(g) == Ser(MoofForest(g)) + Ser(Leaf(MDAT, g.mdat, End))
    ensures Window(g, at) == Pre(MoofForest(g), at) + [Ie(MDAT, at + MoofSize(g), at + FragSize(g))]
  {
    var mdat, mid := Leaf(MDAT, g.mdat, End), at + MoofSize(g);
    MoofSizes(g);
    assert Append(MoofForest(g), mdat) == FragForest(g);
    AppendSer(MoofForest(g), mdat);
    AppendPre(MoofForest(g), mdat, at, mid);
    assert Pre(mdat, mid) == [Ie(MDAT, mid, mid + 8 + |g.mdat|)];
  }

  lemma MoofSizes(g: Frag)
    ensures SerSize(MoofForest(g)) == MoofSize(g) && FragSize(g) == MoofSize(g) + 8 + |g.mdat|
  {
    TracksPre(g, 0);
    assert SerSize(Leaf(MFHD, g.mfhd, Tracks(g))) == 8 + |g.mfhd| + TracksSize(g);
  }

  /** Without its data a fragment completes neither pattern. */
  lemma MoofSilent(g: Frag, at: nat)
    ensures Silent(Pre(MoofForest(g), at), 0)
  {
    var m := Pre(MoofForest(g), at);
    MoofParts(g, at);
    FragEntries(g, at);
    NamesDiffer();
    forall k | 0 <= k < |m|
      ensures m[k].n != MDAT
    {
      assert m[k] == Window(g, at)[k] && k < |Shape(Two(g))| - 1;
      NoDataBefore(Two(g), k);
    }
    NoDataSilent(m);
  }

  lemma NoDataBefore(two: bool, k: nat)
    requires k < |Shape(two)| - 1
    ensures Shape(two)[k] != MDAT
  {
    NamesDiffer();
  }

  /** So many bytes left do not let the walk read a header or know that there is none. */
  predicate HalfHeader(n: int) { 4 <= n < 8 }

  /** The first n bytes of g can be walked over: its boxes are not cut inside the name in a header. */
  predicate ReadableCut(g: Frag, n: nat) { !HalfHeader(n) && !HalfHeader(n - MoofSize(g)) }

  predicate CrashesAt(data: Bytes, at: int) { at < |data| - 3 && SearchBox(BOXES, data, at) == Crash }

  /** How the walk ends at a place behind which fewer bytes are left than the box there has. */
  lemma EndsAt(data: Bytes, at: nat, name: Name, n: nat, left: nat)
    requires at + left == |data| && left < 8 + n < BigEndian.TWO32 && name in BOXES
    requires left >= 8 ==> Holds(data, at, Header(name, n))
    ensures if HalfHeader(left) then CrashesAt(data, at) else StopsAt(BOXES, data, at)
  {
    if left >= 8 { HeaderReads(data, at, name, n); }
  }

  lemma HeaderFirst(data: Bytes, at: nat, b: Bytes, left: nat, name: Name, n: nat)
    requires at + left == |data| && 8 <= left <= |b| && data[at..] == b[..left] && Header(name, n) <= b
    ensures Holds(data, at, Header(name, n))
  {
    assert data[at..at + 8] == data[at..][..8] == b[..8];
  }

  lemma SizesFit(g: Frag)
    requires Proper(g)
    ensures MoofSize(g) < BigEndian.TWO32 && 8 + |g.mdat| < BigEndian.TWO32 && WellFormed(BOXES, MoofForest(g))
  {
    MoofParts(g, 0);
    assert WellFormed(BOXES, Leaf(MDAT, g.mdat, End));
  }

  lemma SerStarts(name: Name, kids: Forest, payload: Bytes)
    ensures Header(name, SerSize(kids)) <= Ser(Container(name, kids, End))
    ensures Header(name, |payload|) <= Ser(Leaf(name, payload, End))
  {
  }

  /** From `at` on the buffer holds the first n bytes of g and nothing else. */
  predicate HoldsCut(data: Bytes, at: nat, g: Frag, n: nat) {
    n <= |FragBytes(g)| && at + n == |data| && data[at..] == FragBytes(g)[..n]
  }

  /** Cut inside its moof box a fragment is not entered. */
  lemma CutInMoof(data: Bytes, g: Frag, at: nat, n: nat)
    requires Proper(g) && n < MoofSize(g) && HoldsCut(data, at, g, n)
    ensures if HalfHeader(n) then CrashesAt(data, at) else StopsAt(BOXES, data, at)
  {
    MoofParts(g, at);
    SizesFit(g);
    SyncNames();
    var kids := Leaf(MFHD, g.mfhd, Tracks(g));
    SerStarts(MOOF, kids, []);
    if n >= 8 { HeaderFirst(data, at, FragBytes(g), n, MOOF, SerSize(kids)); }
    EndsAt(data, at, MOOF, SerSize(kids), n);
  }

  /** Cut behind its moof box a fragment is listed but for its data. */
  lemma CutInData(data: Bytes, g: Frag, at: nat, n: nat)
    requires Proper(g) && MoofSize(g) <= n < FragSize(g) && HoldsCut(data, at, g, n)
    ensures Path(BOXES, data, at, Pre(MoofForest(g), at), at + MoofSize(g))
    ensures if HalfHeader(n - MoofSize(g)) then CrashesAt(data, at + MoofSize(g)) else StopsAt(BOXES, data, at + MoofSize(g))
  {
    MoofParts(g, at);
    SizesFit(g);
    CutBehind(data, at, Ser(MoofForest(g)), Ser(Leaf(MDAT, g.mdat, End)), n);
    SerLaid(BOXES, data, at, MoofForest(g));
    ForestPath(BOXES, data, at, MoofForest(g), at + MoofSize(g));
    DataCut(data, g.mdat, at + MoofSize(g), n - MoofSize(g));
  }

  /** A box of data that is cut. */
  lemma DataCut(data: Bytes, mdat: Bytes, at: nat, left: nat)
    requires at + left == |data| && left < 8 + |mdat| < BigEndian.TWO32
    requires left <= |Ser(Leaf(MDAT, mdat, End))| && data[at..] == Ser(Leaf(MDAT, mdat, End))[..left]
    ensures if HalfHeader(left) then CrashesAt(data, at) else StopsAt(BOXES, data, at)
  {
    SerStarts(MDAT, End, mdat);
    if left >= 8 { HeaderFirst(data, at, Ser(Leaf(MDAT, mdat, End)), left, MDAT, |mdat|); }
    assert MDAT in BOXES;
    EndsAt(data, at, MDAT, |mdat|, left);
  }

  lemma CutBehind(data: Bytes, at: nat, a: Bytes, b: Bytes, n: nat)
    requires at + n == |data| && |a| <= n <= |a| + |b| && data[at..] == (a + b)[..n]
    ensures Holds(data, at, a) && data[at + |a|..] == b[..n - |a|]
  {
    assert data[at..at + |a|] == data[at..][..|a|] == a;
    assert data[at + |a|..] == data[at..][|a|..] == (a + b)[..n][|a|..];
    assert (a + b)[..n][|a|..] == b[..n - |a|];
  }

  /** What the walk lists of the first n bytes of g, and where it is then. */
  function CutEntries(g: Frag, at: nat, n: nat): seq<Ie> { if n < MoofSize(g) then [] else Pre(MoofForest(g), at) }

  function CutEnd(g: Frag, at: nat, n: nat): nat { if n < MoofSize(g) then at else at + MoofSize(g) }

  lemma CutWalk(data: Bytes, g: Frag, at: nat, n: nat)
    requires Proper(g) && n < FragSize(g) && HoldsCut(data, at, g, n)
    ensures var m, end := CutEntries(g, at, n), CutEnd(g, at, n);
      Path(BOXES, data, at, m, end) && Silent(m, 0)
      && if ReadableCut(g, n) then StopsAt(BOXES, data, end) else CrashesAt(data, end)
  {
    if n < MoofSize(g) {
      CutInMoof(data, g, at, n);
    } else {
      CutInData(data, g, at, n);
      MoofSilent(g, at);
    }
  }

  // ----- A stream that is cut -----

  /** How many fragments the first n bytes hold as a whole. */
  function Whole(fs: seq<Frag>, n: nat): (k: nat)
    ensures k <= |fs|
  {
    if fs == [] || FragSize(fs[0]) > n then 0 else 1 + Whole(fs[1..], n - FragSize(fs[0]))
  }

  lemma {:induction false} WholeFits(fs: seq<Frag>, n: nat)
    ensures var k := Whole(fs, n); |Concat(fs[..k])| <= n && (k < |fs| ==> n < |Concat(fs[..k])| + FragSize(fs[k]))
  {
    if fs != [] && FragSize(fs[0]) <= n {
      var k := Whole(fs, n);
      WholeFits(fs[1..], n - FragSize(fs[0]));
      OffsetAfterFirst(fs, k);
      SliceAfterFirst(fs, k);
    }
  }

  lemma {:induction false} WholeGrows(fs: seq<Frag>, n: nat, n': nat)
    requires n <= n'
    ensures Whole(fs, n) <= Whole(fs, n')
  {
    if fs != [] && FragSize(fs[0]) <= n { WholeGrows(fs[1..], n - FragSize(fs[0]), n' - FragSize(fs[0])); }
  }

  /** The first n bytes of the stream. */
  function Cut(fs: seq<Frag>, n: nat): Bytes
    requires n <= |Concat(fs)|
  {
    Concat(fs)[..n]
  }

  /** The bytes behind the last whole fragment. */
  function Tail(fs: seq<Frag>, n: nat): Bytes {
    var k := Whole(fs, n);
    var at := |Concat(fs[..k])|;
    if k < |fs| && at <= n <= at + |FragBytes(fs[k])| then FragBytes(fs[k])[..n - at] else []
  }

  /** Cuts at which the search can read on to where it stops. */
  predicate Readable(fs: seq<Frag>, n: nat) {
    var k := Whole(fs, n);
    k < |fs| && |Concat(fs[..k])| <= n ==> ReadableCut(fs[k], n - |Concat(fs[..k])|)
  }

  /** A whole fragment or the boxes before the data of one are there, or so little that nothing is missed. */
  predicate Listable(fs: seq<Frag>, n: nat) {
    Whole(fs, n) > 0 || n <= 3 || (fs != [] && n >= MoofSize(fs[0]))
  }

  lemma CutParts(fs: seq<Frag>, n: nat)
    requires n <= |Concat(fs)|
    ensures Cut(fs, n) == Concat(fs[..Whole(fs, n)]) + Tail(fs, n)
    ensures Whole(fs, n) == |fs| ==> n == |Concat(fs)|
  {
    var k := Whole(fs, n);
    WholeFits(fs, n);
    if k == |fs| {
      assert fs[..k] == fs;
    } else {
      var a, b, c := Concat(fs[..k]), FragBytes(fs[k]), Concat(fs[k + 1..]);
      StreamAround(fs, k);
      FragEntries(fs[k], 0);
      TakeOfThree(a, b, c, n);
    }
  }

  /** The stream before, at and behind fragment k. */
  lemma StreamAround(fs: seq<Frag>, k: nat)
    requires k < |fs|
    ensures Concat(fs) == Concat(fs[..k]) + (FragBytes(fs[k]) + Concat(fs[k + 1..]))
  {
    assert Concat(fs) == Concat(fs[..k]) + Concat(fs[k..]) by {
      assert fs[..k] + fs[k..] == fs;
      ConcatJoins(fs[..k], fs[k..]);
    }
    assert fs[k..][1..] == fs[k + 1..];
    ConcatFirst(fs[k..]);
  }

  lemma TakeOfThree<T>(a: seq<T>, b: seq<T>, c: seq<T>, n: nat)
    requires |a| <= n <= |a| + |b|
    ensures (a + (b + c))[..n] == a + b[..n - |a|]
  {
  }

  lemma DropFirst<T>(a: seq<T>, b: seq<T>)
    ensures (a + b)[|a|..] == b
  {
  }

  /** What the walk over the tail lists, and where it is then. */
  lemma TailWalk(fs: seq<Frag>, n: nat) returns (m: seq<Ie>, end: int)
    requires AllProper(fs) && n <= |Concat(fs)|
    ensures var data, at := Cut(fs, n), |Concat(fs[..Whole(fs, n)])|;
      Path(BOXES, data, at, m, end) && Silent(m, 0)
      && if Readable(fs, n) then StopsAt(BOXES, data, end) else CrashesAt(data, end)
    ensures Whole(fs, n) == 0 && n > 3 ==> (m != [] <==> Listable(fs, n))
  {
    var k, data := Whole(fs, n), Cut(fs, n);
    var at := |Concat(fs[..k])|;
    CutParts(fs, n);
    WholeFits(fs, n);
    m, end := [], at;
    if k < |fs| {
      TailHeld(fs, n, at);
      CutWalk(data, fs[k], at, n - at);
      m, end := CutEntries(fs[k], at, n - at), CutEnd(fs[k], at, n - at);
    }
  }

  /** Behind the whole fragments lies the cut one. */
  lemma TailHeld(fs: seq<Frag>, n: nat, at: nat)
    requires n <= |Concat(fs)| && Whole(fs, n) < |fs| && at == |Concat(fs[..Whole(fs, n)])|
    ensures at <= n && n - at < FragSize(fs[Whole(fs, n)]) && HoldsCut(Cut(fs, n), at, fs[Whole(fs, n)], n - at)
  {
    CutParts(fs, n);
    WholeFits(fs, n);
    FragEntries(fs[Whole(fs, n)], 0);
    DropFirst(Concat(fs[..Whole(fs, n)]), Tail(fs, n));
  }

  lemma ProperTake(fs: seq<Frag>, k: nat)
    requires AllProper(fs) && k <= |fs|
    ensures AllProper(fs[..k])
  {
  }

  lemma CutIsChunk(fs: seq<Frag>, n: nat)
    requires AllProper(fs) && n <= |Concat(fs)| && Readable(fs, n)
    ensures Chunk(Cut(fs, n), fs[..Whole(fs, n)], Tail(fs, n))
  {
    var m, end := TailWalk(fs, n);
    CutParts(fs, n);
    ProperTake(fs, Whole(fs, n));
    assert Rest(Cut(fs, n), |Concat(fs[..Whole(fs, n)])|, m, end);
  }

  lemma {:induction false} CrashOnPath(data: Bytes, s: State, m: seq<Ie>, end: int, fuel: nat)
    requires Path(BOXES, data, s.cu, m, end) && CrashesAt(data, end)
    ensures Walk(BOXES, data, MOOF, s, fuel) == if fuel > |m| then Outcome.Crashed else Outcome.Unfinished
  {
    if fuel < |m| {
      WalkShort(BOXES, data, MOOF, s, m, end, fuel);
    } else {
      var last := State(end, s.m + m, s.err);
      WalkFollows(BOXES, data, MOOF, s, fuel, m, last, fuel - |m|);
    }
  }

  /** The listing of a stream stops the program exactly where it is cut inside the name in a header. */
  lemma CutCrashesExactly(fs: seq<Frag>, n: nat)
    requires AllProper(fs) && n <= |Concat(fs)|
    ensures (exists fuel: nat :: Walk(BOXES, Cut(fs, n), MOOF, START, fuel) == Outcome.Crashed) <==> !Readable(fs, n)
  {
    var data, k := Cut(fs, n), Whole(fs, n);
    var m, end := TailWalk(fs, n);
    if Readable(fs, n) {
      CutIsChunk(fs, n);
      forall fuel: nat
        ensures Walk(BOXES, data, MOOF, START, fuel) != Outcome.Crashed
      {
        DecodeChunk(data, fs[..k], Tail(fs, n), m, end, fuel);
      }
    } else {
      CutParts(fs, n);
      ProperTake(fs, k);
      ChunkPath(data, fs[..k], Tail(fs, n), m, end);
      var ies := ChunkEntries(fs[..k], m);
      CrashOnPath(data, START, ies, end, |ies| + 1);
    }
  }

  lemma CrashNotSucceeded(data: Bytes, m: seq<Ie>, end: int, r: Search)
    requires Path(BOXES, data, 0, m, end) && CrashesAt(data, end)
    ensures !Succeeded(data, r)
  {
    forall fuel: nat
      ensures Walk(BOXES, data, MOOF, START, fuel) == if fuel > |m| then Outcome.Crashed else Outcome.Unfinished
    {
      CrashOnPath(data, START, m, end, fuel);
    }
  }

  /** A listing without any box is an error. */
  lemma NothingListed(data: Bytes, tail: Bytes, end: int, r: Search)
    requires Chunk(data, [], tail) && Rest(data, 0, [], end) && |data| > 3
    ensures !Succeeded(data, r)
  {
    forall fuel: nat
      ensures Walk(BOXES, data, MOOF, START, fuel) in {Outcome.Unfinished, Done([], Some(MisBox))}
    {
      DecodeChunk(data, [], tail, [], end, fuel);
    }
  }

  lemma SucceededReads(fs: seq<Frag>, n: nat, r: Search)
    requires AllProper(fs) && n <= |Concat(fs)| && Succeeded(Cut(fs, n), r)
    ensures Readable(fs, n) && Listable(fs, n)
  {
    var data, k := Cut(fs, n), Whole(fs, n);
    var m, end := TailWalk(fs, n);
    CutParts(fs, n);
    ProperTake(fs, k);
    ChunkPath(data, fs[..k], Tail(fs, n), m, end);
    if !Readable(fs, n) {
      CrashNotSucceeded(data, ChunkEntries(fs[..k], m), end, r);
    } else if !Listable(fs, n) {
      CutIsChunk(fs, n);
      NothingListed(data, Tail(fs, n), end, r);
    }
  }

  // ----- Main results -----

  /** A successful search of a stream cut anywhere: the groups of the fragments that are there as a whole. */
  lemma CutSegmentation(fs: seq<Frag>, n: nat, r: Search)
    requires AllProper(fs) && n <= |Concat(fs)| && Succeeded(Cut(fs, n), r)
    ensures var gs := Items(fs[..Whole(fs, n)]);
      r.key.content == G.Emitted(gs) && r.pend.content == G.Pending(gs) && r.result.cu == G.Cursor(gs)
  {
    SucceededReads(fs, n, r);
    CutIsChunk(fs, n);
    Segmentation(Cut(fs, n), fs[..Whole(fs, n)], Tail(fs, n), r);
  }

  /** Nothing of them is lost: the buffers hold all from the first key frame on, and the cursor is no further than that. */
  lemma CutCovers(fs: seq<Frag>, n: nat, r: Search)
    requires AllProper(fs) && n <= |Concat(fs)| && Succeeded(Cut(fs, n), r)
    ensures var whole := fs[..Whole(fs, n)]; var first := G.FirstKey(Items(whole));
      r.key.content + r.pend.content == Concat(whole[first..])
      && 0 <= r.result.cu <= |Concat(whole)| <= n && Cut(fs, n)[r.result.cu..|Concat(whole)|] == r.pend.content
  {
    SucceededReads(fs, n, r);
    CutIsChunk(fs, n);
    WholeFits(fs, n);
    SegmentationCovers(Cut(fs, n), fs[..Whole(fs, n)], Tail(fs, n), r);
  }

  /** With passing checks, no limit and turns enough every readable cut that shows a box is searched without error. */
  lemma CutSucceeds(fs: seq<Frag>, n: nat, traks: set<int>, pend: S.Value<byte>, key: S.Value<byte>, checks: Checks)
    returns (enough: nat)
    requires AllProper(fs) && n <= |Concat(fs)| && Readable(fs, n) && Listable(fs, n)
    requires pend.maxsize == 0 && key.maxsize == 0 && n <= MAX && traks != {}
    requires Passing(checks, StreamCalls(fs[..Whole(fs, n)], 0, 0))
    ensures forall fuel: nat :: fuel >= enough ==> Succeeded(Cut(fs, n), SearchOf(Cut(fs, n), traks, pend, key, checks, fuel))
  {
    var data, whole := Cut(fs, n), fs[..Whole(fs, n)];
    var m, end := TailWalk(fs, n);
    CutIsChunk(fs, n);
    enough := |ChunkEntries(whole, m)| + 1;
    forall fuel: nat | fuel >= enough
      ensures Succeeded(data, SearchOf(data, traks, pend, key, checks, fuel))
    {
      Succeeds(data, whole, Tail(fs, n), traks, pend, key, checks, fuel, m, end);
    }
  }

  lemma BothChunks(fs: seq<Frag>, n: nat, n': nat, first: Search, all: Search)
    requires AllProper(fs) && n <= n' <= |Concat(fs)| && Succeeded(Cut(fs, n), first) && Succeeded(Cut(fs, n'), all)
    ensures var k, k' := Whole(fs, n), Whole(fs, n');
      k <= k' && Chunk(Cut(fs, n'), fs[..k'], Tail(fs, n')) && Chunk(Cut(fs, n), fs[..k'][..k], Tail(fs, n))
  {
    var k, k' := Whole(fs, n), Whole(fs, n');
    WholeGrows(fs, n, n');
    SucceededReads(fs, n, first);
    SucceededReads(fs, n', all);
    CutIsChunk(fs, n);
    CutIsChunk(fs, n');
    assert fs[..k'][..k] == fs[..k];
  }

  /**
   * A stream received up to byte n and searched, then searched again from the returned cursor on when it has been received
   * up to byte n', wherever the two cuts are: together as one search up to byte n'.
   */
  lemma CutResumed(fs: seq<Frag>, n: nat, n': nat, first: Search, second: Search, all: Search)
    requires AllProper(fs) && n <= n' <= |Concat(fs)|
    requires Succeeded(Cut(fs, n), first) && Succeeded(From(Cut(fs, n'), first.result.cu), second)
    requires Succeeded(Cut(fs, n'), all)
    ensures first.key.content + second.key.content == all.key.content
    ensures first.result.cu + second.result.cu == all.result.cu
    ensures second.pend.content == all.pend.content
  {
    var k, k' := Whole(fs, n), Whole(fs, n');
    BothChunks(fs, n, n', first, all);
    ResumedSearch(Cut(fs, n'), fs[..k'], Tail(fs, n'), Cut(fs, n), k, Tail(fs, n), first, second, all);
  }
}
