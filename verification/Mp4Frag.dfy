/** decoder/mp4: the table of boxes, the two fragment shapes, and what matching makes of a stream of fragments. */
module Mp4Frag {
  import opened Util
  import opened Mp4Box
  import opened Mp4Match
  import BigEndian

  const FTYP: Name := [0x66, 0x74, 0x79, 0x70]
  const MOOV: Name := [0x6d, 0x6f, 0x6f, 0x76]
  const MVHD: Name := [0x6d, 0x76, 0x68, 0x64]
  const TRAK: Name := [0x74, 0x72, 0x61, 0x6b]
  const TKHD: Name := [0x74, 0x6b, 0x68, 0x64]
  const MDIA: Name := [0x6d, 0x64, 0x69, 0x61]
  const MDHD: Name := [0x6d, 0x64, 0x68, 0x64]
  const HDLR: Name := [0x68, 0x64, 0x6c, 0x72]
  const MINF: Name := [0x6d, 0x69, 0x6e, 0x66]
  const MVEX: Name := [0x6d, 0x76, 0x65, 0x78]
  const MOOF: Name := [0x6d, 0x6f, 0x6f, 0x66]
  const MFHD: Name := [0x6d, 0x66, 0x68, 0x64]
  const TRAF: Name := [0x74, 0x72, 0x61, 0x66]
  const TFHD: Name := [0x74, 0x66, 0x68, 0x64]
  const TFDT: Name := [0x74, 0x66, 0x64, 0x74]
  const TRUN: Name := [0x74, 0x72, 0x75, 0x6e]
  const MDAT: Name := [0x6d, 0x64, 0x61, 0x74]

  const BOXES: Boxes := map[
    FTYP := true, MOOV := false, MVHD := true, TRAK := false, TKHD := true, MDIA := false, MDHD := true, HDLR := true,
    MINF := true, MVEX := true, MOOF := false, MFHD := true, TRAF := false, TFHD := true, TFDT := true, TRUN := true,
    MDAT := true]

  const ONE: Pattern := [MOOF, MFHD, TRAF, TFHD, TFDT, TRUN, MDAT]
  const TWO: Pattern := [MOOF, MFHD, TRAF, TFHD, TFDT, TRUN, TRAF, TFHD, TFDT, TRUN, MDAT]
  const PATTERNS: seq<Pattern> := [ONE, TWO]

  /** The two names the repository resynchronises on: one is descended into, the other stands apart from all names. */
  lemma SyncNames()
    ensures MOOF in BOXES && !BOXES[MOOF] && FTYP in BOXES && Apart(BOXES, FTYP)
  {
    forall name, d | name in BOXES && 1 <= d <= 3
      ensures !Overlaps(FTYP, name, d)
    {
      assert name[0] != FTYP[2] && name[0] != FTYP[3] && name[1] != FTYP[2];
      assert FTYP[d..][0] == FTYP[d] && name[..4 - d][0] == name[0];
      assert d == 1 ==> FTYP[d..][1] == FTYP[2] && name[..4 - d][1] == name[1];
    }
  }

  /** After n turns the walk stands on a skipped box of size zero. */
  predicate ZeroBoxAfter(buf: Bytes, n: nat) {
    var t := Turns(BOXES, buf, MOOF, START, n);
    t.Some? && 0 <= t.value.cu && t.value.cu + 8 <= |buf| && SkippedAt(BOXES, buf, t.value.cu) && Size(buf, t.value.cu) == 0
  }

  /** A search of fragments never ends exactly when it comes to such a box ... */
  lemma MoofNeverEndsExactly(buf: Bytes)
    ensures NeverEnds(BOXES, buf, MOOF) <==> exists n: nat :: ZeroBoxAfter(buf, n)
  {
    SyncNames();
    NeverEndsExactly(BOXES, buf, MOOF);
    if n: nat :| TrappedAfter(BOXES, buf, MOOF, START, n) {
      ContainerTrap(BOXES, buf, MOOF, Turns(BOXES, buf, MOOF, START, n).value.cu);
      assert ZeroBoxAfter(buf, n);
    }
    if n: nat :| ZeroBoxAfter(buf, n) {
      assert TrappedAfter(BOXES, buf, MOOF, START, n);
    }
  }

  /** ... that of the initialisation segment also at a short box of the name it resynchronises on. */
  lemma FtypNeverEndsExactly(buf: Bytes)
    ensures NeverEnds(BOXES, buf, FTYP) <==> exists n: nat :: TrappedAfter(BOXES, buf, FTYP, START, n)
  {
    SyncNames();
    NeverEndsExactly(BOXES, buf, FTYP);
  }

  lemma ShortFtypIsTrap(buf: Bytes)
    requires buf == [0, 0, 0, 4] + FTYP + [1, 1, 1, 1]
    ensures Trap(BOXES, buf, FTYP, 0)
  {
    assert BigEndian.Field(buf, 0, 4) == buf[..4] == [0, 0, 0, 4];
    BigEndian.FourDigits(4);
    BigEndian.Pow256Grows(4, 8);
    BigEndian.ValueOfDigits(4, 4);
    assert Size(buf, 0) == 4;
    assert buf[4..8] == FTYP && buf[8..12] == [1, 1, 1, 1];
    assert forall name: Name :: name in BOXES ==> name[0] != 1;
  }

  /** Four bytes of size, the name, and an unknown name behind it. */
  lemma ShortFtypNeverEnds(buf: Bytes)
    requires buf == [0, 0, 0, 4] + FTYP + [1, 1, 1, 1]
    ensures NeverEnds(BOXES, buf, FTYP)
  {
    SyncNames();
    ShortFtypIsTrap(buf);
    assert TrappedAfter(BOXES, buf, FTYP, START, 0);
    FtypNeverEndsExactly(buf);
  }

  lemma NamesDiffer()
    ensures MOOF != MFHD && MOOF != TRAF && MOOF != TFHD && MOOF != TFDT && MOOF != TRUN && MOOF != MDAT
    ensures TRAF != MDAT && TRAF != MFHD && TRAF != TFHD && TRAF != TFDT && TRAF != TRUN
    ensures MDAT != MFHD && MDAT != TFHD && MDAT != TFDT && MDAT != TRUN
  {
    assert MOOF[1] == 0x6f && MFHD[1] == 0x66 && TRAF[1] == 0x72 && TFHD[1] == 0x66 && TFDT[1] == 0x66;
    assert TRUN[1] == 0x72 && MDAT[1] == 0x64 && TRAF[2] == 0x61 && TRUN[2] == 0x75;
  }

  // ----- Matching the two shapes -----

  function Shape(two: bool): Pattern { if two then TWO else ONE }

  lemma {:induction false} MatchedPrefix(p: Pattern, ies: seq<Ie>, start: nat, k: nat)
    requires p != [] && start + k <= |ies| && k < |p| && Matched(p, ies, start) == 0
    requires forall j :: 0 <= j < k ==> ies[start + j].n == p[j]
    ensures Matched(p, ies, start + k) == k
  {
    if k > 0 { MatchedPrefix(p, ies, start, k - 1); }
  }

  /** While no entry has the first name of p, nothing is matched and nothing fires. */
  lemma {:induction false} Idle(p: Pattern, ies: seq<Ie>, start: nat, k: nat)
    requires |p| > 1 && start + k <= |ies| && Matched(p, ies, start) == 0
    requires forall j :: start <= j < start + k ==> ies[j].n != p[0]
    ensures Matched(p, ies, start + k) == 0
  {
    if k > 0 { Idle(p, ies, start, k - 1); }
  }

  /** Both patterns are at their beginning. */
  predicate Fresh(ies: seq<Ie>, n: nat)
    requires n <= |ies|
  {
    Matched(ONE, ies, n) == 0 && Matched(TWO, ies, n) == 0
  }

  lemma ShapeOne(ies: seq<Ie>, s: nat, k: nat)
    requires NamesAt(ONE, ies, s) && Matched(ONE, ies, s) == 0 && k < 7
    ensures FiresAt(ONE, ies, s + k) <==> k == 6
    ensures Matched(ONE, ies, s + 7) == 0
  {
    MatchedPrefix(ONE, ies, s, k);
    MatchedPrefix(ONE, ies, s, 6);
    assert ies[s + 6].n == ONE[6];
  }

  lemma ShapeOneNotTwo(ies: seq<Ie>, s: nat, k: nat)
    requires NamesAt(ONE, ies, s) && Matched(TWO, ies, s) == 0 && k < 7
    ensures !FiresAt(TWO, ies, s + k)
    ensures Matched(TWO, ies, s + 7) == 0
  {
    NamesDiffer();
    assert forall j :: 0 <= j < 6 ==> ies[s + j].n == ONE[j] == TWO[j];
    MatchedPrefix(TWO, ies, s, k);
    MatchedPrefix(TWO, ies, s, 6);
    assert ies[s + 6].n == ONE[6] == MDAT;
  }

  lemma ShapeTwo(ies: seq<Ie>, s: nat, k: nat)
    requires NamesAt(TWO, ies, s) && Matched(TWO, ies, s) == 0 && k < 11
    ensures FiresAt(TWO, ies, s + k) <==> k == 10
    ensures Matched(TWO, ies, s + 11) == 0
  {
    MatchedPrefix(TWO, ies, s, k);
    MatchedPrefix(TWO, ies, s, 10);
    assert ies[s + 10].n == TWO[10];
  }

  /** The shape with two tracks begins like the other one, but for its seventh entry. */
  lemma CommonStart(ies: seq<Ie>, s: nat, k: nat)
    requires NamesAt(TWO, ies, s) && Matched(ONE, ies, s) == 0 && k < 7
    ensures !FiresAt(ONE, ies, s + k)
    ensures Matched(ONE, ies, s + 7) == 0
  {
    NamesDiffer();
    assert forall j :: 0 <= j < 6 ==> ies[s + j].n == TWO[j] == ONE[j];
    MatchedPrefix(ONE, ies, s, k);
    MatchedPrefix(ONE, ies, s, 6);
    assert ies[s + 6].n == TWO[6] == TRAF;
  }

  lemma SecondTrack(ies: seq<Ie>, s: nat, j: nat)
    requires NamesAt(TWO, ies, s) && 7 <= j < 11
    ensures ies[s + j].n != ONE[0]
  {
    NamesDiffer();
    assert ies[s + j].n == TWO[j];
  }

  lemma ShapeTwoNotOne(ies: seq<Ie>, s: nat, k: nat)
    requires NamesAt(TWO, ies, s) && Matched(ONE, ies, s) == 0 && k < 11
    ensures !FiresAt(ONE, ies, s + k)
    ensures Matched(ONE, ies, s + 11) == 0
  {
    CommonStart(ies, s, if k < 7 then k else 0);
    forall j | s + 7 <= j < s + 11
      ensures ies[j].n != ONE[0]
    {
      SecondTrack(ies, s, j - s);
    }
    if k >= 7 { Idle(ONE, ies, s + 7, k - 7); }
    Idle(ONE, ies, s + 7, 4);
  }

  /** Within a fragment exactly its own pattern fires, and only at its last entry. */
  lemma ShapeFires(two: bool, ies: seq<Ie>, s: nat, k: nat)
    requires NamesAt(Shape(two), ies, s) && Fresh(ies, s) && k < |Shape(two)|
    ensures FiresAt(ONE, ies, s + k) <==> !two && k == |ONE| - 1
    ensures FiresAt(TWO, ies, s + k) <==> two && k == |TWO| - 1
    ensures Fresh(ies, s + |Shape(two)|)
  {
    if two { ShapeTwo(ies, s, k); ShapeTwoNotOne(ies, s, k); } else { ShapeOne(ies, s, k); ShapeOneNotTwo(ies, s, k); }
  }

  predicate NeverDrops<E>(reply: Functions<E>, calls: seq<Call>) { !reply(calls).drop }

  const BOTH: seq<nat> := [0, 1]

  lemma QuietRow<E>(ies: seq<Ie>, reply: Functions<E>, n: nat, calls: seq<Call>)
    requires n < |ies| && !FiresAt(ONE, ies, n) && !FiresAt(TWO, ies, n)
    ensures Rows(PATTERNS, ies, reply, n, BOTH, calls) == Rows(PATTERNS, ies, reply, n + 1, BOTH, calls)
  {
    assert Row(PATTERNS, ies, reply, n, BOTH, 2, calls) == Progress(BOTH, calls, None);
    assert Row(PATTERNS, ies, reply, n, BOTH, 1, calls) == Progress(BOTH, calls, None);
  }

  lemma FiringRow<E>(two: bool, ies: seq<Ie>, reply: Functions<E>, n: nat, calls: seq<Call>, c: Call)
    requires n < |ies| && (FiresAt(ONE, ies, n) <==> !two) && (FiresAt(TWO, ies, n) <==> two)
    requires n + 1 >= |Shape(two)| && c == Call(if two then 1 else 0, ies[n + 1 - |Shape(two)|..n + 1], n)
    requires NeverDrops(reply, calls + [c])
    ensures Rows(PATTERNS, ies, reply, n, BOTH, calls)
            == if reply(calls + [c]).err.Some? then Progress(BOTH, calls + [c], reply(calls + [c]).err)
               else Rows(PATTERNS, ies, reply, n + 1, BOTH, calls + [c])
  {
    assert CallAt(PATTERNS, ies, n, if two then 1 else 0) == c;
    assert Row(PATTERNS, ies, reply, n, BOTH, 2, calls) == Progress(BOTH, calls, None);
    assert Row(PATTERNS, ies, reply, n, BOTH, 2, calls + [c]) == Progress(BOTH, calls + [c], None);
    var one := Row(PATTERNS, ies, reply, n, BOTH, 1, calls + [c]);
    assert !two ==> one == Progress(BOTH, calls + [c], None);
  }

  /** Up to its last entry a fragment causes no call. */
  lemma {:induction false} QuietRows<E>(two: bool, ies: seq<Ie>, reply: Functions<E>, s: nat, k: nat, calls: seq<Call>)
    requires NamesAt(Shape(two), ies, s) && Fresh(ies, s) && k < |Shape(two)|
    ensures Rows(PATTERNS, ies, reply, s, BOTH, calls) == Rows(PATTERNS, ies, reply, s + k, BOTH, calls)
  {
    if k > 0 {
      QuietRows(two, ies, reply, s, k - 1, calls);
      ShapeFires(two, ies, s, k - 1);
      QuietRow(ies, reply, s + k - 1, calls);
    }
  }

  /** The call a fragment causes whose entries begin at s. */
  function FragCall(two: bool, ies: seq<Ie>, s: nat): Call
    requires s + |Shape(two)| <= |ies|
  {
    Call(if two then 1 else 0, ies[s..s + |Shape(two)|], s + |Shape(two)| - 1)
  }

  lemma FragmentRows<E>(two: bool, ies: seq<Ie>, reply: Functions<E>, s: nat, calls: seq<Call>)
    requires NamesAt(Shape(two), ies, s) && Fresh(ies, s)
    requires NeverDrops(reply, calls + [FragCall(two, ies, s)])
    ensures Fresh(ies, s + |Shape(two)|)
    ensures var calls' := calls + [FragCall(two, ies, s)];
      Rows(PATTERNS, ies, reply, s, BOTH, calls)
      == if reply(calls').err.Some? then Progress(BOTH, calls', reply(calls').err)
         else Rows(PATTERNS, ies, reply, s + |Shape(two)|, BOTH, calls')
  {
    var k := |Shape(two)| - 1;
    QuietRows(two, ies, reply, s, k, calls);
    ShapeFires(two, ies, s, k);
    FiringRow(two, ies, reply, s + k, calls, FragCall(two, ies, s));
  }

  // ----- A stream of fragments in either shape -----

  predicate FiresNot(ies: seq<Ie>, n: nat)
    requires n < |ies|
  {
    !FiresAt(ONE, ies, n) && !FiresAt(TWO, ies, n)
  }

  /** From entry s on neither pattern fires. */
  ghost predicate Silent(ies: seq<Ie>, s: nat) { forall n :: s <= n < |ies| ==> FiresNot(ies, n) }

  lemma {:induction false} SilentRows<E>(ies: seq<Ie>, reply: Functions<E>, s: nat, calls: seq<Call>)
    requires s <= |ies| && Silent(ies, s)
    ensures Rows(PATTERNS, ies, reply, s, BOTH, calls) == Progress(BOTH, calls, None)
    decreases |ies| - s
  {
    if s < |ies| {
      assert FiresNot(ies, s);
      QuietRow(ies, reply, s, calls);
      SilentRows(ies, reply, s + 1, calls);
    }
  }

  /** What is matched depends on the names alone, and not on entries before a place where nothing is matched. */
  lemma {:induction false} MatchedAlike(p: Pattern, ies: seq<Ie>, s: nat, m: seq<Ie>, n: nat)
    requires p != [] && s + n <= |ies| && n <= |m| && Matched(p, ies, s) == 0
    requires forall k :: 0 <= k < n ==> ies[s + k].n == m[k].n
    ensures Matched(p, ies, s + n) == Matched(p, m, n)
  {
    if n > 0 { MatchedAlike(p, ies, s, m, n - 1); }
  }

  /** After entries that leave both patterns at their beginning, entries that complete none by themselves complete none. */
  lemma SilentAlike(ies: seq<Ie>, s: nat, m: seq<Ie>)
    requires s + |m| == |ies| && Fresh(ies, s) && Silent(m, 0) && forall k :: 0 <= k < |m| ==> ies[s + k].n == m[k].n
    ensures Silent(ies, s)
  {
    forall n | s <= n < |ies|
      ensures FiresNot(ies, n)
    {
      MatchedAlike(ONE, ies, s, m, n - s);
      MatchedAlike(TWO, ies, s, m, n - s);
      assert FiresNot(m, n - s) && ies[s + (n - s)].n == m[n - s].n;
    }
  }

  /** Entries none of which is a box of data complete neither pattern. */
  lemma NoDataSilent(m: seq<Ie>)
    requires forall k :: 0 <= k < |m| ==> m[k].n != MDAT
    ensures Silent(m, 0)
  {
    assert ONE[|ONE| - 1] == MDAT && TWO[|TWO| - 1] == MDAT;
  }

  /** From entry s on the listing consists of fragments of these shapes, and then of entries `rest`. */
  predicate FragmentsFrom(ies: seq<Ie>, s: nat, shapes: seq<bool>, rest: seq<Ie>)
    decreases |shapes|
  {
    if shapes == [] then s <= |ies| && ies[s..] == rest
    else NamesAt(Shape(shapes[0]), ies, s) && FragmentsFrom(ies, s + |Shape(shapes[0])|, shapes[1..], rest)
  }

  function FragCalls(ies: seq<Ie>, s: nat, shapes: seq<bool>): seq<Call>
    decreases |shapes|
  {
    if shapes == [] || s + |Shape(shapes[0])| > |ies| then []
    else [FragCall(shapes[0], ies, s)] + FragCalls(ies, s + |Shape(shapes[0])|, shapes[1..])
  }

  /** The calls one after the other, up to and with the first one that fails. */
  function UntilError<E>(reply: Functions<E>, done: seq<Call>, todo: seq<Call>): Progress<E>
    decreases |todo|
  {
    if todo == [] then Progress(BOTH, done, None)
    else
      var done' := done + [todo[0]];
      if reply(done').err.Some? then Progress(BOTH, done', reply(done').err)
      else UntilError(reply, done', todo[1..])
  }

  lemma FirstCall(ies: seq<Ie>, s: nat, shapes: seq<bool>, first: Call, calls: seq<Call>)
    requires shapes != [] && s + |Shape(shapes[0])| <= |ies| && first == FragCall(shapes[0], ies, s)
    requires calls == FragCalls(ies, s, shapes)
    ensures calls != [] && calls[0] == first && calls[1..] == FragCalls(ies, s + |Shape(shapes[0])|, shapes[1..])
  {
  }

  /** The first fragment: its call, and what is left to match. */
  lemma FirstFragment<E>(ies: seq<Ie>, reply: Functions<E>, s: nat, shapes: seq<bool>, first: Call, done: seq<Call>,
                         todo: seq<Call>)
    requires shapes != [] && NamesAt(Shape(shapes[0]), ies, s) && Fresh(ies, s) && first == FragCall(shapes[0], ies, s)
    requires NeverDrops(reply, done + [first]) && todo == FragCalls(ies, s, shapes)
    ensures var next := s + |Shape(shapes[0])|;
      && next <= |ies| && Fresh(ies, next)
      && todo != [] && todo[0] == first && todo[1..] == FragCalls(ies, next, shapes[1..])
      && Rows(PATTERNS, ies, reply, s, BOTH, done)
         == if reply(done + [first]).err.Some? then Progress(BOTH, done + [first], reply(done + [first]).err)
            else Rows(PATTERNS, ies, reply, next, BOTH, done + [first])
  {
    FragmentRows(shapes[0], ies, reply, s, done);
    FirstCall(ies, s, shapes, first, todo);
  }

  lemma NoneLeft<E>(ies: seq<Ie>, reply: Functions<E>, s: nat, rest: seq<Ie>, done: seq<Call>)
    requires s <= |ies| && Fresh(ies, s) && ies[s..] == rest && Silent(rest, 0)
    ensures Rows(PATTERNS, ies, reply, s, BOTH, done) == Progress(BOTH, done, None)
  {
    SilentAlike(ies, s, rest);
    SilentRows(ies, reply, s, done);
  }

  /**
   * On fragments of the two shapes, and a rest that completes neither pattern, there is exactly one call per fragment, in
   * order, until one fails.
   */
  lemma {:induction false} OneCallPerFragment<E>(ies: seq<Ie>, reply: Functions<E>, s: nat, shapes: seq<bool>,
                                                 rest: seq<Ie>, done: seq<Call>, todo: seq<Call>)
    requires todo == FragCalls(ies, s, shapes)
    requires s <= |ies| && Fresh(ies, s) && FragmentsFrom(ies, s, shapes, rest) && Silent(rest, 0)
    requires forall calls :: NeverDrops(reply, calls)
    ensures Rows(PATTERNS, ies, reply, s, BOTH, done) == UntilError(reply, done, todo)
    decreases |shapes|
  {
    if shapes == [] {
      NoneLeft(ies, reply, s, rest, done);
    } else {
      var first, next := FragCall(shapes[0], ies, s), s + |Shape(shapes[0])|;
      assert NeverDrops(reply, done + [first]);
      FirstFragment(ies, reply, s, shapes, first, done, todo);
      if reply(done + [first]).err.None? {
        OneCallPerFragment(ies, reply, next, shapes[1..], rest, done + [first], todo[1..]);
      }
    }
  }

  // ----- Serialised fragments -----

  datatype Track = Track(tfhd: Bytes, tfdt: Bytes, trun: Bytes)

  /** The payloads of a fragment with one track, or two. */
  datatype Frag = Frag(mfhd: Bytes, first: Track, second: Option<Track>, mdat: Bytes)

  function TrackKids(t: Track): Forest { Leaf(TFHD, t.tfhd, Leaf(TFDT, t.tfdt, Leaf(TRUN, t.trun, End))) }

  function Tracks(f: Frag): Forest {
    var second := if f.second.None? then End else Container(TRAF, TrackKids(f.second.value), End);
    Container(TRAF, TrackKids(f.first), second)
  }

  function FragForest(f: Frag): Forest { Container(MOOF, Leaf(MFHD, f.mfhd, Tracks(f)), Leaf(MDAT, f.mdat, End)) }

  function FragBytes(f: Frag): Bytes { Ser(FragForest(f)) }

  /** The trees of f, then those of g. */
  function Append(f: Forest, g: Forest): Forest {
    match f
    case End => g
    case Leaf(name, payload, rest) => Leaf(name, payload, Append(rest, g))
    case Container(name, kids, rest) => Container(name, kids, Append(rest, g))
  }

  lemma {:induction false} AppendSer(f: Forest, g: Forest)
    ensures Ser(Append(f, g)) == Ser(f) + Ser(g)
    decreases f
  {
    match f
    case End =>
    case Leaf(name, payload, rest) =>
      AppendSer(rest, g);
      Regroup(Header(name, |payload|) + payload, Ser(rest), Ser(g));
    case Container(name, kids, rest) =>
      AppendSer(rest, g);
      Regroup(Header(name, SerSize(kids)) + Ser(kids), Ser(rest), Ser(g));
  }

  lemma {:induction false} AppendPre(f: Forest, g: Forest, at: nat, end: nat)
    requires end == at + SerSize(f)
    ensures Pre(Append(f, g), at) == Pre(f, at) + Pre(g, end)
    decreases f
  {
    match f
    case End =>
    case Leaf(name, payload, rest) =>
      var e := at + 8 + |payload|;
      assert Append(f, g) == Leaf(name, payload, Append(rest, g));
      AppendPre(rest, g, e, end);
      Regroup([Ie(name, at, e)], Pre(rest, e), Pre(g, end));
    case Container(name, kids, rest) =>
      var e := at + 8 + SerSize(kids);
      assert Append(f, g) == Container(name, kids, Append(rest, g));
      AppendPre(rest, g, e, end);
      Regroup([Ie(name, at, e)] + Pre(kids, at + 8), Pre(rest, e), Pre(g, end));
  }

  lemma {:induction false} AppendWellFormed(boxes: Boxes, f: Forest, g: Forest)
    requires WellFormed(boxes, f) && WellFormed(boxes, g)
    ensures WellFormed(boxes, Append(f, g))
    decreases f
  {
    match f
    case End =>
    case Leaf(name, payload, rest) => AppendWellFormed(boxes, rest, g);
    case Container(name, kids, rest) => AppendWellFormed(boxes, rest, g);
  }

  /** Where the trun box of a track is whose traf box begins at `at`. */
  function TrunAt(t: Track, at: nat): nat { at + 8 + (8 + |t.tfhd|) + (8 + |t.tfdt|) }

  function TrackSize(t: Track): nat { 8 + (8 + |t.tfhd|) + (8 + |t.tfdt|) + (8 + |t.trun|) }

  lemma TrackKidsSize(t: Track)
    ensures SerSize(TrackKids(t)) + 8 == TrackSize(t)
  {
    var trun := Leaf(TRUN, t.trun, End);
    assert SerSize(trun) == 8 + |t.trun|;
    assert SerSize(Leaf(TFDT, t.tfdt, trun)) == 8 + |t.tfdt| + SerSize(trun);
  }

  lemma LeafHolds(buf: Bytes, at: nat, name: Name, payload: Bytes, rest: Forest)
    requires Holds(buf, at, Ser(Leaf(name, payload, rest)))
    ensures Holds(buf, at + 8, payload) && Holds(buf, at + 8 + |payload|, Ser(rest))
  {
    BoxHolds(buf, at, name, payload, Ser(rest));
  }

  lemma KidsLaid(buf: Bytes, at: nat, t: Track)
    requires Holds(buf, at, Ser(TrackKids(t)))
    ensures Holds(buf, at + (8 + |t.tfhd|) + (8 + |t.tfdt|) + 8, t.trun)
  {
    var trun := Leaf(TRUN, t.trun, End);
    var tfdt := Leaf(TFDT, t.tfdt, trun);
    LeafHolds(buf, at, TFHD, t.tfhd, tfdt);
    LeafHolds(buf, at + 8 + |t.tfhd|, TFDT, t.tfdt, trun);
    LeafHolds(buf, at + (8 + |t.tfhd|) + (8 + |t.tfdt|), TRUN, t.trun, End);
  }

  lemma TrackLaid(buf: Bytes, at: nat, t: Track, rest: Forest)
    requires Holds(buf, at, Ser(Container(TRAF, TrackKids(t), rest)))
    ensures Holds(buf, TrunAt(t, at) + 8, t.trun) && Holds(buf, at + TrackSize(t), Ser(rest))
  {
    BoxHolds(buf, at, TRAF, Ser(TrackKids(t)), Ser(rest));
    TrackKidsSize(t);
    KidsLaid(buf, at + 8, t);
  }

  /** The entries of a track. */
  function TrackEntries(t: Track, at: nat): seq<Ie> {
    [Ie(TRAF, at, at + TrackSize(t)), Ie(TFHD, at + 8, at + 16 + |t.tfhd|),
     Ie(TFDT, at + 16 + |t.tfhd|, TrunAt(t, at)), Ie(TRUN, TrunAt(t, at), at + TrackSize(t))]
  }

  lemma TrackPre(t: Track, rest: Forest, at: nat)
    ensures Pre(Container(TRAF, TrackKids(t), rest), at) == TrackEntries(t, at) + Pre(rest, at + TrackSize(t))
  {
    TrackKidsSize(t);
    TrackKidsPre(t, at);
    assert [Ie(TRAF, at, at + TrackSize(t))] + Pre(TrackKids(t), at + 8) == TrackEntries(t, at);
  }

  lemma TrackKidsPre(t: Track, at: nat)
    ensures Pre(TrackKids(t), at + 8)
            == [Ie(TFHD, at + 8, at + 16 + |t.tfhd|), Ie(TFDT, at + 16 + |t.tfhd|, TrunAt(t, at)),
                Ie(TRUN, TrunAt(t, at), at + TrackSize(t))]
  {
    var trun := Leaf(TRUN, t.trun, End);
    var tfdt := Leaf(TFDT, t.tfdt, trun);
    assert Pre(trun, TrunAt(t, at)) == [Ie(TRUN, TrunAt(t, at), at + TrackSize(t))];
    assert Pre(tfdt, at + 16 + |t.tfhd|)
        == [Ie(TFDT, at + 16 + |t.tfhd|, TrunAt(t, at)), Ie(TRUN, TrunAt(t, at), at + TrackSize(t))];
  }

  function Two(f: Frag): bool { f.second.Some? }

  function FragSize(f: Frag): nat {
    8 + (8 + |f.mfhd|) + TrackSize(f.first) + (if Two(f) then TrackSize(f.second.value) else 0) + (8 + |f.mdat|)
  }

  /** Where the tracks of a fragment begin. */
  function FirstAt(f: Frag, at: nat): nat { at + 16 + |f.mfhd| }

  function SecondAt(f: Frag, at: nat): nat { FirstAt(f, at) + TrackSize(f.first) }

  function Window(f: Frag, at: nat): seq<Ie> { Pre(FragForest(f), at) }

  function TracksSize(f: Frag): nat { TrackSize(f.first) + (if Two(f) then TrackSize(f.second.value) else 0) }

  lemma TracksPre(f: Frag, at: nat)
    ensures SerSize(Tracks(f)) == TracksSize(f)
    ensures Pre(Tracks(f), at)
            == TrackEntries(f.first, at)
               + (if Two(f) then TrackEntries(f.second.value, at + TrackSize(f.first)) else [])
  {
    TrackKidsSize(f.first);
    if Two(f) {
      var second := Container(TRAF, TrackKids(f.second.value), End);
      TrackKidsSize(f.second.value);
      TrackPre(f.second.value, End, at + TrackSize(f.first));
      assert SerSize(second) == 8 + SerSize(TrackKids(f.second.value));
      TrackPre(f.first, second, at);
    } else {
      TrackPre(f.first, End, at);
    }
  }

  lemma FragPre(f: Frag, at: nat)
    ensures |FragBytes(f)| == FragSize(f)
    ensures var mdatAt := at + FragSize(f) - 8 - |f.mdat|;
      Window(f, at) == [Ie(MOOF, at, mdatAt), Ie(MFHD, at + 8, FirstAt(f, at))] + Pre(Tracks(f), FirstAt(f, at))
                       + [Ie(MDAT, mdatAt, at + FragSize(f))]
  {
    TracksPre(f, FirstAt(f, at));
    var kids, mdat := Leaf(MFHD, f.mfhd, Tracks(f)), Leaf(MDAT, f.mdat, End);
    var mdatAt := at + FragSize(f) - 8 - |f.mdat|;
    assert SerSize(mdat) == 8 + |f.mdat| && SerSize(kids) == 8 + |f.mfhd| + TracksSize(f);
    assert Pre(mdat, mdatAt) == [Ie(MDAT, mdatAt, at + FragSize(f))];
    assert Pre(kids, at + 8) == [Ie(MFHD, at + 8, FirstAt(f, at))] + Pre(Tracks(f), FirstAt(f, at));
    assert Window(f, at) == [Ie(MOOF, at, mdatAt)] + Pre(kids, at + 8) + Pre(mdat, mdatAt);
  }

  /** The entries of a fragment have the names of its shape; its first, last and trun entries are where they belong. */
  lemma FragEntries(f: Frag, at: nat)
    ensures |FragBytes(f)| == FragSize(f)
    ensures var w := Window(f, at);
      && |w| == |Shape(Two(f))| && (forall k :: 0 <= k < |w| ==> w[k].n == Shape(Two(f))[k])
      && w[0].i == at && w[|w| - 1].e == at + FragSize(f)
      && w[5].i == TrunAt(f.first, FirstAt(f, at))
      && (Two(f) ==> w[9].i == TrunAt(f.second.value, SecondAt(f, at)))
  {
    FragPre(f, at);
    TracksPre(f, FirstAt(f, at));
  }

  /** The flag byte of a track: byte 12 of the payload of its trun box. */
  predicate Flag(t: Track) { |t.trun| > 12 && t.trun[12] == 2 }

  /** Sizes fit their headers, and each trun box is long enough to have the flag byte. */
  predicate Proper(f: Frag) {
    && WellFormed(BOXES, FragForest(f))
    && |f.first.trun| > 12 && (Two(f) ==> |f.second.value.trun| > 12)
  }

  predicate IsKey(f: Frag) { Flag(f.first) || (Two(f) && Flag(f.second.value)) }

  lemma TrackFlag(buf: Bytes, at: nat, t: Track, rest: Forest)
    requires |t.trun| > 12 && Holds(buf, at, Ser(Container(TRAF, TrackKids(t), rest)))
    ensures TrunAt(t, at) + 20 < |buf| && (buf[TrunAt(t, at) + 20] == 2) == Flag(t)
    ensures Holds(buf, at + TrackSize(t), Ser(rest))
  {
    TrackLaid(buf, at, t, rest);
    HoldsByte(buf, TrunAt(t, at) + 8, t.trun, 12);
  }

  lemma TracksHold(buf: Bytes, at: nat, f: Frag)
    requires Holds(buf, at, FragBytes(f))
    ensures Holds(buf, FirstAt(f, at), Ser(Tracks(f)))
  {
    BoxHolds(buf, at, MOOF, Ser(Leaf(MFHD, f.mfhd, Tracks(f))), Ser(Leaf(MDAT, f.mdat, End)));
    LeafHolds(buf, at + 8, MFHD, f.mfhd, Tracks(f));
  }

  lemma FirstFlag(buf: Bytes, at: nat, f: Frag)
    requires Proper(f) && Holds(buf, at, FragBytes(f))
    ensures TrunAt(f.first, FirstAt(f, at)) + 20 < |buf|
    ensures (buf[TrunAt(f.first, FirstAt(f, at)) + 20] == 2) == Flag(f.first)
    ensures Two(f) ==> Holds(buf, SecondAt(f, at), Ser(Container(TRAF, TrackKids(f.second.value), End)))
  {
    var second := if f.second.None? then End else Container(TRAF, TrackKids(f.second.value), End);
    TracksHold(buf, at, f);
    TrackFlag(buf, FirstAt(f, at), f.first, second);
  }

  lemma FragFlags(buf: Bytes, at: nat, f: Frag)
    requires Proper(f) && Holds(buf, at, FragBytes(f))
    ensures TrunAt(f.first, FirstAt(f, at)) + 20 < |buf|
    ensures (buf[TrunAt(f.first, FirstAt(f, at)) + 20] == 2) == Flag(f.first)
    ensures Two(f) ==> TrunAt(f.second.value, SecondAt(f, at)) + 20 < |buf|
                       && (buf[TrunAt(f.second.value, SecondAt(f, at)) + 20] == 2) == Flag(f.second.value)
  {
    FirstFlag(buf, at, f);
    if Two(f) { TrackFlag(buf, SecondAt(f, at), f.second.value, End); }
  }

  lemma HoldsByte(buf: Bytes, at: nat, b: Bytes, k: nat)
    requires Holds(buf, at, b) && k < |b|
    ensures at + k < |buf| && buf[at + k] == b[k]
  {
    assert buf[at..at + |b|][k] == buf[at + k];
  }

  // ----- A stream of them -----

  function Concat(fs: seq<Frag>): Bytes {
    if fs == [] then [] else FragBytes(fs[0]) + Concat(fs[1..])
  }

  function Stream(fs: seq<Frag>): Forest {
    if fs == [] then End else Append(FragForest(fs[0]), Stream(fs[1..]))
  }

  predicate AllProper(fs: seq<Frag>) { forall k :: 0 <= k < |fs| ==> Proper(fs[k]) }

  lemma {:induction false} StreamSer(fs: seq<Frag>)
    requires AllProper(fs)
    ensures Ser(Stream(fs)) == Concat(fs) && WellFormed(BOXES, Stream(fs))
  {
    if fs != [] {
      StreamSer(fs[1..]);
      AppendSer(FragForest(fs[0]), Stream(fs[1..]));
      AppendWellFormed(BOXES, FragForest(fs[0]), Stream(fs[1..]));
    }
  }

  function Shapes(fs: seq<Frag>): seq<bool> {
    if fs == [] then [] else [Two(fs[0])] + Shapes(fs[1..])
  }

  /** The calls for the fragments, the first one's bytes beginning at `at` and its entries at s. */
  function StreamCalls(fs: seq<Frag>, at: nat, s: nat): (calls: seq<Call>)
    ensures |calls| == |fs|
    decreases |fs|
  {
    if fs == [] then []
    else
      var f, n := fs[0], |Shape(Two(fs[0]))|;
      [Call(if Two(f) then 1 else 0, Window(f, at), s + n - 1)] + StreamCalls(fs[1..], at + FragSize(f), s + n)
  }

  lemma FirstWindow(fs: seq<Frag>, at: nat, ies: seq<Ie>, s: nat, rest: seq<Ie>)
    requires fs != [] && AllProper(fs) && s <= |ies| && ies[s..] == Pre(Stream(fs), at) + rest
    ensures var n := |Shape(Two(fs[0]))|;
      && s + n <= |ies| && ies[s..s + n] == Window(fs[0], at) && NamesAt(Shape(Two(fs[0])), ies, s)
      && ies[s + n..] == Pre(Stream(fs[1..]), at + FragSize(fs[0])) + rest
  {
    var f, others := fs[0], Stream(fs[1..]);
    var next := Pre(others, at + FragSize(f));
    FragEntries(f, at);
    AppendPre(FragForest(f), others, at, at + FragSize(f));
    assert ies[s..] == Window(f, at) + (next + rest) by { Regroup(Window(f, at), next, rest); }
    Divided(ies, s, Window(f, at), next + rest);
  }

  lemma Divided<T>(all: seq<T>, s: nat, a: seq<T>, b: seq<T>)
    requires s <= |all| && all[s..] == a + b
    ensures s + |a| <= |all| && all[s..s + |a|] == a && all[s + |a|..] == b
    ensures forall k :: 0 <= k < |a| ==> all[s + k] == a[k]
  {
    assert all[s..][..|a|] == a && all[s..][|a|..] == b;
    assert forall k :: 0 <= k < |a| ==> all[s + k] == all[s..][k];
  }

  /** The listing of a stream has its fragments' shapes, whatever comes behind it. */
  lemma {:induction false} StreamShapes(fs: seq<Frag>, at: nat, ies: seq<Ie>, s: nat, rest: seq<Ie>)
    requires AllProper(fs) && s <= |ies| && ies[s..] == Pre(Stream(fs), at) + rest
    ensures FragmentsFrom(ies, s, Shapes(fs), rest)
    decreases |fs|
  {
    if fs == [] {
      assert Pre(Stream(fs), at) + rest == rest;
    } else {
      var two, others := Two(fs[0]), Shapes(fs[1..]);
      FirstWindow(fs, at, ies, s, rest);
      StreamShapes(fs[1..], at + FragSize(fs[0]), ies, s + |Shape(two)|, rest);
      assert Shapes(fs) == [two] + others && ([two] + others)[1..] == others;
    }
  }

  /** The listing of a stream is its fragments' windows one after the other. */
  lemma {:induction false} StreamListing(fs: seq<Frag>, at: nat, ies: seq<Ie>, s: nat, rest: seq<Ie>)
    requires AllProper(fs) && s <= |ies| && ies[s..] == Pre(Stream(fs), at) + rest
    ensures FragCalls(ies, s, Shapes(fs)) == StreamCalls(fs, at, s)
    decreases |fs|
  {
    if fs != [] {
      var next, s' := at + FragSize(fs[0]), s + |Shape(Two(fs[0]))|;
      FirstWindow(fs, at, ies, s, rest);
      StreamListing(fs[1..], next, ies, s', rest);
      FragCallsStep(fs, at, ies, s);
    }
  }

  lemma FragCallsStep(fs: seq<Frag>, at: nat, ies: seq<Ie>, s: nat)
    requires fs != [] && s + |Shape(Two(fs[0]))| <= |ies|
    requires ies[s..s + |Shape(Two(fs[0]))|] == Window(fs[0], at)
    requires var n := |Shape(Two(fs[0]))|;
      FragCalls(ies, s + n, Shapes(fs[1..])) == StreamCalls(fs[1..], at + FragSize(fs[0]), s + n)
    ensures FragCalls(ies, s, Shapes(fs)) == StreamCalls(fs, at, s)
  {
    assert Shapes(fs)[1..] == Shapes(fs[1..]);
  }
}
