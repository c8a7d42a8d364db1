/** decoder/mp4: the walk over the boxes of a buffer (box headers as in section 4.2 of ISO/IEC 14496-12). */
module Mp4Box {
  import opened Util
  import BigEndian

  /** A box name as the four bytes of its header. */
  type Name = n: Bytes | |n| == 4 witness [0, 0, 0, 0]

  /** Known boxes: true for those skipped as a whole, false for those whose children are listed. */
  type Boxes = map<Name, bool>

  /** An entry of the listing: name, first byte, byte after the last. */
  datatype Ie = Ie(n: Name, i: int, e: int)

  datatype DecodeErr = MisBox | UnknownBox(name: Name) | CantResync(name: Name)

  // ----- searchBox -----

  datatype Found = Known(box: Ie, next: int) | Unknown(name: Name) | Eof | Crash

  function Size(buf: Bytes, at: nat): (n: int)
    ensures 0 <= n < BigEndian.TWO32
  {
    BigEndian.DigitsOfValue(BigEndian.Field(buf, at, 4));
    BigEndian.Pow256Grows(4, 8);
    BigEndian.IntAt(buf, at, 4)
  }

  /** Reading a header outside the buffer stops the program. */
  function SearchBox(boxes: Boxes, buf: Bytes, cu: int): Found {
    if cu < 0 || cu + 8 > |buf| then Crash
    else
      var name := buf[cu + 4..cu + 8];
      var e := cu + Size(buf, cu);
      if name !in boxes then Unknown(name)
      else if e > |buf| then Eof
      else Known(Ie(name, cu, e), if boxes[name] then e else cu + 8)
  }

  // ----- decode -----

  predicate OccursAt(s: Bytes, sub: Bytes, k: nat) { k + |sub| <= |s| && s[k..k + |sub|] == sub }

  /** Index of the first occurrence of `sub` at or after `from`. */
  function Index(s: Bytes, sub: Bytes, from: nat): (r: Option<nat>)
    ensures r.Some? ==> from <= r.value && OccursAt(s, sub, r.value)
    ensures forall k: nat :: from <= k && (r.None? || k < r.value) ==> !OccursAt(s, sub, k)
    decreases |s| - from
  {
    if OccursAt(s, sub, from) then Some(from)
    else if from >= |s| then None
    else Index(s, sub, from + 1)
  }

  /** What decode holds between two turns of its loop. */
  datatype State = State(cu: int, m: seq<Ie>, err: Option<DecodeErr>)

  datatype Outcome = Done(m: seq<Ie>, err: Option<DecodeErr>) | Crashed | Unfinished

  datatype Turn = Again(s: State) | Stop(o: Outcome)

  function DecodeTurn(boxes: Boxes, buf: Bytes, sync: Name, s: State): (t: Turn)
    requires s.cu < |buf| - 3
    ensures t.Stop? ==> t.o != Unfinished
  {
    match SearchBox(boxes, buf, s.cu)
    case Crash => Stop(Crashed)
    case Eof => Stop(Done(s.m, if s.m == [] then Some(MisBox) else s.err))
    case Known(box, next) => Again(State(next, s.m + [box], s.err))
    case Unknown(name) =>
      match Index(buf[s.cu..], sync, 0)
      case Some(k) => Again(State(s.cu + k - 4, [], Some(UnknownBox(name))))
      case None => Stop(Done(s.m, Some(CantResync(name))))
  }

  /** The loop for at most `fuel` turns. */
  function Walk(boxes: Boxes, buf: Bytes, sync: Name, s: State, fuel: nat): Outcome
    decreases fuel
  {
    if s.cu >= |buf| - 3 then Done(s.m, s.err)
    else if fuel == 0 then Unfinished
    else match DecodeTurn(boxes, buf, sync, s)
      case Again(s') => Walk(boxes, buf, sync, s', fuel - 1)
      case Stop(o) => o
  }

  const START := State(0, [], None)

  /** decode, cut off after `fuel` turns: the source loop itself has no such bound. */
  method Decode(boxes: Boxes, buf: Bytes, sync: Name, fuel: nat) returns (o: Outcome)
    ensures o == Walk(boxes, buf, sync, START, fuel)
  {
    var cu: int := 0;
    var m: seq<Ie> := [];
    var err: Option<DecodeErr> := None;
    var left := fuel;
    ghost var goal := Walk(boxes, buf, sync, START, fuel);
    while cu < |buf| - 3
      invariant Walk(boxes, buf, sync, State(cu, m, err), left) == goal
      decreases left
    {
      if left == 0 { return Unfinished; }
      ghost var turn := DecodeTurn(boxes, buf, sync, State(cu, m, err));
      assert goal == if turn.Again? then Walk(boxes, buf, sync, turn.s, left - 1) else turn.o;
      var found := SearchBox(boxes, buf, cu);
      match found {
        case Crash =>
          assert turn == Stop(Crashed);
          return Crashed;
        case Eof =>
          if |m| == 0 { err := Some(MisBox); }
          assert turn == Stop(Done(m, err));
          return Done(m, err);
        case Unknown(name) =>
          err := Some(UnknownBox(name));
          var at := Index(buf[cu..], sync, 0);
          if at == None {
            assert turn == Stop(Done(m, Some(CantResync(name))));
            return Done(m, Some(CantResync(name)));
          }
          cu := cu + at.value - 4;
          m := [];
          assert turn == Again(State(cu, m, err));
        case Known(box, next) =>
          m := m + [box];
          cu := next;
          assert turn == Again(State(cu, m, err));
      }
      left := left - 1;
    }
    return Done(m, err);
  }

  // ----- What a listing without error is -----

  /** The entry is a known box with this header, inside the buffer. */
  predicate Faithful(boxes: Boxes, buf: Bytes, x: Ie) {
    && 0 <= x.i && x.i + 8 <= |buf|
    && x.n == buf[x.i + 4..x.i + 8] && x.n in boxes
    && x.e == x.i + Size(buf, x.i) <= |buf|
  }

  /** Where the walk goes after a box: past it, or to its first child. */
  function After(boxes: Boxes, x: Ie): int
    requires x.n in boxes
  {
    if boxes[x.n] then x.e else x.i + 8
  }

  /** Where the walk stands after the entries m, if from `from` on they are faithful and follow without a gap. */
  function PathEnd(boxes: Boxes, buf: Bytes, from: int, m: seq<Ie>): Option<int>
    decreases |m|
  {
    if m == [] then Some(from)
    else if m[0].i == from && Faithful(boxes, buf, m[0]) then PathEnd(boxes, buf, After(boxes, m[0]), m[1..])
    else None
  }

  predicate Path(boxes: Boxes, buf: Bytes, from: int, m: seq<Ie>, end: int) {
    PathEnd(boxes, buf, from, m) == Some(end)
  }

  /** No header fits from `at` on, or a known box begins there that the buffer does not hold to its end. */
  predicate StopsAt(boxes: Boxes, buf: Bytes, at: int) {
    || at >= |buf| - 3
    || (at >= 0 && SearchBox(boxes, buf, at) == Eof)
  }

  lemma {:induction false} PathJoin(boxes: Boxes, buf: Bytes, from: int, m: seq<Ie>, mid: int, m': seq<Ie>, end: int)
    requires Path(boxes, buf, from, m, mid) && Path(boxes, buf, mid, m', end)
    ensures Path(boxes, buf, from, m + m', end)
    decreases |m|
  {
    if m == [] {
      assert m + m' == m';
    } else {
      PathJoin(boxes, buf, After(boxes, m[0]), m[1..], mid, m', end);
      assert (m + m')[1..] == m[1..] + m';
    }
  }

  /** Once a box was unknown the call reports an error, however well it resynchronises. */
  lemma {:induction false} ErrorStays(boxes: Boxes, buf: Bytes, sync: Name, s: State, fuel: nat)
    requires s.err.Some?
    ensures var o := Walk(boxes, buf, sync, s, fuel); o.Done? ==> o.err.Some?
    decreases fuel
  {
    if s.cu < |buf| - 3 && fuel > 0 {
      var t := DecodeTurn(boxes, buf, sync, s);
      if t.Again? { ErrorStays(boxes, buf, sync, t.s, fuel - 1); }
    }
  }

  /** A listing given without error is a gap-free path of faithful entries up to a place where the walk stops. */
  lemma {:induction false} WalkSound(boxes: Boxes, buf: Bytes, sync: Name, s: State, fuel: nat) returns (end: int)
    requires Path(boxes, buf, 0, s.m, s.cu) && s.err.None?
    requires var o := Walk(boxes, buf, sync, s, fuel); o.Done? && o.err.None?
    ensures var m := Walk(boxes, buf, sync, s, fuel).m;
      Path(boxes, buf, 0, m, end) && StopsAt(boxes, buf, end) && (m == [] ==> |buf| <= 3)
    decreases fuel
  {
    end := s.cu;
    if s.cu < |buf| - 3 {
      var t := DecodeTurn(boxes, buf, sync, s);
      if t.Again? {
        var found := SearchBox(boxes, buf, s.cu);
        if found.Known? {
          assert Path(boxes, buf, s.cu, [found.box], t.s.cu) by { assert [found.box][1..] == []; }
          PathJoin(boxes, buf, 0, s.m, s.cu, [found.box], t.s.cu);
        } else {
          ErrorStays(boxes, buf, sync, t.s, fuel - 1);
        }
        end := WalkSound(boxes, buf, sync, t.s, fuel - 1);
      }
    }
  }

  /** A name that is no box stands in the buffer where a header may be. */
  ghost predicate HasUnknown(boxes: Boxes, buf: Bytes, name: Name) {
    name !in boxes && exists p: nat :: NameAt(buf, p, name)
  }

  predicate NameAt(buf: Bytes, p: nat, name: Name) { p + 8 <= |buf| && buf[p + 4..p + 8] == name }

  /** What an error says: no box at all; an unknown one, resynchronised behind; or one behind which there is nothing to find. */
  ghost predicate ErrorSays(boxes: Boxes, buf: Bytes, sync: Name, m: seq<Ie>, end: int, e: Option<DecodeErr>) {
    match e
    case None => StopsAt(boxes, buf, end)
    case Some(MisBox) => m == [] && end < |buf| - 3 && StopsAt(boxes, buf, end)
    case Some(UnknownBox(name)) => HasUnknown(boxes, buf, name) && StopsAt(boxes, buf, end)
    case Some(CantResync(name)) =>
      0 <= end <= |buf| && SearchBox(boxes, buf, end) == Unknown(name) && Index(buf[end..], sync, 0).None?
  }

  lemma UnknownStands(boxes: Boxes, buf: Bytes, at: int)
    requires SearchBox(boxes, buf, at).Unknown?
    ensures HasUnknown(boxes, buf, SearchBox(boxes, buf, at).name)
  {
    assert NameAt(buf, at, SearchBox(boxes, buf, at).name);
  }

  /** What decode holds is a path from `from`, and its error, if it has one, names an unknown box. */
  ghost predicate Listing(boxes: Boxes, buf: Bytes, from: int, s: State) {
    && Path(boxes, buf, from, s.m, s.cu)
    && (s.err.Some? ==> s.err.value.UnknownBox? && HasUnknown(boxes, buf, s.err.value.name))
  }

  lemma ListingTurn(boxes: Boxes, buf: Bytes, sync: Name, s: State, from: int, t: State) returns (from': int)
    requires s.cu < |buf| - 3 && Listing(boxes, buf, from, s) && DecodeTurn(boxes, buf, sync, s) == Again(t)
    ensures Listing(boxes, buf, from', t) && (from' == from || from' < 0 || OnSync(buf, sync, from'))
    ensures from' < 0 ==> from' == t.cu < |buf| - 3
  {
    var found := SearchBox(boxes, buf, s.cu);
    from' := if found.Known? then from else t.cu;
    if found.Known? {
      assert Path(boxes, buf, s.cu, [found.box], t.cu) by { assert [found.box][1..] == []; }
      PathJoin(boxes, buf, from, s.m, s.cu, [found.box], t.cu);
    } else {
      UnknownStands(boxes, buf, s.cu);
      SyncFound(boxes, buf, sync, s);
    }
  }

  /**
   * With an error or without, what is given back is a gap-free path: from the start of the buffer, or from the place last
   * resynchronised on.
   */
  lemma {:induction false} ListingFrom(boxes: Boxes, buf: Bytes, sync: Name, s: State, fuel: nat, from: int, o: Outcome)
    returns (from': int, end: int)
    requires Listing(boxes, buf, from, s) && o == Walk(boxes, buf, sync, s, fuel) && o.Done?
    ensures Path(boxes, buf, from', o.m, end) && ErrorSays(boxes, buf, sync, o.m, end, o.err)
    ensures from' == from || OnSync(buf, sync, from')
    decreases fuel
  {
    from', end := from, s.cu;
    if s.cu < |buf| - 3 {
      var t := DecodeTurn(boxes, buf, sync, s);
      if t.Again? {
        var next := ListingTurn(boxes, buf, sync, s, from, t.s);
        from', end := ListingFrom(boxes, buf, sync, t.s, fuel - 1, next, o);
      }
    }
  }

  /** One turn along a gap-free path. */
  lemma WalkStep(boxes: Boxes, buf: Bytes, sync: Name, s: State, m: seq<Ie>, end: int, fuel: nat)
    requires Path(boxes, buf, s.cu, m, end) && m != [] && fuel > 0
    ensures Path(boxes, buf, After(boxes, m[0]), m[1..], end)
    ensures var s' := State(After(boxes, m[0]), s.m + [m[0]], s.err);
      Walk(boxes, buf, sync, s, fuel) == Walk(boxes, buf, sync, s', fuel - 1)
  {
    var s' := State(After(boxes, m[0]), s.m + [m[0]], s.err);
    assert SearchBox(boxes, buf, s.cu) == Known(m[0], After(boxes, m[0]));
    assert DecodeTurn(boxes, buf, sync, s) == Again(s');
  }

  /** A gap-free path is walked in as many turns as it has boxes. */
  lemma {:induction false} WalkFollows(boxes: Boxes, buf: Bytes, sync: Name, s: State, fuel: nat, m: seq<Ie>,
                                       last: State, rest: nat)
    requires Path(boxes, buf, s.cu, m, last.cu) && fuel == |m| + rest
    requires last.m == s.m + m && last.err == s.err
    ensures Walk(boxes, buf, sync, s, fuel) == Walk(boxes, buf, sync, last, rest)
    decreases fuel
  {
    if m == [] {
      assert last == s;
    } else {
      var s' := State(After(boxes, m[0]), s.m + [m[0]], s.err);
      WalkStep(boxes, buf, sync, s, m, last.cu, fuel);
      FirstMoved(s.m, m);
      WalkFollows(boxes, buf, sync, s', fuel - 1, m[1..], last, rest);
    }
  }

  lemma FirstMoved<T>(a: seq<T>, b: seq<T>)
    requires b != []
    ensures a + [b[0]] + b[1..] == a + b
  {
  }

  /** Where a walk stops it is done, with an error if it has come to a cut box without listing any. */
  lemma WalkStops(boxes: Boxes, buf: Bytes, sync: Name, s: State, fuel: nat)
    requires StopsAt(boxes, buf, s.cu)
    ensures var o := Walk(boxes, buf, sync, s, fuel);
      if s.cu >= |buf| - 3 then o == Done(s.m, s.err)
      else if fuel == 0 then o == Unfinished
      else o == Done(s.m, if s.m == [] then Some(MisBox) else s.err)
  {
  }

  lemma {:induction false} WalkShort(boxes: Boxes, buf: Bytes, sync: Name, s: State, m: seq<Ie>, end: int, fuel: nat)
    requires Path(boxes, buf, s.cu, m, end) && fuel < |m|
    ensures Walk(boxes, buf, sync, s, fuel) == Unfinished
    decreases fuel
  {
    if fuel > 0 {
      WalkStep(boxes, buf, sync, s, m, end, fuel);
      WalkShort(boxes, buf, sync, State(After(boxes, m[0]), s.m + [m[0]], s.err), m[1..], end, fuel - 1);
    }
  }

  /** m is the listing decode gives without error, for some number of turns. */
  ghost predicate Lists(boxes: Boxes, buf: Bytes, sync: Name, m: seq<Ie>) {
    exists fuel: nat :: Walk(boxes, buf, sync, START, fuel) == Done(m, None)
  }

  /** m describes the buffer from its start to a place where the walk stops. */
  ghost predicate Describes(boxes: Boxes, buf: Bytes, m: seq<Ie>) {
    && (m == [] ==> |buf| <= 3)
    && exists end :: Path(boxes, buf, 0, m, end) && StopsAt(boxes, buf, end)
  }

  /** decode gives m without error exactly when m describes the buffer. */
  lemma DecodeExact(boxes: Boxes, buf: Bytes, sync: Name, m: seq<Ie>)
    ensures Lists(boxes, buf, sync, m) <==> Describes(boxes, buf, m)
  {
    if Lists(boxes, buf, sync, m) {
      var fuel: nat :| Walk(boxes, buf, sync, START, fuel) == Done(m, None);
      var end := WalkSound(boxes, buf, sync, START, fuel);
    }
    if Describes(boxes, buf, m) {
      var end :| Path(boxes, buf, 0, m, end) && StopsAt(boxes, buf, end);
      WalkFollows(boxes, buf, sync, START, |m| + 1, m, State(end, m, None), 1);
      assert Walk(boxes, buf, sync, START, |m| + 1) == Done(m, None);
    }
  }

  // ----- Serialised boxes -----

  datatype Forest =
    | End
    | Leaf(name: Name, payload: Bytes, rest: Forest)
    | Container(name: Name, kids: Forest, rest: Forest)

  function Header(name: Name, payload: nat): (h: Bytes)
    ensures |h| == 8
  {
    BigEndian.Digits(8 + payload, 4) + name
  }

  function SerSize(f: Forest): nat {
    match f
    case End => 0
    case Leaf(_, payload, rest) => 8 + |payload| + SerSize(rest)
    case Container(_, kids, rest) => 8 + SerSize(kids) + SerSize(rest)
  }

  function Ser(f: Forest): (b: Bytes)
    ensures |b| == SerSize(f)
  {
    match f
    case End => []
    case Leaf(name, payload, rest) => Header(name, |payload|) + payload + Ser(rest)
    case Container(name, kids, rest) => Header(name, SerSize(kids)) + Ser(kids) + Ser(rest)
  }

  /** Names are known and of the right kind, and every size fits its header. */
  predicate WellFormed(boxes: Boxes, f: Forest) {
    match f
    case End => true
    case Leaf(name, payload, rest) =>
      && name in boxes && boxes[name]
      && 8 + |payload| < BigEndian.TWO32
      && WellFormed(boxes, rest)
    case Container(name, kids, rest) =>
      && name in boxes && !boxes[name]
      && 8 + SerSize(kids) < BigEndian.TWO32
      && WellFormed(boxes, kids) && WellFormed(boxes, rest)
  }

  /** The boxes in pre-order, the first one at `at`. */
  function Pre(f: Forest, at: nat): seq<Ie> {
    match f
    case End => []
    case Leaf(name, payload, rest) =>
      var e := at + 8 + |payload|;
      [Ie(name, at, e)] + Pre(rest, e)
    case Container(name, kids, rest) =>
      var e := at + 8 + SerSize(kids);
      [Ie(name, at, e)] + Pre(kids, at + 8) + Pre(rest, e)
  }

  /** The bytes b stand in buf at `at`. */
  predicate Holds(buf: Bytes, at: nat, b: Bytes) { at + |b| <= |buf| && buf[at..at + |b|] == b }

  lemma HoldsParts(buf: Bytes, at: nat, a: Bytes, b: Bytes)
    requires Holds(buf, at, a + b)
    ensures Holds(buf, at, a) && Holds(buf, at + |a|, b)
  {
    assert buf[at..at + |a + b|][..|a|] == a;
    assert buf[at..at + |a + b|][|a|..] == b;
  }

  lemma HeaderReads(buf: Bytes, at: nat, name: Name, n: nat)
    requires 8 + n < BigEndian.TWO32 && Holds(buf, at, Header(name, n))
    ensures at + 8 <= |buf| && buf[at + 4..at + 8] == name && Size(buf, at) == 8 + n
  {
    var d := BigEndian.Digits(8 + n, 4);
    HoldsParts(buf, at, d, name);
    BigEndian.Pow256Grows(4, 8);
    BigEndian.ValueOfDigits(8 + n, 4);
    assert BigEndian.Field(buf, at, 4) == d;
  }

  lemma HeaderFaithful(boxes: Boxes, buf: Bytes, at: nat, name: Name, n: nat)
    requires name in boxes && 8 + n < BigEndian.TWO32
    requires Holds(buf, at, Header(name, n)) && at + 8 + n <= |buf|
    ensures Faithful(boxes, buf, Ie(name, at, at + 8 + n))
  {
    HeaderReads(buf, at, name, n);
  }

  /** The headers of f stand in buf where its serialisation from `at` on puts them. */
  predicate Laid(buf: Bytes, at: nat, f: Forest)
    decreases f
  {
    match f
    case End => true
    case Leaf(name, payload, rest) =>
      var next := at + 8 + |payload|;
      next <= |buf| && Holds(buf, at, Header(name, |payload|)) && Laid(buf, next, rest)
    case Container(name, kids, rest) =>
      var next := at + 8 + SerSize(kids);
      next <= |buf| && Holds(buf, at, Header(name, SerSize(kids))) && Laid(buf, at + 8, kids) && Laid(buf, next, rest)
  }

  lemma BoxHolds(buf: Bytes, at: nat, name: Name, body: Bytes, rest: Bytes)
    requires Holds(buf, at, Header(name, |body|) + body + rest)
    ensures at + 8 + |body| <= |buf|
    ensures Holds(buf, at, Header(name, |body|)) && Holds(buf, at + 8, body) && Holds(buf, at + 8 + |body|, rest)
  {
    var header := Header(name, |body|);
    HoldsParts(buf, at, header + body, rest);
    HoldsParts(buf, at, header, body);
  }

  lemma {:induction false} SerLaid(boxes: Boxes, buf: Bytes, at: nat, f: Forest)
    requires WellFormed(boxes, f) && Holds(buf, at, Ser(f))
    ensures Laid(buf, at, f)
    decreases f
  {
    match f
    case End =>
    case Leaf(name, payload, rest) =>
      BoxHolds(buf, at, name, payload, Ser(rest));
      SerLaid(boxes, buf, at + 8 + |payload|, rest);
    case Container(name, kids, rest) =>
      BoxHolds(buf, at, name, Ser(kids), Ser(rest));
      SerLaid(boxes, buf, at + 8, kids);
      SerLaid(boxes, buf, at + 8 + SerSize(kids), rest);
  }

  /** The walk over a serialised forest, wherever it stands in a buffer. */
  lemma {:induction false} ForestPath(boxes: Boxes, buf: Bytes, at: nat, f: Forest, end: nat)
    requires WellFormed(boxes, f) && Laid(buf, at, f) && end == at + SerSize(f)
    ensures Path(boxes, buf, at, Pre(f, at), end)
    decreases f, 1
  {
    match f
    case End =>
    case Leaf(name, payload, rest) =>
      ForestPath(boxes, buf, at + 8 + |payload|, rest, end);
      BoxPath(boxes, buf, at, name, |payload|, [], Pre(rest, at + 8 + |payload|), end, Pre(f, at));
    case Container(name, kids, rest) =>
      ContainerPath(boxes, buf, at, name, kids, rest, end);
  }

  lemma {:induction false} ContainerPath(boxes: Boxes, buf: Bytes, at: nat, name: Name, kids: Forest, rest: Forest, end: nat)
    requires var f := Container(name, kids, rest); WellFormed(boxes, f) && Laid(buf, at, f) && end == at + SerSize(f)
    ensures Path(boxes, buf, at, Pre(Container(name, kids, rest), at), end)
    decreases Container(name, kids, rest), 0
  {
    var n, all := SerSize(kids), Pre(Container(name, kids, rest), at);
    ForestPath(boxes, buf, at + 8, kids, at + 8 + n);
    ForestPath(boxes, buf, at + 8 + n, rest, end);
    BoxPath(boxes, buf, at, name, n, Pre(kids, at + 8), Pre(rest, at + 8 + n), end, all);
  }

  /** A box of n bytes after its header, then `inner` if it is descended into, then `rest`. */
  lemma BoxPath(boxes: Boxes, buf: Bytes, at: nat, name: Name, n: nat, inner: seq<Ie>, rest: seq<Ie>, end: int,
                all: seq<Ie>)
    requires name in boxes && 8 + n < BigEndian.TWO32
    requires Holds(buf, at, Header(name, n)) && at + 8 + n <= |buf|
    requires if boxes[name] then inner == [] else Path(boxes, buf, at + 8, inner, at + 8 + n)
    requires Path(boxes, buf, at + 8 + n, rest, end)
    requires all == [Ie(name, at, at + 8 + n)] + inner + rest
    ensures Path(boxes, buf, at, all, end)
  {
    HeaderFaithful(boxes, buf, at, name, n);
    PathCons(boxes, buf, Ie(name, at, at + 8 + n), inner, at + 8 + n);
    PathJoin(boxes, buf, at, [Ie(name, at, at + 8 + n)] + inner, at + 8 + n, rest, end);
  }

  lemma PathCons(boxes: Boxes, buf: Bytes, x: Ie, m: seq<Ie>, end: int)
    requires Faithful(boxes, buf, x) && Path(boxes, buf, After(boxes, x), m, end)
    ensures Path(boxes, buf, x.i, [x] + m, end)
  {
    assert ([x] + m)[1..] == m;
  }

  /** decode inverts serialisation. */
  lemma DecodeInvertsSer(boxes: Boxes, f: Forest, sync: Name, fuel: nat)
    requires WellFormed(boxes, f) && fuel >= |Pre(f, 0)|
    ensures Walk(boxes, Ser(f), sync, START, fuel) == Done(Pre(f, 0), None)
  {
    SerLaid(boxes, Ser(f), 0, f);
    ForestPath(boxes, Ser(f), 0, f, SerSize(f));
    var m := Pre(f, 0);
    WalkFollows(boxes, Ser(f), sync, START, fuel, m, State(SerSize(f), m, None), fuel - |m|);
  }

  predicate Within(m: seq<Ie>, at: nat, end: nat) {
    forall k :: 0 <= k < |m| ==> at <= m[k].i < m[k].i + 8 <= m[k].e <= end
  }

  predicate Increasing(m: seq<Ie>) { forall j, k :: 0 <= j < k < |m| ==> m[j].i < m[k].i }

  lemma ListsJoin(a: seq<Ie>, b: seq<Ie>, at: nat, mid: nat, end: nat)
    requires Within(a, at, mid) && Within(b, mid, end) && Increasing(a) && Increasing(b) && at <= mid <= end
    ensures Within(a + b, at, end) && Increasing(a + b)
  {
  }

  lemma BoxWithin(name: Name, at: nat, n: nat, inner: seq<Ie>, rest: seq<Ie>, end: nat, all: seq<Ie>)
    requires Within(inner, at + 8, at + 8 + n) && Within(rest, at + 8 + n, end) && at + 8 + n <= end
    requires Increasing(inner) && Increasing(rest)
    requires all == [Ie(name, at, at + 8 + n)] + inner + rest
    ensures Within(all, at, end) && Increasing(all)
  {
    var head := [Ie(name, at, at + 8 + n)] + inner;
    assert forall k :: 1 <= k < |head| ==> head[k] == inner[k - 1];
    ListsJoin(head, rest, at, at + 8 + n, end);
  }

  /** The cursor strictly advances: entries start in order, each inside the bytes written. */
  lemma {:induction false} PreAdvances(f: Forest, at: nat, end: nat)
    requires end == at + SerSize(f)
    ensures Within(Pre(f, at), at, end) && Increasing(Pre(f, at))
    decreases f, 1
  {
    match f
    case End =>
    case Leaf(name, payload, rest) =>
      PreAdvances(rest, at + 8 + |payload|, end);
      BoxWithin(name, at, |payload|, [], Pre(rest, at + 8 + |payload|), end, Pre(f, at));
    case Container(name, kids, rest) =>
      ContainerAdvances(name, kids, rest, at, end);
  }

  lemma {:induction false} ContainerAdvances(name: Name, kids: Forest, rest: Forest, at: nat, end: nat)
    requires end == at + SerSize(Container(name, kids, rest))
    ensures var all := Pre(Container(name, kids, rest), at); Within(all, at, end) && Increasing(all)
    decreases Container(name, kids, rest), 0
  {
    var n, all := SerSize(kids), Pre(Container(name, kids, rest), at);
    PreAdvances(kids, at + 8, at + 8 + n);
    PreAdvances(rest, at + 8 + n, end);
    BoxWithin(name, at, n, Pre(kids, at + 8), Pre(rest, at + 8 + n), end, all);
  }

  // ----- Termination -----

  /** The state after n turns, if the loop has not ended before. */
  function Turns(boxes: Boxes, buf: Bytes, sync: Name, s: State, n: nat): Option<State>
    decreases n
  {
    if n == 0 then Some(s)
    else if s.cu >= |buf| - 3 then None
    else match DecodeTurn(boxes, buf, sync, s)
      case Again(s') => Turns(boxes, buf, sync, s', n - 1)
      case Stop(_) => None
  }

  /**
   * Places the cursor does not get away from: a skipped box of size zero; or a skipped box with the name to
   * resynchronise on, of a size so small that it is found again from the unknown name behind it.
   */
  predicate Trap(boxes: Boxes, buf: Bytes, sync: Name, p: int) {
    0 <= p && p + 8 <= |buf| && SkippedAt(boxes, buf, p) &&
    (Size(buf, p) == 0 ||
     (buf[p + 4..p + 8] == sync && Size(buf, p) <= 4 && SearchBox(boxes, buf, p + Size(buf, p)).Unknown?))
  }

  predicate SkippedAt(boxes: Boxes, buf: Bytes, p: nat)
    requires p + 8 <= |buf|
  {
    buf[p + 4..p + 8] in boxes && boxes[buf[p + 4..p + 8]]
  }

  /** No known name, `sync` itself included, begins with a part that `sync` ends with. */
  ghost predicate Apart(boxes: Boxes, sync: Name) {
    sync in boxes && forall name, d :: name in boxes && 1 <= d <= 3 ==> !Overlaps(sync, name, d)
  }

  predicate Overlaps(sync: Name, name: Name, d: nat)
    requires d <= 4
  {
    sync[d..] == name[..4 - d]
  }

  /** Two names that stand d bytes apart in a buffer. */
  lemma StandingApart(buf: Bytes, at: nat, a: Name, b: Name, d: nat)
    requires d <= 3 && at + d + 4 <= |buf| && buf[at..at + 4] == a && buf[at + d..at + d + 4] == b
    ensures Overlaps(a, b, d)
  {
    assert a[d..] == buf[at + d..at + 4];
    assert b[..4 - d] == buf[at + d..at + d + 4][..4 - d];
  }

  /** From just before `sync` it is the next one that is found. */
  lemma FoundAgain(boxes: Boxes, buf: Bytes, sync: Name, q: nat, k: nat)
    requires Apart(boxes, sync) && k <= 3 && q + k + 4 <= |buf| && buf[q + k..q + k + 4] == sync
    ensures Index(buf[q..], sync, 0) == Some(k)
  {
    assert buf[q..][k..k + 4] == sync;
    assert OccursAt(buf[q..], sync, k);
    forall j: nat | j < k
      ensures !OccursAt(buf[q..], sync, j)
    {
      if OccursAt(buf[q..], sync, j) {
        assert buf[q + j..q + j + 4] == buf[q..][j..j + 4];
        StandingApart(buf, q + j, sync, sync, k - j);
      }
    }
  }

  /** Two turns round a short box with the name to resynchronise on. */
  lemma RoundTrap(boxes: Boxes, buf: Bytes, sync: Name, s: State, s1: State) returns (s2: State)
    requires Trap(boxes, buf, sync, s.cu) && Size(buf, s.cu) > 0 && Apart(boxes, sync)
    requires s.cu < |buf| - 3 && DecodeTurn(boxes, buf, sync, s) == Again(s1)
    ensures s1.cu < |buf| - 3 && DecodeTurn(boxes, buf, sync, s1) == Again(s2) && s2.cu == s.cu
  {
    FoundAgain(boxes, buf, sync, s1.cu, s.cu + 4 - s1.cu);
    s2 := DecodeTurn(boxes, buf, sync, s1).s;
  }

  /** In a trap the loop goes round for ever. */
  lemma {:induction false} TrapNeverEnds(boxes: Boxes, buf: Bytes, sync: Name, s: State, fuel: nat)
    requires Trap(boxes, buf, sync, s.cu) && (sync in boxes && boxes[sync] ==> Apart(boxes, sync))
    ensures Walk(boxes, buf, sync, s, fuel) == Unfinished
    decreases fuel
  {
    if fuel > 0 {
      var s1 := DecodeTurn(boxes, buf, sync, s).s;
      if Size(buf, s.cu) == 0 {
        TrapNeverEnds(boxes, buf, sync, s1, fuel - 1);
      } else if fuel > 1 {
        var s2 := RoundTrap(boxes, buf, sync, s, s1);
        TrapNeverEnds(boxes, buf, sync, s2, fuel - 2);
      }
    }
  }

  /** The walk from s comes to a trap after n turns. */
  predicate TrappedAfter(boxes: Boxes, buf: Bytes, sync: Name, s: State, n: nat) {
    var t := Turns(boxes, buf, sync, s, n);
    t.Some? && Trap(boxes, buf, sync, t.value.cu)
  }

  lemma {:induction false} TrappedNeverEnds(boxes: Boxes, buf: Bytes, sync: Name, s: State, n: nat, fuel: nat)
    requires TrappedAfter(boxes, buf, sync, s, n) && (sync in boxes && boxes[sync] ==> Apart(boxes, sync))
    ensures Walk(boxes, buf, sync, s, fuel) == Unfinished
    decreases n
  {
    if n == 0 {
      TrapNeverEnds(boxes, buf, sync, s, fuel);
    } else if fuel > 0 {
      TrappedNeverEnds(boxes, buf, sync, DecodeTurn(boxes, buf, sync, s).s, n - 1, fuel - 1);
    }
  }

  /** The loop stands on a box that resynchronisation found. */
  predicate OnSync(buf: Bytes, sync: Name, cu: int) {
    0 <= cu && cu + 8 <= |buf| && buf[cu + 4..cu + 8] == sync
  }

  /** Resynchronisation leads to a place with the name, or before the buffer. */
  lemma SyncFound(boxes: Boxes, buf: Bytes, sync: Name, s: State)
    requires 0 <= s.cu < |buf| - 3 && SearchBox(boxes, buf, s.cu).Unknown? && DecodeTurn(boxes, buf, sync, s).Again?
    ensures var c := DecodeTurn(boxes, buf, sync, s).s.cu; c + 4 >= s.cu && c + 8 <= |buf| && (c < 0 || OnSync(buf, sync, c))
  {
    var k := Index(buf[s.cu..], sync, 0).value;
    assert buf[s.cu..][k..k + 4] == buf[s.cu + k..s.cu + k + 4];
  }

  /** Right behind a box found by resynchronisation, less than five bytes on: a known name is out of its reach. */
  lemma BehindSync(boxes: Boxes, buf: Bytes, sync: Name, p: nat, q: nat)
    requires Apart(boxes, sync) && OnSync(buf, sync, p) && p < q < p + 5 && SearchBox(boxes, buf, q).Known?
    ensures q == p + 4
  {
    if q < p + 4 { StandingApart(buf, p + 4, sync, buf[q + 4..q + 8], q - p); }
  }

  /** Past a box found by resynchronisation that is no trap: in one turn, or two, at least five bytes on, or in a trap. */
  lemma PastSync(boxes: Boxes, buf: Bytes, sync: Name, s: State) returns (n: nat, t: State)
    requires sync in boxes && (boxes[sync] ==> Apart(boxes, sync)) && OnSync(buf, sync, s.cu)
    requires !Trap(boxes, buf, sync, s.cu) && Walk(boxes, buf, sync, s, 2) == Unfinished
    ensures 1 <= n <= 2 && Turns(boxes, buf, sync, s, n) == Some(t)
    ensures t.cu >= s.cu + 5 || Trap(boxes, buf, sync, t.cu)
  {
    assert Walk(boxes, buf, sync, s, 0 + 2) == Unfinished;
    var s1 := DecodeTurn(boxes, buf, sync, s).s;
    assert Walk(boxes, buf, sync, s1, 0 + 1) == Unfinished;
    n, t := 1, s1;
    assert Turns(boxes, buf, sync, s, 0 + 1) == Some(s1);
    if s1.cu < s.cu + 5 {
      BehindSync(boxes, buf, sync, s.cu, s1.cu);
      if !Trap(boxes, buf, sync, s1.cu) {
        n, t := 2, DecodeTurn(boxes, buf, sync, s1).s;
        assert Turns(boxes, buf, sync, s1, 0 + 1) == Some(t);
      }
    }
  }

  lemma {:induction false} TurnsJoin(boxes: Boxes, buf: Bytes, sync: Name, s: State, n: nat, t: State, m: nat, k: nat)
    requires Turns(boxes, buf, sync, s, n) == Some(t) && k == n + m
    ensures Turns(boxes, buf, sync, s, k) == Turns(boxes, buf, sync, t, m)
    decreases n
  {
    if n > 0 { TurnsJoin(boxes, buf, sync, DecodeTurn(boxes, buf, sync, s).s, n - 1, t, m, k - 1); }
  }

  lemma {:induction false} WalkAfter(boxes: Boxes, buf: Bytes, sync: Name, s: State, n: nat, t: State, fuel: nat)
    requires Turns(boxes, buf, sync, s, n) == Some(t)
    ensures Walk(boxes, buf, sync, s, n + fuel) == Walk(boxes, buf, sync, t, fuel)
    decreases n
  {
    if n > 0 { WalkAfter(boxes, buf, sync, DecodeTurn(boxes, buf, sync, s).s, n - 1, t, fuel); }
  }

  /** With a bigger number of turns unfinished, unfinished with a smaller one. */
  lemma {:induction false} WalkLess(boxes: Boxes, buf: Bytes, sync: Name, s: State, fuel: nat, less: nat)
    requires less <= fuel && Walk(boxes, buf, sync, s, fuel) == Unfinished
    ensures Walk(boxes, buf, sync, s, less) == Unfinished
    decreases less
  {
    if less > 0 { WalkLess(boxes, buf, sync, DecodeTurn(boxes, buf, sync, s).s, fuel - 1, less - 1); }
  }

  /** From a box found by resynchronisation: a trap, or at least five bytes on. */
  lemma SyncAdvances(boxes: Boxes, buf: Bytes, sync: Name, s: State, fuel: nat) returns (n: nat, t: State)
    requires sync in boxes && (boxes[sync] ==> Apart(boxes, sync)) && (s.cu < 0 || OnSync(buf, sync, s.cu))
    requires s.cu < |buf| - 3 && fuel >= 2 && Walk(boxes, buf, sync, s, fuel) == Unfinished
    ensures n <= 2 && Turns(boxes, buf, sync, s, n) == Some(t)
    ensures t.cu >= s.cu + 5 || Trap(boxes, buf, sync, t.cu)
  {
    n, t := 0, s;
    assert s.cu >= 0;
    if !Trap(boxes, buf, sync, s.cu) {
      WalkLess(boxes, buf, sync, s, fuel, 2);
      n, t := PastSync(boxes, buf, sync, s);
    }
  }

  /** One step of the walk that is no trap: at least a byte on, in at most three turns. */
  lemma Advances(boxes: Boxes, buf: Bytes, sync: Name, s: State, fuel: nat) returns (n: nat, t: State)
    requires sync in boxes && (boxes[sync] ==> Apart(boxes, sync)) && 0 <= s.cu < |buf| - 3
    requires fuel >= 3 && Walk(boxes, buf, sync, s, fuel) == Unfinished
    ensures n <= 3 && Turns(boxes, buf, sync, s, n) == Some(t)
    ensures t.cu > s.cu || Trap(boxes, buf, sync, t.cu)
  {
    n, t := 0, s;
    if !Trap(boxes, buf, sync, s.cu) {
      var s1 := DecodeTurn(boxes, buf, sync, s).s;
      n, t := 1, s1;
      if SearchBox(boxes, buf, s.cu).Unknown? {
        SyncFound(boxes, buf, sync, s);
        n, t := SyncAdvances(boxes, buf, sync, s1, fuel - 1);
        n := n + 1;
      }
    }
  }

  lemma TrappedLater(boxes: Boxes, buf: Bytes, sync: Name, s: State, n: nat, t: State, m: nat) returns (k: nat)
    requires Turns(boxes, buf, sync, s, n) == Some(t) && TrappedAfter(boxes, buf, sync, t, m)
    ensures TrappedAfter(boxes, buf, sync, s, k)
  {
    k := n + m;
    TurnsJoin(boxes, buf, sync, s, n, t, m, k);
  }

  /** A walk that has not ended after three turns for every byte ahead comes to a trap. */
  lemma {:induction false} UnfinishedIsTrapped(boxes: Boxes, buf: Bytes, sync: Name, s: State, fuel: nat) returns (n: nat)
    requires sync in boxes && (boxes[sync] ==> Apart(boxes, sync)) && s.cu >= 0
    requires fuel >= 3 * (|buf| - s.cu) && Walk(boxes, buf, sync, s, fuel) == Unfinished
    ensures TrappedAfter(boxes, buf, sync, s, n)
    decreases |buf| - s.cu
  {
    var t;
    n, t := Advances(boxes, buf, sync, s, fuel);
    if !Trap(boxes, buf, sync, t.cu) {
      var left := fuel - n;
      WalkAfter(boxes, buf, sync, s, n, t, left);
      assert left >= 3 * (|buf| - t.cu);
      var m := UnfinishedIsTrapped(boxes, buf, sync, t, left);
      n := TrappedLater(boxes, buf, sync, s, n, t, m);
    }
  }

  ghost predicate NeverEnds(boxes: Boxes, buf: Bytes, sync: Name) {
    forall fuel: nat :: Walk(boxes, buf, sync, START, fuel) == Unfinished
  }

  /**
   * decode never ends exactly when its walk comes to a trap, and that shows within three turns a byte: for any known name
   * to resynchronise on that is descended into, and for one that is skipped when known names stand apart from it.
   */
  lemma NeverEndsExactly(boxes: Boxes, buf: Bytes, sync: Name)
    requires sync in boxes && (boxes[sync] ==> Apart(boxes, sync))
    ensures NeverEnds(boxes, buf, sync) <==> exists n: nat :: TrappedAfter(boxes, buf, sync, START, n)
    ensures NeverEnds(boxes, buf, sync) <==> Walk(boxes, buf, sync, START, 3 * |buf|) == Unfinished
  {
    if n: nat :| TrappedAfter(boxes, buf, sync, START, n) {
      forall fuel: nat
        ensures Walk(boxes, buf, sync, START, fuel) == Unfinished
      {
        TrappedNeverEnds(boxes, buf, sync, START, n, fuel);
      }
    }
    if Walk(boxes, buf, sync, START, 3 * |buf|) == Unfinished {
      var n := UnfinishedIsTrapped(boxes, buf, sync, START, 3 * |buf|);
    }
  }

  /** For a name that is descended into only a skipped box of size zero is a trap. */
  lemma ContainerTrap(boxes: Boxes, buf: Bytes, sync: Name, p: int)
    requires sync in boxes && !boxes[sync]
    ensures Trap(boxes, buf, sync, p) <==> 0 <= p && p + 8 <= |buf| && SkippedAt(boxes, buf, p) && Size(buf, p) == 0
  {
  }
}
