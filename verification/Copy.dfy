/** io.Copy: turning a configuration into chunks, and the copy loop. */
module Copy {
  import opened Util

  const WORD: nat := 0x1_0000_0000_0000_0000
  const CHUNK: nat := 0x2_0000

  /** All fields are 64-bit; nothing is skipped. */
  datatype Config = Config(bytePerLoop: nat, maxLoop: nat, maxByte: nat, bytePerSec: nat)

  predicate Word(c: Config) {
    c.bytePerLoop < WORD && c.maxLoop < WORD && c.maxByte < WORD && c.bytePerSec < WORD
  }

  function Min(a: nat, b: nat): nat { if a <= b then a else b }

  /** The bytes per loop asked for, no more than the bytes per second; zero when neither is given. */
  function Asked(c: Config): nat {
    if c.bytePerSec > 0 && (c.bytePerLoop == 0 || c.bytePerLoop > c.bytePerSec) then c.bytePerSec else c.bytePerLoop
  }

  /** What one loop counts for: the bytes asked for, or the default chunk. */
  function PerLoop(c: Config): (b: nat)
    ensures b > 0
  {
    if Asked(c) == 0 then CHUNK else Asked(c)
  }

  /** The buffer: never more than the default chunk. */
  function Buffer(c: Config): (b: nat)
    ensures 0 < b <= CHUNK
  {
    Min(PerLoop(c), CHUNK)
  }

  /** The limit as configured: loops, bytes, or the lower of the two; None without a limit. */
  function Limit(c: Config): Option<nat> {
    if c.maxLoop == 0 && c.maxByte == 0 then None
    else if c.maxLoop == 0 then Some(c.maxByte)
    else if c.maxByte == 0 then Some(c.maxLoop * PerLoop(c))
    else Some(Min(c.maxByte, c.maxLoop * PerLoop(c)))
  }

  /** How a copy is cut: full chunks of `per`, the last of `left` bytes when that is not zero; no loops means no end. */
  datatype Plan = Plan(per: nat, loops: nat, left: nat)

  function Chunks(per: nat, n: nat): Plan
    requires per > 0
  {
    Plan(per, n / per + (if n % per > 0 then 1 else 0), n % per)
  }

  /** The size of the last chunk. */
  function Last(p: Plan): nat { if p.left != 0 then p.left else p.per }

  function Total(p: Plan): nat
    requires p.loops > 0
  {
    (p.loops - 1) * p.per + Last(p)
  }

  /** A product in 64 bits. */
  function Product(a: nat, b: nat): (p: nat)
    ensures p < WORD && (a * b < WORD ==> p == a * b)
  {
    a * b % WORD
  }

  /** The limit in 64-bit arithmetic, zero for none; the default chunk is never multiplied out. */
  function WordLimit(c: Config): nat {
    if c.maxLoop == 0 then c.maxByte
    else if c.maxByte == 0 then if Asked(c) == 0 then c.maxLoop * CHUNK else Product(c.maxLoop, PerLoop(c))
    else Min(c.maxByte, Product(c.maxLoop, PerLoop(c)))
  }

  function PlanOf(c: Config): Plan { Chunks(Buffer(c), WordLimit(c)) }

  /** The source's nine ways, three for each kind of bytes per loop: none given, more than the default, at most that. */
  method Normalise(config: Config) returns (p: Plan)
    requires Word(config)
    ensures p == PlanOf(config)
  {
    var c := config;
    if c.bytePerSec > 0 {
      if c.bytePerLoop == 0 || c.bytePerLoop > c.bytePerSec {
        c := c.(bytePerLoop := c.bytePerSec);
      }
    }
    assert Asked(c) == Asked(config) == c.bytePerLoop;
    if c.bytePerLoop == 0 {
      p := NormaliseDefault(c);
    } else if c.bytePerLoop > CHUNK {
      p := NormaliseLarge(c);
    } else {
      p := NormaliseSmall(c);
    }
  }

  /** The lines every way but three ends with. */
  method Cut(maxByte: nat, bytePerLoop: nat) returns (maxLoop: nat, leftN: nat)
    requires bytePerLoop > 0
    ensures Plan(bytePerLoop, maxLoop, leftN) == Chunks(bytePerLoop, maxByte)
  {
    leftN := maxByte % bytePerLoop;
    maxLoop := maxByte / bytePerLoop;
    if leftN > 0 { maxLoop := maxLoop + 1; }
  }

  method NormaliseDefault(c: Config) returns (p: Plan)
    requires Asked(c) == c.bytePerLoop == 0
    ensures p == PlanOf(c)
  {
    var bytePerLoop: nat, maxLoop: nat, maxByte: nat, leftN: nat := CHUNK, c.maxLoop, c.maxByte, 0;
    if maxLoop == 0 {
      if maxByte != 0 {
        maxLoop, leftN := Cut(maxByte, bytePerLoop);
      }
    } else {
      if maxByte != 0 {
        maxByte := Min(maxByte, Product(maxLoop, bytePerLoop));
        maxLoop, leftN := Cut(maxByte, bytePerLoop);
      } else {
        Exact(maxLoop, bytePerLoop);
      }
    }
    p := Plan(bytePerLoop, maxLoop, leftN);
  }

  method NormaliseLarge(c: Config) returns (p: Plan)
    requires Asked(c) == c.bytePerLoop > CHUNK
    ensures p == PlanOf(c)
  {
    var bytePerLoop: nat, maxLoop: nat, maxByte: nat, leftN: nat := c.bytePerLoop, c.maxLoop, c.maxByte, 0;
    if maxLoop == 0 {
      if maxByte != 0 {
        bytePerLoop := CHUNK;
        maxLoop, leftN := Cut(maxByte, bytePerLoop);
      } else {
        bytePerLoop := CHUNK;
      }
    } else {
      if maxByte != 0 {
        maxByte := Min(maxByte, Product(maxLoop, bytePerLoop));
        bytePerLoop := CHUNK;
        maxLoop, leftN := Cut(maxByte, bytePerLoop);
      } else {
        maxByte := Product(maxLoop, bytePerLoop);
        bytePerLoop := CHUNK;
        maxLoop, leftN := Cut(maxByte, bytePerLoop);
      }
    }
    p := Plan(bytePerLoop, maxLoop, leftN);
  }

  method NormaliseSmall(c: Config) returns (p: Plan)
    requires 0 < Asked(c) == c.bytePerLoop <= CHUNK
    ensures p == PlanOf(c)
  {
    var bytePerLoop: nat, maxLoop: nat, maxByte: nat, leftN: nat := c.bytePerLoop, c.maxLoop, c.maxByte, 0;
    if maxLoop == 0 {
      if maxByte != 0 {
        maxLoop, leftN := Cut(maxByte, bytePerLoop);
      }
    } else {
      if maxByte != 0 {
        maxByte := Min(maxByte, Product(maxLoop, bytePerLoop));
        maxLoop, leftN := Cut(maxByte, bytePerLoop);
      } else {
        maxByte := Product(maxLoop, bytePerLoop);
        maxLoop, leftN := Cut(maxByte, bytePerLoop);
      }
    }
    p := Plan(bytePerLoop, maxLoop, leftN);
  }

  lemma Exact(n: nat, per: nat)
    requires per > 0
    ensures n * per / per == n && n * per % per == 0
  {
    Divides(n * per, per, n, 0);
  }

  lemma Times(d: nat, per: nat)
    ensures d > 0 ==> d * per >= per
  {
    if d > 0 { assert d * per == (d - 1) * per + per; }
  }

  lemma Divides(n: nat, per: nat, q: nat, r: nat)
    requires per > 0 && n == q * per + r && r < per
    ensures n / per == q && n % per == r
  {
    var q', r' := n / per, n % per;
    assert n == q' * per + r';
    if q' > q {
      assert (q' - q) * per == q' * per - q * per;
      Times(q' - q, per);
    } else if q > q' {
      assert (q - q') * per == q * per - q' * per;
      Times(q - q', per);
    }
  }

  lemma ChunksAddUp(n: nat, per: nat)
    requires n > 0 && per > 0
    ensures var p := Chunks(per, n); p.loops > 0 && Total(p) == n && p.left < p.per
  {
    var q, r := n / per, n % per;
    assert n == q * per + r;
    assert q > 0 ==> (q - 1) * per + per == q * per;
  }

  /** Nothing is lost to 64 bits: no product is taken, or it fits, or the byte limit is below what is left of it. */
  predicate NoLoss(c: Config) {
    || c.maxLoop == 0
    || (c.maxByte == 0 && Asked(c) == 0)
    || c.maxLoop * PerLoop(c) < WORD
    || (c.maxByte != 0 && c.maxByte <= Product(c.maxLoop, PerLoop(c)))
  }

  /** The chunks of p add up to the configured limit. */
  predicate Keeps(c: Config, p: Plan) {
    match Limit(c)
    case None => p.loops == 0
    case Some(n) => p.loops > 0 && Total(p) == n
  }

  /** Every way of normalising keeps the byte budget, exactly when no product loses bits that matter. */
  lemma BudgetExactly(c: Config)
    requires Word(c)
    ensures Keeps(c, PlanOf(c)) <==> NoLoss(c)
  {
    Times(c.maxLoop, PerLoop(c));
    if WordLimit(c) > 0 {
      ChunksAddUp(WordLimit(c), Buffer(c));
    }
  }

  lemma PlanKeeps(c: Config)
    requires Word(c) && NoLoss(c) && Limit(c).Some?
    ensures var p := PlanOf(c); p == Chunks(Buffer(c), Limit(c).value) && p.loops > 0 && Total(p) == Limit(c).value
  {
    BudgetExactly(c);
    if WordLimit(c) > 0 { ChunksAddUp(WordLimit(c), Buffer(c)); }
  }

  /** A product that wraps around to zero leaves no limit at all. */
  lemma OverflowUnlimits()
    ensures var c := Config(0x1_0000_0000, 0x1_0000_0000, 0, 0);
      Word(c) && Limit(c) == Some(WORD) && PlanOf(c) == Plan(CHUNK, 0, 0)
  {
    var c := Config(0x1_0000_0000, 0x1_0000_0000, 0, 0);
    assert Product(c.maxLoop, PerLoop(c)) == 0;
  }

  // ----- Readers and writers -----

  /** What one read does: gives up to k bytes, or nothing, or fails. After the script reads fill the buffer. */
  datatype ReadEvent = Data(k: nat) | Nothing | Broken

  datatype ReadErr = NoErr | AtEof | Failure

  datatype ReadResult = ReadResult(data: Bytes, err: ReadErr, inp: Bytes, script: seq<ReadEvent>)

  function ReadOf(inp: Bytes, script: seq<ReadEvent>, cap: nat): (r: ReadResult)
    ensures |r.data| <= cap && r.data + r.inp == inp
    ensures r.data != [] ==> r.err.NoErr?
  {
    var rest := if script == [] then [] else script[1..];
    var give := if script == [] then cap else if script[0].Data? then Min(script[0].k, cap) else 0;
    if script != [] && script[0].Broken? then ReadResult([], Failure, inp, rest)
    else if script != [] && script[0].Nothing? then ReadResult([], NoErr, inp, rest)
    else if inp == [] then ReadResult([], AtEof, inp, rest)
    else
      var n := Min(give, |inp|);
      ReadResult(inp[..n], NoErr, inp[n..], rest)
  }

  class Reader {
    var inp: Bytes
    var script: seq<ReadEvent>

    method Read(cap: nat) returns (data: Bytes, err: ReadErr)
      modifies this
      ensures ReadResult(data, err, inp, script) == ReadOf(old(inp), old(script), cap)
    {
      var r := ReadOf(inp, script, cap);
      data, err, inp, script := r.data, r.err, r.inp, r.script;
    }
  }

  /** What one write does: takes everything, or k bytes and fails. After the script writes take everything. */
  datatype WriteEvent = Whole | Short(k: nat)

  datatype WriteResult = WriteResult(failed: bool, out: Bytes, script: seq<WriteEvent>)

  function WriteOf(out: Bytes, script: seq<WriteEvent>, b: Bytes): WriteResult {
    if script == [] then WriteResult(false, out + b, [])
    else if script[0].Whole? then WriteResult(false, out + b, script[1..])
    else WriteResult(true, out + b[..Min(script[0].k, |b|)], script[1..])
  }

  class Writer {
    var out: Bytes
    var script: seq<WriteEvent>

    method Write(b: Bytes) returns (failed: bool)
      modifies this
      ensures WriteResult(failed, out, script) == WriteOf(old(out), old(script), b)
    {
      var r := WriteOf(out, script, b);
      failed, out, script := r.failed, r.out, r.script;
    }
  }

  // ----- The loop -----

  datatype End = Nil | LoopMax | ReadFailed | WriteFailed

  datatype State = State(inp: Bytes, rs: seq<ReadEvent>, out: Bytes, ws: seq<WriteEvent>, len: nat, loops: nat)

  datatype Final = Final(s: State, end: End)

  /** The end of a turn: the loops left, and the buffer for the next one. */
  function Counted(s: State, left: nat): (r: (State, bool))
    ensures r.0.inp == s.inp && r.0.out == s.out && r.0.rs == s.rs && (s.len > 0 ==> r.0.len > 0)
  {
    if s.loops == 0 then (s, false)
    else if s.loops == 2 && left != 0 then (s.(loops := 1, len := left), false)
    else (s.(loops := s.loops - 1), s.loops == 1)
  }

  /** One turn: the state after it, and the end when it is the last. */
  function Turn(s: State, left: nat): (t: (State, Option<End>))
    requires s.len > 0
    ensures t.0.len > 0 && (t.1.None? ==> |t.0.inp| + |t.0.rs| < |s.inp| + |s.rs|)
  {
    var r := ReadOf(s.inp, s.rs, s.len);
    var s1 := s.(inp := r.inp, rs := r.script);
    if r.data == [] && r.err.AtEof? then (s1, Some(Nil))
    else if r.data == [] && r.err.Failure? then (s1, Some(ReadFailed))
    else
      var w := if r.data == [] then WriteResult(false, s.out, s.ws) else WriteOf(s.out, s.ws, r.data);
      var s2 := s1.(out := w.out, ws := w.script);
      if w.failed then (s2, Some(WriteFailed))
      else
        var c := Counted(s2, left);
        (c.0, if c.1 then Some(LoopMax) else None)
  }

  function Run(s: State, left: nat): Final
    requires s.len > 0
    decreases |s.inp| + |s.rs|
  {
    var t := Turn(s, left);
    if t.1.Some? then Final(t.0, t.1.value) else Run(t.0, left)
  }

  function Begin(inp: Bytes, rs: seq<ReadEvent>, out: Bytes, ws: seq<WriteEvent>, p: Plan): State {
    State(inp, rs, out, ws, p.per, p.loops)
  }

  /** Pauses for the rate are left to the ticker: they move no bytes. */
  method CopyAll(r: Reader, w: Writer, config: Config) returns (e: End, ghost p: Plan)
    requires Word(config)
    modifies r, w
    ensures p == PlanOf(config)
    ensures var f := Run(Begin(old(r.inp), old(r.script), old(w.out), old(w.script), p), p.left);
      e == f.end && r.inp == f.s.inp && w.out == f.s.out
  {
    var plan := Normalise(config);
    p := plan;
    var maxLoop, leftN, len := plan.loops, plan.left, plan.per;
    ghost var all := Run(Begin(r.inp, r.script, w.out, w.script, p), p.left);
    while true
      invariant len > 0 && Run(State(r.inp, r.script, w.out, w.script, len, maxLoop), leftN) == all
      decreases |r.inp| + |r.script|
    {
      ghost var t := Turn(State(r.inp, r.script, w.out, w.script, len, maxLoop), leftN);
      var data, err := r.Read(len);
      if |data| != 0 {
        var failed := w.Write(data);
        if failed {
          assert t.1 == Some(WriteFailed);
          return WriteFailed, p;
        }
      } else if err != NoErr {
        assert t.1 == if err == Failure then Some(ReadFailed) else Some(Nil);
        if err == Failure { return ReadFailed, p; } else { return Nil, p; }
      }
      if maxLoop > 0 {
        maxLoop := maxLoop - 1;
        if maxLoop == 1 && leftN != 0 {
          len := leftN;
        } else if maxLoop == 0 {
          assert t.1 == Some(LoopMax);
          return LoopMax, p;
        }
      }
      assert t == (State(r.inp, r.script, w.out, w.script, len, maxLoop), None);
    }
  }

  // ----- What is copied -----

  /** A turn writes the next bytes of the input, all that it reads unless the write fails. */
  lemma TurnCopies(s: State, left: nat) returns (data: Bytes)
    requires s.len > 0
    ensures var t := Turn(s, left);
      && t.0.out == s.out + data && |data| <= s.len && data <= s.inp
      && (t.1 != Some(WriteFailed) ==> data + t.0.inp == s.inp)
  {
    var r := ReadOf(s.inp, s.rs, s.len);
    assert r.data <= s.inp by { assert r.data + r.inp == s.inp; }
    if r.data == [] {
      data := [];
      assert s.out + data == s.out;
    } else {
      var w := WriteOf(s.out, s.ws, r.data);
      data := if w.failed then r.data[..Min(s.ws[0].k, |r.data|)] else r.data;
    }
  }

  /** Only bytes of the input are written, in order, none twice. */
  lemma {:induction false} CopiesPrefix(s: State, left: nat)
    requires s.len > 0
    ensures var f := Run(s, left); s.out <= f.s.out <= s.out + s.inp
    ensures var f := Run(s, left); !f.end.WriteFailed? ==> f.s.out + f.s.inp == s.out + s.inp
    decreases |s.inp| + |s.rs|
  {
    var data := TurnCopies(s, left);
    var t := Turn(s, left);
    if t.1 != Some(WriteFailed) { assert s.out + data + t.0.inp == s.out + s.inp; }
    if t.1.None? { CopiesPrefix(t.0, left); }
  }

  // ----- How a copy ends -----

  /** A run has used n events of a script, of which the last is a failure if the run ended with one, and no other is. */
  predicate Tells<T(==)>(script: seq<T>, n: nat, later: seq<T>, bad: T -> bool, ended: bool) {
    && n <= |script| && later == script[n..]
    && (ended ==> n > 0 && bad(script[n - 1]))
    && forall k :: 0 <= k < (if ended then n - 1 else n) ==> !bad(script[k])
  }

  lemma TellsMore<T>(script: seq<T>, r: nat, mid: seq<T>, n: nat, later: seq<T>, bad: T -> bool, ended: bool)
    requires Tells(script, r, mid, bad, false) && Tells(mid, n, later, bad, ended)
    ensures Tells(script, r + n, later, bad, ended)
  {
    assert script[r..][n..] == script[r + n..];
    forall k | r <= k < r + n
      ensures script[k] == mid[k - r]
    {
    }
  }

  const IsBroken: ReadEvent -> bool := (e: ReadEvent) => e.Broken?
  const IsShort: WriteEvent -> bool := (e: WriteEvent) => e.Short?

  /** A turn uses at most the next event of either script, and a failure is that event's. */
  lemma TurnUses(s: State, left: nat) returns (r: nat, w: nat)
    requires s.len > 0
    ensures r == Min(1, |s.rs|) && w <= 1
    ensures var t := Turn(s, left);
      && Tells(s.rs, r, t.0.rs, IsBroken, t.1 == Some(ReadFailed)) && Tells(s.ws, w, t.0.ws, IsShort, t.1 == Some(WriteFailed))
  {
    var read := ReadOf(s.inp, s.rs, s.len);
    r := if s.rs == [] then 0 else 1;
    w := if read.data == [] || s.ws == [] then 0 else 1;
  }

  /** How many turns there are. */
  function Turns(s: State, left: nat): nat
    requires s.len > 0
    decreases |s.inp| + |s.rs|
  {
    var t := Turn(s, left);
    1 + if t.1.Some? then 0 else Turns(t.0, left)
  }

  lemma {:induction false} ReadsTell(s: State, left: nat, f: Final) returns (r: nat)
    requires s.len > 0 && f == Run(s, left)
    ensures Tells(s.rs, r, f.s.rs, IsBroken, f.end.ReadFailed?) && r == Min(Turns(s, left), |s.rs|)
    decreases |s.inp| + |s.rs|
  {
    var t := Turn(s, left);
    var w;
    r, w := TurnUses(s, left);
    if t.1.None? {
      var r' := ReadsTell(t.0, left, f);
      TellsMore(s.rs, r, t.0.rs, r', f.s.rs, IsBroken, f.end.ReadFailed?);
      r := r + r';
    }
  }

  lemma {:induction false} WritesTell(s: State, left: nat, f: Final) returns (w: nat)
    requires s.len > 0 && f == Run(s, left)
    ensures Tells(s.ws, w, f.s.ws, IsShort, f.end.WriteFailed?)
    decreases |s.inp| + |s.rs|
  {
    var t := Turn(s, left);
    var r;
    r, w := TurnUses(s, left);
    if t.1.None? {
      var w' := WritesTell(t.0, left, f);
      TellsMore(s.ws, w, t.0.ws, w', f.s.ws, IsShort, f.end.WriteFailed?);
      w := w + w';
    }
  }

  lemma {:induction false} LoopsTell(s: State, left: nat, f: Final)
    requires s.len > 0 && f == Run(s, left)
    ensures f.end.Nil? ==> f.s.inp == []
    ensures s.loops > 0 ==> Turns(s, left) <= s.loops
    ensures f.end.LoopMax? ==> s.loops > 0 && Turns(s, left) == s.loops
    decreases |s.inp| + |s.rs|
  {
    var t := Turn(s, left);
    if t.1.None? {
      TurnCounts(s, left);
      LoopsTell(t.0, left, f);
    } else {
      TurnEnds(s, left);
    }
  }

  /** How the last turn ends. */
  lemma TurnEnds(s: State, left: nat)
    requires s.len > 0
    ensures var t := Turn(s, left); (t.1 == Some(Nil) ==> t.0.inp == []) && (t.1 == Some(LoopMax) ==> s.loops == 1)
  {
  }

  /** A turn that is not the last uses up a loop where loops are counted. */
  lemma TurnCounts(s: State, left: nat)
    requires s.len > 0 && Turn(s, left).1.None?
    ensures s.loops == 0 ==> Turn(s, left).0.loops == 0
    ensures s.loops > 0 ==> Turn(s, left).0.loops == s.loops - 1 > 0
  {
  }

  /**
   * A copy ends with a read or write error exactly when one of the r reads or w writes of the scripts failed, and then at
   * once; with ErrLoopMax only when all loops have been used; and with nil only when all of the input has been written.
   */
  lemma EndsExactly(s: State, left: nat) returns (r: nat, w: nat)
    requires s.len > 0
    ensures var f := Run(s, left);
      && Tells(s.rs, r, f.s.rs, IsBroken, f.end.ReadFailed?) && r == Min(Turns(s, left), |s.rs|)
      && Tells(s.ws, w, f.s.ws, IsShort, f.end.WriteFailed?)
      && (f.end.Nil? ==> f.s.inp == [] && f.s.out == s.out + s.inp)
      && (s.loops > 0 ==> Turns(s, left) <= s.loops)
      && (f.end.LoopMax? ==> s.loops > 0 && Turns(s, left) == s.loops)
  {
    var f := Run(s, left);
    r := ReadsTell(s, left, f);
    w := WritesTell(s, left, f);
    LoopsTell(s, left, f);
    CopiesPrefix(s, left);
  }

  /** What the loops left can still write. */
  function Room(len: nat, loops: nat, left: nat): nat {
    if loops <= 1 then len else (loops - 1) * len + (if left != 0 then left else len)
  }

  /** With a number of loops given, no run writes more than the room there is for it. */
  lemma {:induction false} WithinRoom(s: State, left: nat)
    requires s.len > 0 && s.loops > 0
    ensures |Run(s, left).s.out| <= |s.out| + Room(s.len, s.loops, left)
    decreases |s.inp| + |s.rs|
  {
    var data := TurnCopies(s, left);
    var t := Turn(s, left);
    RoomStep(s.len, s.loops, left);
    if t.1.None? { WithinRoom(t.0, left); }
  }

  /** A turn takes a buffer's worth of the room. */
  lemma RoomStep(len: nat, loops: nat, left: nat)
    requires loops > 0
    ensures Room(len, loops, left) >= len
    ensures loops > 2 ==> Room(len, loops, left) == len + Room(len, loops - 1, left)
    ensures loops == 2 ==> Room(len, loops, left) == len + (if left != 0 then left else len)
  {
    if loops > 2 { assert (loops - 1) * len == (loops - 2) * len + len; }
  }

  /** No reader and writer get more than n bytes copied. */
  ghost predicate Obeys(p: Plan, n: nat)
    requires p.per > 0
  {
    forall inp: Bytes, rs: seq<ReadEvent>, ws: seq<WriteEvent> :: |Run(Begin(inp, rs, [], ws, p), p.left).s.out| <= n
  }

  /** A limit of at least one buffer is what the loops have room for. */
  lemma RoomIsLimit(n: nat, per: nat)
    requires n >= per > 0
    ensures var p := Chunks(per, n); p.loops > 0 && Room(per, p.loops, p.left) == n
  {
    ChunksAddUp(n, per);
    assert n == n / per * per + n % per;
  }

  /** The limit is obeyed exactly when it is at least one buffer: a smaller one does not shorten the first read. */
  lemma LimitObeyedExactly(c: Config)
    requires Word(c) && NoLoss(c) && Limit(c).Some?
    ensures Obeys(PlanOf(c), Limit(c).value) <==> Limit(c).value >= Buffer(c)
  {
    var n, per, p := Limit(c).value, Buffer(c), PlanOf(c);
    PlanKeeps(c);
    if n >= per {
      RoomIsLimit(n, per);
      forall inp: Bytes, rs: seq<ReadEvent>, ws: seq<WriteEvent>
        ensures |Run(Begin(inp, rs, [], ws, p), p.left).s.out| <= n
      {
        WithinRoom(Begin(inp, rs, [], ws, p), p.left);
      }
    } else {
      Divides(n, per, 0, n);
      assert p == Plan(per, 1, n);
      var inp: Bytes := seq(per, _ => 0);
      assert ReadOf(inp, [], per).data == inp;
      assert Turn(Begin(inp, [], [], [], p), n).0.out == [] + inp;
      assert !Obeys(p, n);
    }
  }

  /** What is written where every read fills the buffer. */
  function Filled(s: State, left: nat): Bytes {
    if s.loops == 0 then s.out + s.inp else s.out + s.inp[..Min(|s.inp|, Room(s.len, s.loops, left))]
  }

  /** The last loop is reached: more input than the loops before it take. */
  predicate ReachesLast(s: State) { s.loops > 0 && |s.inp| > (s.loops - 1) * s.len }

  /** Where every read fills the buffer, all the loops have room for is copied; without loops, everything. */
  lemma {:induction false} FillingCopies(s: State, left: nat)
    requires s.len > 0 && s.rs == [] && s.ws == []
    ensures var f := Run(s, left); f.s.out == Filled(s, left) && f.end == if ReachesLast(s) then LoopMax else Nil
    decreases |s.inp|
  {
    if s.inp != [] {
      var n := Min(s.len, |s.inp|);
      var s2 := State(s.inp[n..], [], s.out + s.inp[..n], [], s.len, s.loops);
      var c := Counted(s2, left);
      assert Turn(s, left) == (c.0, if c.1 then Some(LoopMax) else None);
      if !c.1 {
        FillingCopies(c.0, left);
        FillingTurn(s, left, n);
      }
    } else if s.loops > 0 {
      assert (s.loops - 1) * s.len >= 0;
    }
  }

  lemma FillingTurn(s: State, left: nat, n: nat)
    requires s.len > 0 && s.loops != 1 && s.inp != [] && n == Min(s.len, |s.inp|)
    ensures var t := Counted(State(s.inp[n..], [], s.out + s.inp[..n], [], s.len, s.loops), left).0;
      Filled(t, left) == Filled(s, left) && ReachesLast(t) == ReachesLast(s)
  {
    var t := Counted(State(s.inp[n..], [], s.out + s.inp[..n], [], s.len, s.loops), left).0;
    if s.loops == 0 {
      assert s.out + s.inp[..n] + s.inp[n..] == s.out + s.inp;
    } else {
      RoomStep(s.len, s.loops, left);
      TakeAgain(s.out, s.inp, n, Min(|t.inp|, Room(t.len, t.loops, left)));
      LoopStep(s.loops, s.len);
    }
  }

  lemma LoopStep(loops: nat, len: nat)
    requires loops > 1
    ensures (loops - 1) * len == (loops - 2) * len + len && (loops - 2) * len >= 0
  {
  }

  lemma TakeAgain<T>(out: seq<T>, a: seq<T>, n: nat, m: nat)
    requires n + m <= |a|
    ensures out + a[..n] + a[n..][..m] == out + a[..n + m]
  {
  }

  /** A copy where reads fill the buffer and writes succeed: the input up to the limit, or all of it without one. */
  lemma CopyFilling(c: Config, inp: Bytes)
    requires Word(c) && NoLoss(c)
    ensures Limit(c).None? ==> Run(Begin(inp, [], [], [], PlanOf(c)), PlanOf(c).left).s.out == inp
    ensures Limit(c).Some? && Limit(c).value >= Buffer(c) ==>
              Run(Begin(inp, [], [], [], PlanOf(c)), PlanOf(c).left).s.out == inp[..Min(|inp|, Limit(c).value)]
  {
    if Limit(c).Some? {
      PlanKeeps(c);
      if Limit(c).value >= Buffer(c) {
        RoomIsLimit(Limit(c).value, Buffer(c));
        FillingPlan(PlanOf(c), inp, Limit(c).value);
      }
    } else {
      assert PlanOf(c).loops == 0;
      FillingPlan(PlanOf(c), inp, 0);
    }
  }

  lemma FillingPlan(p: Plan, inp: Bytes, n: nat)
    requires p.per > 0 && (p.loops > 0 ==> Room(p.per, p.loops, p.left) == n)
    ensures Run(Begin(inp, [], [], [], p), p.left).s.out == if p.loops > 0 then inp[..Min(|inp|, n)] else inp
  {
    FillingCopies(Begin(inp, [], [], [], p), p.left);
  }
}
