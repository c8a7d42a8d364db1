/** decoder/mp4: cutting a stream of fragments into groups that begin with a key frame. */
module Fmp4 {
  import opened Util
  import opened Mp4Box
  import opened Mp4Match
  import opened Mp4Frag
  import S = SliceBuf

  /** Why a fragment ends the search. */
  datatype Stop = CheckFailed | OverMax | Panic

  /**
   * What the sample size and time stamp checks say about a fragment: it passes, it is refused (with or without the
   * pending fragments being thrown away), or a check reads outside the buffer.
   */
  datatype Check = Passed | Refused(reset: bool) | Broken

  /** The checks keep the largest times seen, so the answer may depend on the earlier fragments. */
  type Checks = seq<Call> -> Check

  /** The captured variables of the two fragment functions, and the two buffers. */
  datatype Seg = Seg(have: bool, cu: int, pend: S.Value<byte>, key: S.Value<byte>)

  /** Whether the fragment begins with a key frame; None when a flag byte is outside the buffer. */
  function KeyFlag(buf: Bytes, w: seq<Ie>): Option<bool>
    requires |w| == 7 || |w| == 11
  {
    if !(0 <= w[5].i + 20 < |buf|) then None
    else if buf[w[5].i + 20] == 2 then Some(true)
    else if |w| == 7 then Some(false)
    else if !(0 <= w[9].i + 20 < |buf|) then None
    else Some(buf[w[9].i + 20] == 2)
  }

  /** A key frame: the pending group, if there is one, is complete. */
  function Emit(s: Seg, mark: nat, start: int): (r: (Seg, Option<Stop>))
  {
    if s.pend.t != mark && s.pend.content != [] then
      match S.Appended(s.key, s.pend.content)
      case None => (s, Some(OverMax))
      case Some(key) => (s.(key := key, cu := start, pend := S.Emptied(s.pend), have := true), None)
    else (s.(have := true), None)
  }

  function Keep(buf: Bytes, s: Seg, start: int, end: int): (Seg, Option<Stop>) {
    if !s.have then (s, None)
    else if !(0 <= start <= end <= |buf|) then (s, Some(Panic))
    else match S.Appended(s.pend, buf[start..end])
      case None => (s, Some(OverMax))
      case Some(pend) => (s.(pend := pend), None)
  }

  /** One fragment; `mark` is the modification count the search began with. */
  function OnFragment(buf: Bytes, check: Check, mark: nat, s: Seg, w: seq<Ie>): (Seg, Option<Stop>)
    requires |w| == 7 || |w| == 11
  {
    var start, end := w[0].i, w[|w| - 1].e;
    var flag := KeyFlag(buf, w);
    if flag.None? || check.Broken? then (s, Some(Panic))
    else if check.Refused? then
      (if check.reset then s.(pend := S.Emptied(s.pend), have := false, cu := start) else s, Some(CheckFailed))
    else if flag.value then
      var r := Emit(s, mark, start);
      if r.1.Some? then r else Keep(buf, r.0, start, end)
    else Keep(buf, if s.have then s else s.(cu := end), start, end)
  }

  /** The fragments one after the other, up to the first that ends the search. */
  function Fold(buf: Bytes, checks: Checks, mark: nat, s: Seg, calls: seq<Call>): (Seg, Option<Stop>) {
    if calls == [] then (s, None)
    else
      var r := Fold(buf, checks, mark, s, calls[..|calls| - 1]);
      var w := calls[|calls| - 1].window;
      if r.1.Some? || !(|w| == 7 || |w| == 11) then r
      else OnFragment(buf, checks(calls), mark, r.0, w)
  }

  /** The fragment functions as matching sees them: they never ask for their pattern to be dropped. */
  function Answers(buf: Bytes, checks: Checks, mark: nat, s: Seg): Functions<Stop> {
    (calls: seq<Call>) => Reply(false, Fold(buf, checks, mark, s, calls).1)
  }

  datatype SearchErr = BufTooLarge | MisTraks | Listing(e: DecodeErr) | Fragment(s: Stop)

  datatype Result = Returned(cu: int, err: Option<SearchErr>) | Crashed | Unfinished

  /** A search: its result and what it leaves in the two buffers. */
  datatype Search = Search(result: Result, pend: S.Value<byte>, key: S.Value<byte>)

  const MAX: nat := 100 * 1000 * 1000

  function Start(pend: S.Value<byte>, key: S.Value<byte>): Seg { Seg(false, 0, S.Emptied(pend), S.Emptied(key)) }

  /** Any error leaves an empty key frame buffer and a cursor of zero. */
  function Fail(s: Seg, e: SearchErr): Search { Search(Returned(0, Some(e)), s.pend, S.Emptied(s.key)) }

  function SearchOf(buf: Bytes, traks: set<int>, pend: S.Value<byte>, key: S.Value<byte>, checks: Checks, fuel: nat): Search {
    if |buf| > MAX then Search(Returned(0, Some(BufTooLarge)), pend, key)
    else if traks == {} then Search(Returned(0, Some(MisTraks)), pend, key)
    else
      var s := Start(pend, key);
      match Walk(BOXES, buf, MOOF, START, fuel)
      case Crashed => Search(Result.Crashed, s.pend, s.key)
      case Unfinished => Search(Result.Unfinished, s.pend, s.key)
      case Done(m, Some(e)) => Fail(s, Listing(e))
      case Done(m, None) =>
        var calls := Rows(PATTERNS, m, Answers(buf, checks, s.pend.t, s), 0, Ids(2), []).calls;
        Closed(Fold(buf, checks, s.pend.t, s, calls))
  }

  function Closed(r: (Seg, Option<Stop>)): Search {
    match r.1
    case Some(Panic) => Search(Result.Crashed, r.0.pend, r.0.key)
    case Some(e) => Fail(r.0, Fragment(e))
    case None => Search(Returned(r.0.cu, None), r.0.pend, r.0.key)
  }

  class Fmp4Decoder {
    var traks: set<int>
    const buf: S.Buf<byte>

    constructor ()
      ensures traks == {} && fresh(buf) && buf.Valid() && buf.View() == S.Value(0, true, [], 0)
    {
      traks := {};
      buf := new S.Buf(0);
    }

    ghost predicate Holds(s: Seg, keyframe: S.Buf<byte>, have: bool, cu: int)
      reads buf, keyframe
    {
      buf.Valid() && keyframe.Valid() && s == Seg(have, cu, buf.View(), keyframe.View())
    }

    /** A key frame: the pending fragments, if there are any, are complete. */
    method Complete(start: int, bufModified: S.Modified<byte>, keyframe: S.Buf<byte>, ghost have: bool, cu0: int, ghost s: Seg)
      returns (cu: int, ok: bool)
      requires keyframe != buf && Holds(s, keyframe, have, cu0) && bufModified.p == buf
      modifies buf, keyframe
      ensures var r := Emit(s, bufModified.t, start);
        Holds(r.0, keyframe, have || ok, cu) && r.1 == if ok then None else Some(OverMax)
    {
      cu, ok := cu0, true;
      var v, same := buf.HadModified(bufModified);
      var empty := buf.IsEmpty();
      if same && v && !empty {
        ok := buf.AppendTo(keyframe);
        if ok {
          cu := start;
          buf.Reset();
        }
      }
    }

    /** What both fragment functions do: they differ in the entries whose flag byte they read. */
    method OnFragmentOf(data: Bytes, w: seq<Ie>, check: Check, bufModified: S.Modified<byte>, keyframe: S.Buf<byte>,
                        have0: bool, cu0: int, ghost s: Seg)
      returns (have: bool, cu: int, err: Option<Stop>)
      requires (|w| == 7 || |w| == 11) && keyframe != buf && Holds(s, keyframe, have0, cu0) && bufModified.p == buf
      modifies buf, keyframe
      ensures var r := OnFragment(data, check, bufModified.t, s, w);
        Holds(r.0, keyframe, have, cu) && err == r.1
    {
      have, cu, err := have0, cu0, None;
      if !(0 <= w[5].i + 20 < |data|) { return have, cu, Some(Panic); }
      var keyframeMoof := data[w[5].i + 20] == 2;
      if !keyframeMoof && |w| == 11 {
        if !(0 <= w[9].i + 20 < |data|) { return have, cu, Some(Panic); }
        keyframeMoof := data[w[9].i + 20] == 2;
      }
      match check {
        case Broken => return have, cu, Some(Panic);
        case Refused(reset) =>
          if reset {
            buf.Reset();
            have := false;
            cu := w[0].i;
          }
          return have, cu, Some(CheckFailed);
        case Passed =>
      }
      if keyframeMoof {
        var ok;
        cu, ok := Complete(w[0].i, bufModified, keyframe, have, cu, s);
        if !ok { return have, cu, Some(OverMax); }
        have := true;
      } else if !have {
        cu := w[|w| - 1].e;
      }
      if have {
        if !(0 <= w[0].i <= w[|w| - 1].e <= |data|) { return have, cu, Some(Panic); }
        var ok := buf.Append(data[w[0].i..w[|w| - 1].e]);
        if !ok { return have, cu, Some(OverMax); }
      }
    }

    /** Searches a chunk of the stream; matching is done first, as the fragment functions only add to the two buffers. */
    method SearchStreamFmp4(data: Bytes, keyframe: S.Buf<byte>, checks: Checks, fuel: nat) returns (r: Result)
      requires buf.Valid() && keyframe.Valid() && keyframe != buf
      modifies buf, keyframe
      ensures buf.Valid() && keyframe.Valid()
      ensures Search(r, buf.View(), keyframe.View())
              == SearchOf(data, traks, old(buf.View()), old(keyframe.View()), checks, fuel)
    {
      if |data| > MAX { return Returned(0, Some(BufTooLarge)); }
      if traks == {} { return Returned(0, Some(MisTraks)); }
      buf.Reset();
      keyframe.Reset();
      var s0 := Seg(false, 0, buf.View(), keyframe.View());
      var bufModified := buf.GetModified();
      var listing := Decode(BOXES, data, MOOF, fuel);
      match listing {
        case Crashed => return Result.Crashed;
        case Unfinished => return Result.Unfinished;
        case Done(m, e) =>
          if e.Some? {
            keyframe.Reset();
            return Returned(0, Some(Listing(e.value)));
          }
          var answers := Answers(data, checks, bufModified.t, s0);
          var calls, _ := Deals(m, PATTERNS, answers);
          r := Fragments(data, calls, checks, bufModified, keyframe, s0);
      }
    }

    /** The calls matching makes, and what is done on return. */
    method Fragments(data: Bytes, calls: seq<Call>, checks: Checks, bufModified: S.Modified<byte>, keyframe: S.Buf<byte>,
                     ghost s0: Seg)
      returns (r: Result)
      requires keyframe != buf && Holds(s0, keyframe, false, 0) && bufModified.p == buf
      modifies buf, keyframe
      ensures buf.Valid() && keyframe.Valid()
      ensures Search(r, buf.View(), keyframe.View()) == Closed(Fold(data, checks, bufModified.t, s0, calls))
    {
      var have, cu, err := false, 0, None;
      ghost var s := s0;
      var i := 0;
      while i < |calls| && err.None?
        invariant i <= |calls| && Holds(s, keyframe, have, cu)
        invariant (s, err) == Fold(data, checks, bufModified.t, s0, calls[..i])
        invariant err.Some? ==> Fold(data, checks, bufModified.t, s0, calls) == (s, err)
      {
        var w := calls[i].window;
        FoldStep(data, checks, bufModified.t, s0, calls, i);
        if |w| == 7 || |w| == 11 {
          ghost var next := OnFragment(data, checks(calls[..i + 1]), bufModified.t, s, w);
          have, cu, err := OnFragmentOf(data, w, checks(calls[..i + 1]), bufModified, keyframe, have, cu, s);
          s := next.0;
        }
        i := i + 1;
        if err.Some? { FoldStops(data, checks, bufModified.t, s0, calls, i); }
      }
      assert calls[..|calls|] == calls;
      r := Close(keyframe, have, cu, err, s);
    }

    /** The deferred function: after an error nothing is given out. */
    method Close(keyframe: S.Buf<byte>, ghost have: bool, cu: int, err: Option<Stop>, ghost s: Seg) returns (r: Result)
      requires keyframe != buf && Holds(s, keyframe, have, cu)
      modifies keyframe
      ensures buf.Valid() && keyframe.Valid() && Search(r, buf.View(), keyframe.View()) == Closed((s, err))
    {
      if err.None? { return Returned(cu, None); }
      if err.value == Panic { return Result.Crashed; }
      keyframe.Reset();
      return Returned(0, Some(Fragment(err.value)));
    }
  }

  /** One fragment more. */
  lemma FoldStep(buf: Bytes, checks: Checks, mark: nat, s: Seg, calls: seq<Call>, i: nat)
    requires i < |calls| && Fold(buf, checks, mark, s, calls[..i]).1.None?
    ensures var r, w := Fold(buf, checks, mark, s, calls[..i]), calls[i].window;
      Fold(buf, checks, mark, s, calls[..i + 1])
      == if |w| == 7 || |w| == 11 then OnFragment(buf, checks(calls[..i + 1]), mark, r.0, w) else r
  {
    assert calls[..i + 1][..i] == calls[..i];
  }

  lemma {:induction false} FoldStops(buf: Bytes, checks: Checks, mark: nat, s: Seg, calls: seq<Call>, i: nat)
    requires i <= |calls| && Fold(buf, checks, mark, s, calls[..i]).1.Some?
    ensures Fold(buf, checks, mark, s, calls) == Fold(buf, checks, mark, s, calls[..i])
    decreases |calls|
  {
    if i == |calls| {
      assert calls[..i] == calls;
    } else {
      var n := |calls| - 1;
      assert calls[..n][..i] == calls[..i];
      FoldStops(buf, checks, mark, s, calls[..n], i);
    }
  }
}
