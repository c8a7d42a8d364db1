/** slice.SliceIndexNoLock: ranges of a source that read as one queue of elements. */
module SliceIndex {
  import opened Util

  /** The ends of the ranges, two per range, in order within a source of n elements. */
  predicate Ranges(buf: seq<int>, n: nat) {
    buf == [] || (|buf| >= 2 && 0 <= buf[0] <= buf[1] <= n && Ranges(buf[2..], n))
  }

  /** The elements the ranges stand for. */
  function View<T>(source: seq<T>, buf: seq<int>): seq<T>
    requires Ranges(buf, |source|)
  {
    if buf == [] then [] else source[buf[0]..buf[1]] + View(source, buf[2..])
  }

  lemma One<T>(source: seq<T>, s: int, e: int)
    requires 0 <= s <= e <= |source|
    ensures Ranges([s, e], |source|) && View(source, [s, e]) == source[s..e]
  {
    assert [s, e][2..] == [];
  }

  lemma {:induction false} ViewJoin<T>(source: seq<T>, a: seq<int>, b: seq<int>)
    requires Ranges(a, |source|) && Ranges(b, |source|)
    ensures Ranges(a + b, |source|) && View(source, a + b) == View(source, a) + View(source, b)
  {
    if a == [] {
      assert a + b == b;
    } else {
      ViewJoin(source, a[2..], b);
      assert (a + b)[2..] == a[2..] + b;
      Regroup(source[a[0]..a[1]], View(source, a[2..]), View(source, b));
    }
  }

  /** All but the last range, and the last. */
  lemma {:induction false} LastRange<T>(source: seq<T>, buf: seq<int>)
    requires Ranges(buf, |source|) && buf != []
    ensures |buf| >= 2
    ensures var k := |buf| - 2; Ranges(buf[..k], |source|) && 0 <= buf[k] <= buf[k + 1] <= |source|
    ensures var k := |buf| - 2; View(source, buf) == View(source, buf[..k]) + source[buf[k]..buf[k + 1]]
  {
    var k := |buf| - 2;
    if k == 0 {
      assert buf[2..] == [] && buf[..0] == [];
    } else {
      LastRange(source, buf[2..]);
      assert buf[..k][2..] == buf[2..][..k - 2];
      Regroup(source[buf[0]..buf[1]], View(source, buf[..k][2..]), source[buf[k]..buf[k + 1]]);
    }
  }

  /** Taking n elements from the first range. */
  lemma TakeFirst<T>(source: seq<T>, buf: seq<int>, n: nat)
    requires Ranges(buf, |source|) && buf != [] && n <= buf[1] - buf[0]
    ensures var rest := if buf[1] - buf[0] == n then buf[2..] else buf[0 := buf[0] + n];
      && Ranges(rest, |source|) && n <= |View(source, buf)|
      && View(source, buf)[..n] == source[buf[0]..buf[0] + n] && View(source, rest) == View(source, buf)[n..]
  {
    var first, others := source[buf[0]..buf[1]], View(source, buf[2..]);
    assert first[..n] == source[buf[0]..buf[0] + n] && first[n..] == source[buf[0] + n..buf[1]];
    assert (first + others)[..n] == first[..n] && (first + others)[n..] == first[n..] + others;
    if buf[1] - buf[0] != n {
      var rest := buf[0 := buf[0] + n];
      assert rest[2..] == buf[2..];
    } else {
      assert first[n..] + others == others;
    }
  }

  /** The k-th range has an element. */
  predicate NotEmptyAt(buf: seq<int>, k: nat)
    requires k < |buf| / 2
  {
    buf[2 * k] < buf[2 * k + 1]
  }

  predicate NoneEmpty(buf: seq<int>) { forall k :: 0 <= k < |buf| / 2 ==> NotEmptyAt(buf, k) }

  predicate SomeNotEmpty(buf: seq<int>) { exists k :: 0 <= k < |buf| / 2 && NotEmptyAt(buf, k) }

  /** There are elements exactly when some range has one. */
  lemma {:induction false} ElementsExactly<T>(source: seq<T>, buf: seq<int>)
    requires Ranges(buf, |source|)
    ensures View(source, buf) != [] <==> SomeNotEmpty(buf)
  {
    if buf != [] {
      ElementsExactly(source, buf[2..]);
      SomeFirstOrLater(buf);
      assert NotEmptyAt(buf, 0) <==> source[buf[0]..buf[1]] != [];
    }
  }

  lemma SomeFirstOrLater(buf: seq<int>)
    requires |buf| >= 2
    ensures SomeNotEmpty(buf) <==> NotEmptyAt(buf, 0) || SomeNotEmpty(buf[2..])
  {
    if k :| 0 <= k < |buf[2..]| / 2 && NotEmptyAt(buf[2..], k) {
      assert NotEmptyAt(buf, k + 1);
    }
    if k :| 0 <= k < |buf| / 2 && NotEmptyAt(buf, k) {
      assert k > 0 ==> NotEmptyAt(buf[2..], k - 1);
    }
  }

  /** "No range left" means "no element left" exactly when there is no range, or one with an element. */
  lemma EmptyExactly<T>(source: seq<T>, buf: seq<int>)
    requires Ranges(buf, |source|)
    ensures (buf == [] <==> View(source, buf) == []) <==> buf == [] || SomeNotEmpty(buf)
    ensures NoneEmpty(buf) ==> (buf == [] <==> View(source, buf) == [])
  {
    ElementsExactly(source, buf);
    if buf != [] {
      assert |buf| >= 2;
      assert NoneEmpty(buf) ==> NotEmptyAt(buf, 0);
    }
  }

  lemma NoneEmptyJoin(a: seq<int>, s: int, e: int)
    requires NoneEmpty(a) && |a| % 2 == 0 && s < e
    ensures NoneEmpty(a + [s, e])
  {
    forall k | 0 <= k < |a + [s, e]| / 2
      ensures NotEmptyAt(a + [s, e], k)
    {
      if k < |a| / 2 { assert NotEmptyAt(a, k); }
    }
  }

  /** Taking from the first range, and removing it when nothing is left of it. */
  lemma NoneEmptyTake(buf: seq<int>, n: nat)
    requires NoneEmpty(buf) && |buf| >= 2 && n <= buf[1] - buf[0]
    ensures NoneEmpty(if buf[1] - buf[0] == n then buf[2..] else buf[0 := buf[0] + n])
  {
    if buf[1] - buf[0] == n {
      forall k | 0 <= k < |buf[2..]| / 2
        ensures NotEmptyAt(buf[2..], k)
      {
        assert NotEmptyAt(buf, k + 1);
      }
    } else {
      var rest := buf[0 := buf[0] + n];
      forall k | 0 <= k < |rest| / 2
        ensures NotEmptyAt(rest, k)
      {
        assert NotEmptyAt(buf, k);
      }
    }
  }

  lemma NoneEmptyExtend(buf: seq<int>, e: int)
    requires NoneEmpty(buf) && |buf| >= 2 && |buf| % 2 == 0 && buf[|buf| - 1] < e
    ensures NoneEmpty(buf[|buf| - 1 := e])
  {
    var longer := buf[|buf| - 1 := e];
    forall k | 0 <= k < |longer| / 2
      ensures NotEmptyAt(longer, k)
    {
      assert NotEmptyAt(buf, k);
    }
  }

  lemma {:induction false} RangesEven(buf: seq<int>, n: nat)
    requires Ranges(buf, n)
    ensures |buf| % 2 == 0
  {
    if buf != [] { RangesEven(buf[2..], n); }
  }

  /** An empty range appended to an empty queue: the queue says that it is not empty, and has no element. */
  method AppendNothing<T>(q: SliceIndexNoLock<T>, s: int) returns (empty: bool, size: int)
    requires q.Valid() && q.buf == [] && 0 <= s <= |q.source|
    modifies q
    ensures q.Valid() && !empty && size == 0
  {
    q.Append(s, s);
    empty := q.IsEmpty();
    size := q.Size();
    One(q.source, s, s);
  }

  // ----- Writers -----

  /** What one write does: it takes up to k elements, and may fail. After the script writes take everything. */
  datatype WriteEvent = Takes(k: nat, fails: bool)

  class Writer<T> {
    var out: seq<T>
    var script: seq<WriteEvent>

    method Write(b: seq<T>) returns (n: nat, failed: bool)
      modifies this
      ensures n <= |b| && out == old(out) + b[..n]
      ensures script == if old(script) == [] then [] else old(script)[1..]
      ensures old(script) == [] ==> n == |b| && !failed
    {
      if script == [] {
        n, failed := |b|, false;
      } else {
        n := if script[0].k < |b| then script[0].k else |b|;
        failed := script[0].fails;
        script := script[1..];
      }
      out := out + b[..n];
    }
  }

  // ----- The index -----

  class SliceIndexNoLock<T> {
    var buf: seq<int>
    const source: seq<T>
    var modified: nat
    /** All elements appended, and all handed out, since the queue was last emptied. */
    ghost var added: seq<T>
    ghost var given: seq<T>

    /** Elements come out in the order they were put in, none lost and none twice. */
    ghost predicate Valid() reads this {
      Ranges(buf, |source|) && added == given + View(source, buf)
    }

    constructor (source: seq<T>)
      ensures Valid() && this.source == source && buf == [] && added == []
    {
      buf, this.source, modified := [], source, 0;
      added, given := [], [];
    }

    method Append(s: int, e: int)
      requires Valid() && 0 <= s <= e <= |source|
      modifies this
      ensures Valid() && added == old(added) + source[s..e] && given == old(given)
      ensures old(NoneEmpty(buf)) && s < e ==> NoneEmpty(buf)
      ensures old(buf) == [] ==> buf == [s, e]
    {
      var i := |buf| - 1;
      RangesEven(buf, |source|);
      Regroup(given, View(source, buf), source[s..e]);
      if i >= 0 && s == buf[i] {
        Extended(source, buf, e);
        if buf[i] < e {
          if NoneEmpty(buf) { NoneEmptyExtend(buf, e); }
          buf := buf[i := e];
        }
      } else {
        One(source, s, e);
        ViewJoin(source, buf, [s, e]);
        if NoneEmpty(buf) && s < e { NoneEmptyJoin(buf, s, e); }
        buf := buf + [s, e];
      }
      added := added + source[s..e];
      modified := modified + 1;
    }

    method Size() returns (c: int)
      requires Valid()
      ensures c == |View(source, buf)|
    {
      c := 0;
      var i := 0;
      while i < |buf|
        invariant i <= |buf| && Ranges(buf[i..], |source|)
        invariant c + |View(source, buf[i..])| == |View(source, buf)|
      {
        assert buf[i..][2..] == buf[i + 2..];
        c := c + buf[i + 1] - buf[i];
        i := i + 2;
      }
    }

    method IsEmpty() returns (empty: bool)
      ensures empty == (buf == [])
    {
      empty := |buf| == 0;
    }

    /** Forgets the elements not yet read. */
    method Reset()
      modifies this
      ensures Valid() && buf == [] && added == []
    {
      buf := [];
      modified := modified + 1;
      added, given := [], [];
    }

    /** Visits the elements in order until `more` is false for those visited. */
    method Iter(more: seq<T> -> bool) returns (seen: seq<T>)
      requires Valid()
      ensures seen <= View(source, buf) && (seen == View(source, buf) || !more(seen))
      ensures forall k :: 0 < k < |seen| ==> WantedAt(more, seen, k)
    {
      seen := [];
      var i := 0;
      assert buf[0..] == buf;
      while i < |buf|
        invariant i <= |buf| && Ranges(buf[i..], |source|)
        invariant seen + View(source, buf[i..]) == View(source, buf) && Wanted(more, seen)
      {
        assert buf[i..][2..] == buf[i + 2..];
        ghost var rest := View(source, buf[i + 2..]);
        ghost var before, range := seen, source[buf[i]..buf[i + 1]];
        var stopped;
        seen, stopped := VisitRange(more, seen, buf[i], buf[i + 1]);
        Regroup(before, range, rest);
        if stopped {
          assert seen <= before + range;
          return;
        }
        i := i + 2;
      }
      assert buf[i..] == [];
    }

    /** The inner loop: the elements from s to e. */
    method VisitRange(more: seq<T> -> bool, before: seq<T>, s: int, e: int) returns (seen: seq<T>, stopped: bool)
      requires 0 <= s <= e <= |source| && Wanted(more, before)
      ensures before <= seen <= before + source[s..e]
      ensures if stopped then !more(seen) else seen == before + source[s..e] && Wanted(more, seen)
      ensures forall k :: 0 < k < |seen| ==> WantedAt(more, seen, k)
    {
      seen, stopped := before, false;
      var z := s;
      while z < e
        invariant s <= z <= e && Wanted(more, seen) && seen == before + source[s..z]
      {
        WantedGrows(more, seen, source[z]);
        assert source[s..z + 1] == source[s..z] + [source[z]];
        seen := seen + [source[z]];
        if !more(seen) {
          assert source[s..z + 1] <= source[s..e];
          return seen, true;
        }
        z := z + 1;
      }
    }

    /** The first n elements are handed out. */
    ghost method Give(n: nat, buf': seq<int>)
      requires Valid() && buf != [] && n <= buf[1] - buf[0]
      requires buf' == if buf[1] - buf[0] == n then buf[2..] else buf[0 := buf[0] + n]
      modifies this`given
      ensures Ranges(buf', |source|) && added == given + View(source, buf')
      ensures given == old(given) + source[buf[0]..buf[0] + n]
      ensures |View(source, buf')| == |View(source, buf)| - n
      ensures NoneEmpty(buf) ==> NoneEmpty(buf')
    {
      if NoneEmpty(buf) { NoneEmptyTake(buf, n); }
      TakeFirst(source, buf, n);
      var view, piece := View(source, buf), source[buf[0]..buf[0] + n];
      assert view == piece + view[n..];
      Regroup(given, piece, view[n..]);
      given := given + piece;
    }

    /** Fills p from the front; `eof` says that no range is left. */
    method Read(p: array<T>) returns (n: nat, eof: bool)
      requires Valid()
      modifies this, p
      ensures Valid() && added == old(added) && n <= p.Length && given == old(given) + p[..n]
      ensures n == if p.Length <= |old(View(source, buf))| then p.Length else |old(View(source, buf))|
      ensures (forall k :: n <= k < p.Length ==> p[k] == old(p[k])) && eof == (buf == [])
      ensures old(NoneEmpty(buf)) ==> NoneEmpty(buf)
    {
      n := 0;
      while p.Length > n && 2 <= |buf|
        invariant Valid() && n <= p.Length && added == old(added) && given == old(given) + p[..n]
        invariant forall k :: n <= k < p.Length ==> p[k] == old(p[k])
        invariant old(NoneEmpty(buf)) ==> NoneEmpty(buf)
        invariant n + |View(source, buf)| == |old(View(source, buf))|
        decreases |buf|, p.Length - n
      {
        var ln := if p.Length - n < buf[1] - buf[0] then p.Length - n else buf[1] - buf[0];
        var buf' := if buf[1] - buf[0] == ln then buf[2..] else buf[0 := buf[0] + ln];
        ghost var piece := source[buf[0]..buf[0] + ln];
        Give(ln, buf');
        CopyInto(p, n, buf[0], ln);
        Regroup(old(given), p[..n], piece);
        buf := buf';
        n := n + ln;
      }
      modified := modified + 1;
      eof := |buf| == 0;
    }

    /** copy(p[n:], source[from:from+ln]) */
    method CopyInto(p: array<T>, n: nat, from: int, ln: nat)
      requires n + ln <= p.Length && 0 <= from && from + ln <= |source|
      modifies p
      ensures p[..n] == old(p[..n]) && p[..n + ln] == old(p[..n]) + source[from..from + ln]
      ensures forall k :: n + ln <= k < p.Length ==> p[k] == old(p[k])
    {
      forall k | 0 <= k < ln {
        p[n + k] := source[from + k];
      }
    }

    /** Writes range after range; what the writer took is gone, also when it failed. */
    method WriteTo(w: Writer<T>) returns (n: nat, failed: bool, ghost moved: seq<T>)
      requires Valid()
      modifies this, w
      ensures Valid() && added == old(added) && given == old(given) + moved
      ensures n == |moved| && w.out == old(w.out) + moved
      ensures !failed ==> buf == []
      ensures old(NoneEmpty(buf)) ==> NoneEmpty(buf)
    {
      n, failed, moved := 0, false, [];
      while 2 <= |buf|
        invariant Valid() && added == old(added) && !failed
        invariant old(NoneEmpty(buf)) ==> NoneEmpty(buf)
        invariant n == |moved| && w.out == old(w.out) + moved && given == old(given) + moved
        decreases |w.script|, |buf|
      {
        var ln, f := w.Write(source[buf[0]..buf[1]]);
        var buf' := if buf[1] - buf[0] == ln then buf[2..] else buf[0 := buf[0] + ln];
        ghost var piece := source[buf[0]..buf[0] + ln];
        assert source[buf[0]..buf[1]][..ln] == piece;
        Give(ln, buf');
        Regroup(old(w.out), moved, piece);
        Regroup(old(given), moved, piece);
        moved := moved + piece;
        n := n + ln;
        buf := buf';
        modified := modified + 1;
        if f {
          failed := true;
          return;
        }
      }
    }
  }

  predicate WantedAt<T>(more: seq<T> -> bool, seen: seq<T>, k: nat)
    requires k <= |seen|
  {
    more(seen[..k])
  }

  /** The visitor went on after every element so far. */
  predicate Wanted<T>(more: seq<T> -> bool, seen: seq<T>) {
    forall k :: 0 < k <= |seen| ==> WantedAt(more, seen, k)
  }

  lemma WantedGrows<T>(more: seq<T> -> bool, seen: seq<T>, x: T)
    requires Wanted(more, seen)
    ensures forall k :: 0 < k < |seen + [x]| ==> WantedAt(more, seen + [x], k)
    ensures more(seen + [x]) ==> Wanted(more, seen + [x])
  {
    forall k | 0 < k <= |seen|
      ensures WantedAt(more, seen + [x], k)
    {
      assert WantedAt(more, seen, k) && (seen + [x])[..k] == seen[..k];
    }
    assert (seen + [x])[..|seen| + 1] == seen + [x];
  }

  /** A range that goes on where the last one ends makes it longer. */
  lemma Extended<T>(source: seq<T>, buf: seq<int>, e: int)
    requires Ranges(buf, |source|) && buf != [] && buf[|buf| - 1] <= e <= |source|
    ensures var i := |buf| - 1; var buf' := if buf[i] < e then buf[i := e] else buf;
      && buf[i] >= 0 && Ranges(buf', |source|) && View(source, buf') == View(source, buf) + source[buf[i]..e]
  {
    var i := |buf| - 1;
    LastRange(source, buf);
    if buf[i] < e {
      One(source, buf[i - 1], e);
      ViewJoin(source, buf[..i - 1], [buf[i - 1], e]);
      assert buf[..i - 1] + [buf[i - 1], e] == buf[i := e];
      assert source[buf[i - 1]..e] == source[buf[i - 1]..buf[i]] + source[buf[i]..e];
      Regroup(View(source, buf[..i - 1]), source[buf[i - 1]..buf[i]], source[buf[i]..e]);
    }
  }
}
