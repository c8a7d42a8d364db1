/** xml: the flat tag decoder against its own printer. */
module XmlDecoder {
  import opened Util

  const LT: byte := 0x3c
  const GT: byte := 0x3e
  const SPACE: byte := 0x20

  /** What a node is to its users. */
  datatype Item = Item(name: Bytes, attr: Bytes, inner: Bytes)

  /** ToString */
  function Print(x: Item): Bytes {
    [LT] + x.name + (if |x.attr| > 0 then [SPACE] else []) + x.attr + [GT] + x.inner
  }

  datatype ParseState = Unname | Nameing | Attring | Innering

  /** The node under construction. */
  datatype Node = Node(name: Bytes, attr: Bytes, inner: Bytes, state: ParseState)

  /** After a node was handed over. */
  const NEXT := Node([], [], [], Nameing)

  const FIRST := Node([], [], [], Unname)

  /** Trimming of white space at both ends; all that matters here is that it never makes anything longer. */
  ghost predicate Trims(trim: Bytes -> Bytes) { forall a :: |trim(a)| <= |a| }

  /** One byte: the node after it, and the node it completes. */
  function Fed(n: Node, b: byte, trim: Bytes -> Bytes): (Node, Option<Item>) {
    match n.state
    case Unname => (if b == LT then n.(state := Nameing) else n, None)
    case Nameing =>
      if b == SPACE then (n.(state := Attring), None)
      else if b == GT then (n.(state := Innering), None)
      else (n.(name := n.name + [b]), None)
    case Attring =>
      if b == GT then (n.(state := Innering), None) else (n.(attr := n.attr + [b]), None)
    case Innering =>
      if b == LT then (NEXT, Some(Item(n.name, trim(n.attr), n.inner))) else (n.(inner := n.inner + [b]), None)
  }

  /** The nodes completed by a whole input. */
  function Decoded(n: Node, inp: Bytes, trim: Bytes -> Bytes): seq<Item>
    decreases |inp|
  {
    if inp == [] then []
    else
      var r := Fed(n, inp[0], trim);
      (if r.1.Some? then [r.1.value] else []) + Decoded(r.0, inp[1..], trim)
  }

  /** The node left under construction. */
  function Left(n: Node, inp: Bytes, trim: Bytes -> Bytes): Node
    decreases |inp|
  {
    if inp == [] then n else Left(Fed(n, inp[0], trim).0, inp[1..], trim)
  }

  // ----- The decoder -----

  class Source {
    var inp: Bytes
    /** Reads fail, instead of reporting the end, once the bytes are used up. */
    var broken: bool

    method Read() returns (b: Option<byte>, failed: bool)
      modifies `inp
      ensures old(inp) == [] ==> b.None? && inp == [] && failed == broken
      ensures old(inp) != [] ==> b == Some(old(inp)[0]) && inp == old(inp)[1..] && !failed
    {
      if inp == [] { return None, broken; }
      b, failed, inp := Some(inp[0]), false, inp[1..];
    }
  }

  class Decoder {
    var name: Bytes
    var attr: Bytes
    var inner: Bytes
    var state: ParseState

    function View(): Node reads this { Node(name, attr, inner, state) }

    constructor ()
      ensures View() == FIRST
    {
      name, attr, inner, state := [], [], [], Unname;
    }

    method Clear()
      modifies this
      ensures View() == Node([], [], [], old(state))
    {
      name, attr, inner := [], [], [];
    }

    /**
     * One range over the decoder: nodes are given to the caller until it stops (`more` is false for those given), the
     * source ends, or a read fails.
     */
    method Range(r: Source, trim: Bytes -> Bytes, more: seq<Item> -> bool) returns (items: seq<Item>, panicked: bool)
      modifies this, r`inp
      ensures items + Decoded(View(), r.inp, trim) == Decoded(old(View()), old(r.inp), trim)
      ensures Left(View(), r.inp, trim) == Left(old(View()), old(r.inp), trim)
      ensures panicked ==> r.inp == [] && r.broken
      ensures !panicked && r.inp != [] ==> items != [] && !more(items)
      ensures forall k :: 0 < k < |items| ==> WantedAt(more, items, k)
    {
      items, panicked := [], false;
      while true
        invariant items + Decoded(View(), r.inp, trim) == Decoded(old(View()), old(r.inp), trim)
        invariant Left(View(), r.inp, trim) == Left(old(View()), old(r.inp), trim)
        invariant forall k :: 0 < k <= |items| ==> WantedAt(more, items, k)
        decreases |r.inp|
      {
        ghost var n, inp := View(), r.inp;
        var b, failed := r.Read();
        if b == None {
          return items, failed;
        }
        ghost var fed := Fed(n, b.value, trim);
        ghost var todo := Decoded(fed.0, r.inp, trim);
        assert Decoded(n, inp, trim) == (if fed.1.Some? then [fed.1.value] else []) + todo;
        assert Left(n, inp, trim) == Left(fed.0, r.inp, trim);
        match state {
          case Unname =>
            if b.value == LT { state := Nameing; }
          case Nameing =>
            if b.value == SPACE {
              state := Attring;
            } else if b.value == GT {
              state := Innering;
            } else {
              name := name + [b.value];
            }
          case Attring =>
            if b.value == GT {
              state := Innering;
            } else {
              attr := attr + [b.value];
            }
          case Innering =>
            if b.value == LT {
              attr := trim(attr);
              var item := Item(name, attr, inner);
              Regroup(items, [item], todo);
              WantedGrows(more, items, item);
              items := items + [item];
              Clear();
              state := Nameing;
              assert fed == (View(), Some(item));
              if !more(items) { return; }
            } else {
              inner := inner + [b.value];
            }
        }
        assert fed.0 == View() && (fed.1.None? ==> Decoded(n, inp, trim) == todo);
      }
    }
  }

  predicate WantedAt(more: seq<Item> -> bool, items: seq<Item>, k: nat)
    requires k <= |items|
  {
    more(items[..k])
  }

  lemma WantedGrows(more: seq<Item> -> bool, items: seq<Item>, x: Item)
    requires forall k :: 0 < k <= |items| ==> WantedAt(more, items, k)
    ensures forall k :: 0 < k <= |items| ==> WantedAt(more, items + [x], k)
    ensures WantedAt(more, items + [x], |items| + 1) == more(items + [x])
  {
    forall k | 0 < k <= |items|
      ensures WantedAt(more, items + [x], k)
    {
      assert WantedAt(more, items, k) && (items + [x])[..k] == items[..k];
    }
    assert (items + [x])[..|items| + 1] == items + [x];
  }

  /** An input may come in pieces: the decoder goes on where it was. */
  lemma {:induction false} DecodedInPieces(n: Node, a: Bytes, b: Bytes, trim: Bytes -> Bytes)
    ensures Decoded(n, a + b, trim) == Decoded(n, a, trim) + Decoded(Left(n, a, trim), b, trim)
    decreases |a|
  {
    if a == [] {
      assert a + b == b;
    } else {
      var r := Fed(n, a[0], trim);
      assert (a + b)[1..] == a[1..] + b;
      DecodedInPieces(r.0, a[1..], b, trim);
    }
  }

  // ----- Round trip -----

  /** What the printed form can carry. */
  predicate Printable(x: Item, trim: Bytes -> Bytes) {
    && SPACE !in x.name && GT !in x.name && GT !in x.attr && trim(x.attr) == x.attr && LT !in x.inner
  }

  function PrintAll(xs: seq<Item>): Bytes {
    if xs == [] then [] else Print(xs[0]) + PrintAll(xs[1..])
  }

  lemma {:induction false} FeedName(n: Node, s: Bytes, rest: Bytes, trim: Bytes -> Bytes)
    requires n.state.Nameing? && SPACE !in s && GT !in s
    ensures Decoded(n, s + rest, trim) == Decoded(n.(name := n.name + s), rest, trim)
    decreases |s|
  {
    if s == [] {
      assert s + rest == rest && n.name + s == n.name;
    } else {
      assert (s + rest)[1..] == s[1..] + rest && n.name + [s[0]] + s[1..] == n.name + s;
      FeedName(n.(name := n.name + [s[0]]), s[1..], rest, trim);
    }
  }

  lemma {:induction false} FeedAttr(n: Node, s: Bytes, rest: Bytes, trim: Bytes -> Bytes)
    requires n.state.Attring? && GT !in s
    ensures Decoded(n, s + rest, trim) == Decoded(n.(attr := n.attr + s), rest, trim)
    decreases |s|
  {
    if s == [] {
      assert s + rest == rest && n.attr + s == n.attr;
    } else {
      assert (s + rest)[1..] == s[1..] + rest && n.attr + [s[0]] + s[1..] == n.attr + s;
      FeedAttr(n.(attr := n.attr + [s[0]]), s[1..], rest, trim);
    }
  }

  lemma {:induction false} FeedInner(n: Node, s: Bytes, rest: Bytes, trim: Bytes -> Bytes)
    requires n.state.Innering? && LT !in s
    ensures Decoded(n, s + rest, trim) == Decoded(n.(inner := n.inner + s), rest, trim)
    decreases |s|
  {
    if s == [] {
      assert s + rest == rest && n.inner + s == n.inner;
    } else {
      assert (s + rest)[1..] == s[1..] + rest && n.inner + [s[0]] + s[1..] == n.inner + s;
      FeedInner(n.(inner := n.inner + [s[0]]), s[1..], rest, trim);
    }
  }

  lemma {:induction false} FeedPrefix(s: Bytes, rest: Bytes, trim: Bytes -> Bytes)
    requires LT !in s
    ensures Decoded(FIRST, s + rest, trim) == Decoded(FIRST, rest, trim)
  {
    if s == [] {
      assert s + rest == rest;
    } else {
      assert (s + rest)[1..] == s[1..] + rest;
      FeedPrefix(s[1..], rest, trim);
    }
  }

  lemma FeedByte(n: Node, b: byte, rest: Bytes, trim: Bytes -> Bytes)
    ensures var r := Fed(n, b, trim);
      Decoded(n, [b] + rest, trim) == (if r.1.Some? then [r.1.value] else []) + Decoded(r.0, rest, trim)
  {
    assert ([b] + rest)[1..] == rest;
  }

  /** What follows the opening bracket of a printed node. */
  function AfterOpen(x: Item): Bytes {
    x.name + ((if |x.attr| > 0 then [SPACE] else []) + (x.attr + ([GT] + x.inner)))
  }

  lemma PrintOpens(x: Item)
    ensures Print(x) == [LT] + AfterOpen(x)
  {
  }

  /** After a name without space or bracket: to the attributes, or to the text. */
  lemma NameRead(x: Item, rest: Bytes, trim: Bytes -> Bytes)
    requires SPACE !in x.name && GT !in x.name
    ensures Decoded(NEXT, AfterOpen(x) + rest, trim)
            == if |x.attr| > 0 then Decoded(Node(x.name, [], [], Attring), x.attr + ([GT] + (x.inner + rest)), trim)
               else Decoded(Node(x.name, [], [], Innering), x.inner + rest, trim)
  {
    var tail := x.attr + ([GT] + (x.inner + rest));
    if |x.attr| > 0 {
      assert AfterOpen(x) + rest == x.name + ([SPACE] + tail);
      FeedName(NEXT, x.name, [SPACE] + tail, trim);
      FeedByte(Node(x.name, [], [], Nameing), SPACE, tail, trim);
    } else {
      assert AfterOpen(x) + rest == x.name + ([GT] + (x.inner + rest));
      FeedName(NEXT, x.name, [GT] + (x.inner + rest), trim);
      FeedByte(Node(x.name, [], [], Nameing), GT, x.inner + rest, trim);
    }
    assert [] + x.name == x.name;
  }

  /** After attributes without bracket: to the text. */
  lemma HeadRead(x: Item, rest: Bytes, trim: Bytes -> Bytes)
    requires SPACE !in x.name && GT !in x.name && GT !in x.attr
    ensures Decoded(NEXT, AfterOpen(x) + rest, trim) == Decoded(Node(x.name, x.attr, [], Innering), x.inner + rest, trim)
  {
    NameRead(x, rest, trim);
    if |x.attr| > 0 {
      FeedAttr(Node(x.name, [], [], Attring), x.attr, [GT] + (x.inner + rest), trim);
      assert [] + x.attr == x.attr;
      FeedByte(Node(x.name, x.attr, [], Attring), GT, x.inner + rest, trim);
    }
  }

  /** A printable node is read back, once the next bracket shows that it has ended. */
  lemma NodeRead(x: Item, rest: Bytes, trim: Bytes -> Bytes)
    requires Printable(x, trim)
    ensures Decoded(NEXT, AfterOpen(x) + ([LT] + rest), trim) == [x] + Decoded(NEXT, rest, trim)
  {
    HeadRead(x, [LT] + rest, trim);
    FeedInner(Node(x.name, x.attr, [], Innering), x.inner, [LT] + rest, trim);
    assert [] + x.inner == x.inner;
    FeedByte(Node(x.name, x.attr, x.inner, Innering), LT, rest, trim);
  }

  // ----- A node the printed form cannot carry -----

  /** Once the name is read, the next node handed over has it; once the attributes are read, those as well. */
  lemma {:induction false} FirstKeeps(n: Node, inp: Bytes, trim: Bytes -> Bytes)
    requires n.state.Attring? || n.state.Innering?
    ensures var d := Decoded(n, inp, trim); d != [] ==> d[0].name == n.name
    ensures var d := Decoded(n, inp, trim); d != [] && n.state.Innering? ==> d[0].attr == trim(n.attr)
    decreases |inp|
  {
    if inp != [] {
      var r := Fed(n, inp[0], trim);
      if r.1.None? { FirstKeeps(r.0, inp[1..], trim); }
    }
  }

  lemma {:induction false} NameCut(n: Node, s: Bytes, rest: Bytes, trim: Bytes -> Bytes)
    requires n.state.Nameing? && (SPACE in s || GT in s)
    ensures var d := Decoded(n, s + rest, trim); d != [] ==> |d[0].name| < |n.name| + |s|
    decreases |s|
  {
    assert (s + rest)[1..] == s[1..] + rest;
    var r := Fed(n, s[0], trim);
    if r.0.state.Nameing? { NameCut(r.0, s[1..], rest, trim); } else { FirstKeeps(r.0, s[1..] + rest, trim); }
  }

  lemma {:induction false} AttrCut(n: Node, s: Bytes, rest: Bytes, trim: Bytes -> Bytes)
    requires n.state.Attring? && GT in s && Trims(trim)
    ensures var d := Decoded(n, s + rest, trim); d != [] ==> |d[0].attr| < |n.attr| + |s|
    decreases |s|
  {
    assert (s + rest)[1..] == s[1..] + rest;
    var r := Fed(n, s[0], trim);
    if r.0.state.Attring? { AttrCut(r.0, s[1..], rest, trim); } else { FirstKeeps(r.0, s[1..] + rest, trim); }
  }

  lemma {:induction false} InnerCut(n: Node, s: Bytes, rest: Bytes, trim: Bytes -> Bytes)
    requires n.state.Innering? && LT in s
    ensures var d := Decoded(n, s + rest, trim); d != [] ==> |d[0].inner| < |n.inner| + |s|
    decreases |s|
  {
    assert (s + rest)[1..] == s[1..] + rest;
    var r := Fed(n, s[0], trim);
    if r.1.None? { InnerCut(r.0, s[1..], rest, trim); }
  }

  /** Any other node is not read back: whatever comes first differs from it. */
  lemma NodeLost(x: Item, rest: Bytes, trim: Bytes -> Bytes)
    requires !Printable(x, trim) && Trims(trim)
    ensures var d := Decoded(NEXT, AfterOpen(x) + rest, trim); d != [] ==> d[0] != x
  {
    if SPACE in x.name || GT in x.name {
      var tail := (if |x.attr| > 0 then [SPACE] else []) + (x.attr + ([GT] + x.inner));
      NameCut(NEXT, x.name, tail + rest, trim);
      Regroup(x.name, tail, rest);
    } else if GT in x.attr {
      NameRead(x, rest, trim);
      AttrCut(Node(x.name, [], [], Attring), x.attr, [GT] + (x.inner + rest), trim);
    } else {
      HeadRead(x, rest, trim);
      FirstKeeps(Node(x.name, x.attr, [], Innering), x.inner + rest, trim);
      if LT in x.inner { InnerCut(Node(x.name, x.attr, [], Innering), x.inner, rest, trim); }
    }
  }

  // ----- Lists -----

  predicate AllPrintable(xs: seq<Item>, trim: Bytes -> Bytes) { forall k :: 0 <= k < |xs| ==> Printable(xs[k], trim) }

  /** The nodes from an opening bracket on. */
  lemma {:induction false} ListRead(xs: seq<Item>, trim: Bytes -> Bytes)
    requires xs != [] && Trims(trim)
    ensures Decoded(NEXT, AfterOpen(xs[0]) + (PrintAll(xs[1..]) + [LT]), trim) == xs
            <==> AllPrintable(xs, trim)
  {
    var x, rest := xs[0], xs[1..];
    if !Printable(x, trim) {
      NodeLost(x, PrintAll(rest) + [LT], trim);
    } else if rest == [] {
      assert PrintAll(rest) + [LT] == [LT] + [];
      NodeRead(x, [], trim);
      assert xs == [x];
    } else {
      var after := AfterOpen(rest[0]) + (PrintAll(rest[1..]) + [LT]);
      PrintOpens(rest[0]);
      assert PrintAll(rest) + [LT] == [LT] + after;
      NodeRead(x, after, trim);
      ListRead(rest, trim);
      var d := Decoded(NEXT, after, trim);
      assert xs == [x] + rest;
      assert [x] + d == [x] + rest <==> d == rest by { if [x] + d == [x] + rest { assert ([x] + d)[1..] == ([x] + rest)[1..]; } }
      assert forall k :: 1 <= k < |xs| ==> xs[k] == rest[k - 1];
      assert forall k :: 0 <= k < |rest| ==> rest[k] == xs[k + 1];
    }
  }

  /** Decoding a bracket-free prefix, printed nodes and a final bracket gives back the nodes exactly when all are printable. */
  lemma DecodeInvertsPrint(prefix: Bytes, xs: seq<Item>, trim: Bytes -> Bytes)
    requires LT !in prefix && Trims(trim)
    ensures Decoded(FIRST, prefix + (PrintAll(xs) + [LT]), trim) == xs
            <==> AllPrintable(xs, trim)
  {
    FeedPrefix(prefix, PrintAll(xs) + [LT], trim);
    if xs == [] {
      assert PrintAll(xs) + [LT] == [LT] + [];
      FeedByte(FIRST, LT, [], trim);
    } else {
      Opened(xs, trim);
      ListRead(xs, trim);
    }
  }

  lemma Opened(xs: seq<Item>, trim: Bytes -> Bytes)
    requires xs != []
    ensures Decoded(FIRST, PrintAll(xs) + [LT], trim)
            == Decoded(NEXT, AfterOpen(xs[0]) + (PrintAll(xs[1..]) + [LT]), trim)
  {
    PrintOpens(xs[0]);
    OpensAt(AfterOpen(xs[0]), PrintAll(xs[1..]), trim);
  }

  lemma OpensAt(open: Bytes, rest: Bytes, trim: Bytes -> Bytes)
    ensures Decoded(FIRST, [LT] + open + rest + [LT], trim) == Decoded(NEXT, open + (rest + [LT]), trim)
  {
    assert [LT] + open + rest + [LT] == [LT] + (open + (rest + [LT]));
    FeedByte(FIRST, LT, open + (rest + [LT]), trim);
  }
}
