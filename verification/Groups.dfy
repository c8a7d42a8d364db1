/** Groups of pieces of a stream, each group beginning with a key piece: what is complete, and what may still grow. */
module Groups {
  import opened Util

  datatype Item = Item(bytes: Bytes, key: bool)

  function Concat(fs: seq<Item>): Bytes {
    if fs == [] then [] else fs[0].bytes + Concat(fs[1..])
  }

  function KeyFrom(fs: seq<Item>, i: nat): (k: nat)
    requires i <= |fs|
    ensures i <= k <= |fs| && (k < |fs| ==> fs[k].key) && forall j :: i <= j < k ==> !fs[j].key
    decreases |fs| - i
  {
    if i == |fs| || fs[i].key then i else KeyFrom(fs, i + 1)
  }

  function KeyBelow(fs: seq<Item>, i: nat): (k: nat)
    requires i <= |fs|
    ensures k < i || k == |fs|
    ensures k < |fs| ==> fs[k].key && forall j :: k < j < i ==> !fs[j].key
    ensures k == |fs| ==> forall j :: 0 <= j < i ==> !fs[j].key
  {
    if i == 0 then |fs| else if fs[i - 1].key then i - 1 else KeyBelow(fs, i - 1)
  }

  /** The first piece with a key, or the number of pieces when there is none. */
  function FirstKey(fs: seq<Item>): nat { KeyFrom(fs, 0) }

  /** The last piece with a key, or the number of pieces when there is none. */
  function LastKey(fs: seq<Item>): nat { KeyBelow(fs, |fs|) }

  lemma KeysOrdered(fs: seq<Item>)
    ensures FirstKey(fs) <= LastKey(fs) && (FirstKey(fs) == |fs| <==> LastKey(fs) == |fs|)
  {
  }

  /** The complete groups: from the first key frame to before the last one. */
  function Emitted(fs: seq<Item>): Bytes {
    KeysOrdered(fs);
    Concat(fs[FirstKey(fs)..LastKey(fs)])
  }

  /** The group that may still grow. */
  function Pending(fs: seq<Item>): Bytes { Concat(fs[LastKey(fs)..]) }

  /** Where that group begins. */
  function Cursor(fs: seq<Item>): nat { |Concat(fs[..LastKey(fs)])| }

  lemma {:induction false} ConcatJoin(a: seq<Item>, b: seq<Item>)
    ensures Concat(a + b) == Concat(a) + Concat(b)
  {
    if a == [] {
      assert a + b == b;
    } else {
      ConcatJoin(a[1..], b);
      assert (a + b)[1..] == a[1..] + b;
      assert a[0].bytes + Concat(a[1..]) + Concat(b) == a[0].bytes + (Concat(a[1..]) + Concat(b));
    }
  }

  lemma ConcatSplit(fs: seq<Item>, i: nat, j: nat)
    requires i <= j <= |fs|
    ensures Concat(fs[i..]) == Concat(fs[i..j]) + Concat(fs[j..])
  {
    ConcatJoin(fs[i..j], fs[j..]);
    assert fs[i..j] + fs[j..] == fs[i..];
  }

  lemma ConcatOne(f: Item)
    ensures Concat([f]) == f.bytes
  {
    assert [f][1..] == [];
    assert f.bytes + [] == f.bytes;
  }

  /** Emitted and pending together are everything from the first key frame on; the cursor is where pending begins. */
  lemma GroupsPartition(fs: seq<Item>)
    ensures Emitted(fs) + Pending(fs) == Concat(fs[FirstKey(fs)..])
    ensures Cursor(fs) <= |Concat(fs)| && Concat(fs)[Cursor(fs)..] == Pending(fs)
  {
    KeysOrdered(fs);
    ConcatSplit(fs, FirstKey(fs), LastKey(fs));
    ConcatSplit(fs, 0, LastKey(fs));
    assert fs[0..] == fs && fs[0..LastKey(fs)] == fs[..LastKey(fs)];
  }

  lemma KeysSnoc(fs: seq<Item>, f: Item)
    ensures LastKey(fs + [f]) == if f.key then |fs| else if LastKey(fs) == |fs| then |fs| + 1 else LastKey(fs)
    ensures FirstKey(fs + [f]) == if FirstKey(fs) < |fs| then FirstKey(fs) else if f.key then |fs| else |fs| + 1
  {
    assert (fs + [f])[..|fs|] == fs;
  }

  /** A key frame closes the pending group and begins a new one. */
  lemma SnocKey(fs: seq<Item>, f: Item)
    requires f.key
    ensures Emitted(fs + [f]) == Emitted(fs) + Pending(fs) && Pending(fs + [f]) == f.bytes
    ensures Cursor(fs + [f]) == |Concat(fs)|
  {
    KeysSnoc(fs, f);
    KeysOrdered(fs);
    var all, n := fs + [f], |fs|;
    ConcatOne(f);
    assert all[n..] == [f] && all[..n] == fs && fs[..n] == fs;
    assert all[FirstKey(all)..n] == fs[FirstKey(fs)..];
    ConcatSplit(fs, FirstKey(fs), LastKey(fs));
  }

  /** Any other piece joins the pending group. */
  lemma SnocJoins(fs: seq<Item>, f: Item)
    requires !f.key && FirstKey(fs) < |fs|
    ensures Emitted(fs + [f]) == Emitted(fs) && Pending(fs + [f]) == Pending(fs) + f.bytes
    ensures Cursor(fs + [f]) == Cursor(fs)
  {
    KeysSnoc(fs, f);
    KeysOrdered(fs);
    var all, l := fs + [f], LastKey(fs);
    ConcatOne(f);
    assert all[FirstKey(all)..LastKey(all)] == fs[FirstKey(fs)..l];
    assert all[l..] == fs[l..] + [f] && all[..l] == fs[..l];
    ConcatJoin(fs[l..], [f]);
  }

  /** While there is no group it is passed over. */
  lemma SnocSkips(fs: seq<Item>, f: Item)
    requires !f.key && FirstKey(fs) == |fs|
    ensures Emitted(fs + [f]) == [] && Pending(fs + [f]) == [] && Cursor(fs + [f]) == |Concat(fs)| + |f.bytes|
  {
    KeysSnoc(fs, f);
    KeysOrdered(fs);
    var all := fs + [f];
    var n := |all|;
    assert FirstKey(all) == LastKey(all) == n;
    assert all[n..] == [] && all[n..n] == [] && all[..n] == all;
    ConcatOne(f);
    ConcatJoin(fs, [f]);
  }

  lemma NoGroup(fs: seq<Item>)
    requires FirstKey(fs) == |fs|
    ensures Pending(fs) == [] && Emitted(fs) == [] && Cursor(fs) == |Concat(fs)|
  {
    KeysOrdered(fs);
    assert fs[|fs|..] == [] && fs[|fs|..|fs|] == [] && fs[..|fs|] == fs;
  }

  lemma PendingNotEmpty(fs: seq<Item>)
    requires FirstKey(fs) < |fs| && forall k :: 0 <= k < |fs| ==> fs[k].bytes != []
    ensures Pending(fs) != []
  {
    KeysOrdered(fs);
    var l := LastKey(fs);
    ConcatOne(fs[l]);
    ConcatJoin([fs[l]], fs[l + 1..]);
    assert [fs[l]] + fs[l + 1..] == fs[l..];
  }

  /** The keys of what is left from the last key of a beginning on, or from its end when it has none. */
  lemma KeysAfter(fs: seq<Item>, k: nat)
    requires k <= |fs|
    ensures var l := LastKey(fs[..k]); LastKey(fs) == l + LastKey(fs[l..])
    ensures var l := LastKey(fs[..k]); l < k ==> FirstKey(fs) == FirstKey(fs[..k]) <= l && FirstKey(fs[l..]) == 0
    ensures var l := LastKey(fs[..k]); l == k ==> FirstKey(fs) == l + FirstKey(fs[l..])
  {
    var ps, l := fs[..k], LastKey(fs[..k]);
    var rest := fs[l..];
    assert forall j :: l <= j < |fs| ==> rest[j - l] == fs[j];
    assert forall j :: 0 <= j < k ==> ps[j] == fs[j];
    if l < k { assert rest[0].key; }
  }

  lemma ConcatSlices(fs: seq<Item>, i: nat, j: nat, k: nat)
    requires i <= j <= k <= |fs|
    ensures Concat(fs[i..k]) == Concat(fs[i..j]) + Concat(fs[j..k])
  {
    ConcatJoin(fs[i..j], fs[j..k]);
    assert fs[i..j] + fs[j..k] == fs[i..k];
  }

  lemma SliceOfSlice(fs: seq<Item>, l: nat, i: nat, j: nat)
    requires l <= |fs| && i <= j <= |fs| - l
    ensures fs[l..][i..j] == fs[l + i..l + j] && fs[l..][..j] == fs[l..l + j] && fs[..j][i..j] == fs[i..j]
  {
  }

  lemma ResumeCursor(fs: seq<Item>, k: nat)
    requires k <= |fs|
    ensures var ps := fs[..k]; var l := LastKey(ps);
      && l <= k && Concat(fs) == Concat(fs[..l]) + Concat(fs[l..]) && Cursor(ps) == |Concat(fs[..l])|
      && Cursor(ps) + Cursor(fs[l..]) == Cursor(fs)
  {
    var ps := fs[..k];
    var l, r := LastKey(ps), LastKey(fs[LastKey(ps)..]);
    KeysAfter(fs, k);
    assert ps[..l] == fs[..l] == fs[0..l] && fs[0..|fs|] == fs && fs[l..|fs|] == fs[l..];
    ConcatSlices(fs, 0, l, |fs|);
    ConcatSlices(fs, 0, l, l + r);
    SliceOfSlice(fs, l, 0, r);
    assert fs[0..l + r] == fs[..l + r];
  }

  lemma ResumeEmits(fs: seq<Item>, k: nat)
    requires k <= |fs|
    ensures var ps := fs[..k]; var l := LastKey(ps); Emitted(ps) + Emitted(fs[l..]) == Emitted(fs)
  {
    var ps := fs[..k];
    var l := LastKey(ps);
    var rest := fs[l..];
    KeysAfter(fs, k);
    KeysOrdered(fs);
    KeysOrdered(ps);
    KeysOrdered(rest);
    var f, r := FirstKey(rest), LastKey(rest);
    SliceOfSlice(fs, l, f, r);
    assert Emitted(rest) == Concat(fs[l + f..l + r]);
    if l < k {
      assert ps[FirstKey(ps)..l] == fs[FirstKey(fs)..l];
      assert Emitted(ps) == Concat(fs[FirstKey(fs)..l]);
      ConcatSlices(fs, FirstKey(fs), l, l + r);
    } else {
      assert ps[FirstKey(ps)..l] == [];
      assert Emitted(ps) == [] && Emitted(fs) == Concat(fs[l + f..l + r]);
    }
  }

  /** Going on from the cursor after a beginning emits, in all, what one go emits, and ends at the same cursor. */
  lemma Resume(fs: seq<Item>, k: nat)
    requires k <= |fs|
    ensures var ps := fs[..k]; var rest := fs[LastKey(ps)..];
      && Emitted(ps) + Emitted(rest) == Emitted(fs)
      && Cursor(ps) + Cursor(rest) == Cursor(fs)
      && Cursor(ps) <= |Concat(fs)| && Concat(fs)[Cursor(ps)..] == Concat(rest)
      && Pending(rest) == Pending(fs)
  {
    ResumeCursor(fs, k);
    ResumeEmits(fs, k);
    KeysAfter(fs, k);
    assert fs[LastKey(fs[..k])..][LastKey(fs[LastKey(fs[..k])..])..] == fs[LastKey(fs)..];
  }
}
