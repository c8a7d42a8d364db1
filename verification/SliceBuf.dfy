/** slice.Buf: a growing buffer with a size limit and a modification counter. */
module SliceBuf {
  import opened Util

  /** What a buffer is to its users: `isNil` until memory was first needed, then its content up to the size. */
  datatype Value<T> = Value(maxsize: int, isNil: bool, content: seq<T>, t: nat)

  function Appended<T>(v: Value<T>, data: seq<T>): Option<Value<T>> {
    if !v.isNil && v.maxsize != 0 && |v.content| + |data| > v.maxsize then None
    else Some(v.(isNil := false, content := v.content + data, t := v.t + 1))
  }

  function Emptied<T>(v: Value<T>): Value<T> { v.(content := [], t := v.t + 1) }

  /** One use of a buffer. */
  datatype Op<T> = Append(data: seq<T>) | Reset | Clear

  function Applied<T>(v: Value<T>, op: Op<T>): Value<T> {
    match op
    case Append(data) => (match Appended(v, data) case Some(v') => v' case None => v)
    case Reset => Emptied(v)
    case Clear => Emptied(v).(isNil := true)
  }

  function Run<T>(v: Value<T>, ops: seq<Op<T>>): Value<T> {
    if ops == [] then v else Applied(Run(v, ops[..|ops| - 1]), ops[|ops| - 1])
  }

  /** No append to a buffer without memory brings more than the limit by itself. */
  predicate FirstsFit<T>(v: Value<T>, ops: seq<Op<T>>) {
    if ops == [] then true
    else
      var n := |ops| - 1;
      FirstsFit(v, ops[..n]) && (ops[n].Append? && Run(v, ops[..n]).isNil ==> |ops[n].data| <= v.maxsize)
  }

  predicate AlwaysWithin<T>(v: Value<T>, ops: seq<Op<T>>) {
    |Run(v, ops).content| <= v.maxsize && (ops == [] || AlwaysWithin(v, ops[..|ops| - 1]))
  }

  /** The limit holds at every moment exactly when no first append exceeds it: that one append is not checked. */
  lemma {:induction false} LimitExactly<T>(v: Value<T>, ops: seq<Op<T>>)
    requires v.maxsize > 0 && v.isNil && v.content == []
    ensures AlwaysWithin(v, ops) <==> FirstsFit(v, ops)
  {
    if ops != [] {
      LimitExactly(v, ops[..|ops| - 1]);
      NilIsEmpty(v, ops[..|ops| - 1]);
    }
  }

  lemma {:induction false} NilIsEmpty<T>(v: Value<T>, ops: seq<Op<T>>)
    requires v.isNil ==> v.content == []
    ensures var r := Run(v, ops); (r.isNil ==> r.content == []) && r.maxsize == v.maxsize
  {
    if ops != [] { NilIsEmpty(v, ops[..|ops| - 1]); }
  }

  /** A counter that has not moved means that nothing was done, or every append was refused. */
  lemma {:induction false} UnmodifiedMeansUnchanged<T>(v: Value<T>, ops: seq<Op<T>>)
    ensures Run(v, ops).t >= v.t
    ensures Run(v, ops).t == v.t ==> Run(v, ops) == v
  {
    if ops != [] { UnmodifiedMeansUnchanged(v, ops[..|ops| - 1]); }
  }

  datatype Modified<!T> = Modified(p: Buf<T>, t: nat)

  class Buf<T> {
    const maxsize: int
    var bufsize: nat
    var modified: nat
    var buf: Option<seq<T>>

    predicate Valid() reads this {
      if buf.None? then bufsize == 0 else bufsize <= |buf.value|
    }

    function View(): Value<T>
      reads this
      requires Valid()
    {
      Value(maxsize, buf.None?, if buf.None? then [] else buf.value[..bufsize], modified)
    }

    constructor (max: int)
      ensures Valid() && View() == Value(max, true, [], 0)
    {
      maxsize, bufsize, modified, buf := max, 0, 0, None;
    }

    method IsEmpty() returns (empty: bool)
      requires Valid()
      ensures empty == (View().content == [])
    {
      empty := bufsize == 0;
    }

    method Reset()
      requires Valid()
      modifies this
      ensures Valid() && View() == Emptied(old(View())) == Applied(old(View()), Op.Reset)
    {
      bufsize := 0;
      modified := modified + 1;
    }

    method Clear()
      requires Valid()
      modifies this
      ensures Valid() && View() == Applied(old(View()), Op.Clear)
    {
      buf := None;
      bufsize := 0;
      modified := modified + 1;
    }

    /** What was stored beyond the size is overwritten. */
    method Append(data: seq<T>) returns (ok: bool)
      requires Valid()
      modifies this
      ensures Valid() && ok == Appended(old(View()), data).Some?
      ensures View() == if ok then Appended(old(View()), data).value else old(View())
      ensures View() == Applied(old(View()), Op.Append(data))
    {
      if buf.None? {
        buf := Some(data);
      } else if maxsize != 0 && bufsize + |data| > maxsize {
        return false;
      }
      buf := Some(buf.value[..bufsize] + data);
      bufsize := bufsize + |data|;
      modified := modified + 1;
      return true;
    }

    /** A buffer may be appended to itself. */
    method AppendTo(to: Buf<T>) returns (ok: bool)
      requires Valid() && to.Valid()
      modifies to
      ensures to.Valid() && ok == Appended(old(to.View()), old(View()).content).Some?
      ensures to.View() == if ok then Appended(old(to.View()), old(View()).content).value else old(to.View())
    {
      var pure := if buf.None? then [] else buf.value[..bufsize];
      ok := to.Append(pure);
    }

    method GetModified() returns (m: Modified<T>)
      ensures m == Modified(this, modified)
    {
      m := Modified(this, modified);
    }

    /** `same` is false for a snapshot of another buffer; the counters are compared all the same. */
    method HadModified(m: Modified<T>) returns (had: bool, same: bool)
      ensures same == (m.p == this) && had == (modified != m.t)
    {
      same := m.p == this;
      had := modified != m.t;
    }
  }
}
