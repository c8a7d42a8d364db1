/**
 * SqlTx.DoPlaceHolder: "{name}" holders become positional tokens by one ReplaceAll pass per holder, in
 * the order of first occurrence, and the holders' values become the argument list in that order.
 */
module PlaceHolder {
  import opened Util

  // ---------------------------------------------------------------- strings

  predicate At(s: string, i: nat, sub: string) { i + |sub| <= |s| && s[i..i + |sub|] == sub }

  function IndexFrom(s: string, sub: string, from: nat): (i: int)
    requires from <= |s|
    ensures i == -1 || (from <= i && At(s, i, sub))
    ensures forall k :: from <= k < |s| && At(s, k, sub) ==> 0 <= i <= k
    decreases |s| - from
  {
    if At(s, from, sub) then from else if from == |s| then -1 else IndexFrom(s, sub, from + 1)
  }

  /** strings.Index */
  function Index(s: string, sub: string): (i: int)
    ensures i == -1 || (0 <= i && At(s, i, sub))
    ensures forall k :: 0 <= k < |s| && At(s, k, sub) ==> 0 <= i <= k
  {
    IndexFrom(s, sub, 0)
  }

  /** strings.ReplaceAll for a non-empty old. */
  function ReplaceAll(s: string, old_: string, new_: string): string
    requires old_ != ""
    decreases |s|
  {
    if s == "" then ""
    else if At(s, 0, old_) then new_ + ReplaceAll(s[|old_|..], old_, new_)
    else [s[0]] + ReplaceAll(s[1..], old_, new_)
  }

  predicate IsDigit(c: char) { '0' <= c <= '9' }

  function Digit(n: nat): char
    requires n < 10
  {
    "0123456789"[n]
  }

  /** %d of a natural number. */
  function Decimal(n: nat): (s: string)
    ensures s != "" && forall k :: 0 <= k < |s| ==> IsDigit(s[k])
  {
    if n < 10 then [Digit(n)] else Decimal(n / 10) + [Digit(n % 10)]
  }

  function DigitValue(c: char): nat
    requires IsDigit(c)
  {
    c as int - '0' as int
  }

  function Number(s: string): nat
    requires forall k :: 0 <= k < |s| ==> IsDigit(s[k])
  {
    if s == "" then 0 else 10 * Number(s[..|s| - 1]) + DigitValue(s[|s| - 1])
  }

  lemma {:induction false} NumberOfDecimal(n: nat)
    ensures Number(Decimal(n)) == n
  {
    var s := Decimal(n);
    if n < 10 {
      assert s[..0] == "" && DigitValue(s[0]) == n;
    } else {
      NumberOfDecimal(n / 10);
      assert s[..|s| - 1] == Decimal(n / 10) && DigitValue(s[|s| - 1]) == n % 10;
    }
  }

  predicate Decimally(s: string) { s != "" && (forall k :: 0 <= k < |s| ==> IsDigit(s[k])) && (|s| > 1 ==> s[0] != '0') }

  /** Of all digit strings that read as n it is the one without a leading zero. */
  lemma {:induction false} DecimalExactly(n: nat, s: string)
    ensures s == Decimal(n) <==> Decimally(s) && Number(s) == n
  {
    NumberOfDecimal(n);
    if n >= 10 { DecimalExactly(n / 10, Decimal(n / 10)); }
    if Decimally(s) && Number(s) == n {
      var m := |s| - 1;
      if m == 0 {
        assert s[..0] == "" && Number(s) == DigitValue(s[0]);
        assert s == [Digit(n)];
      } else {
        NumberPositive(s[..m]);
        DecimalExactly(n / 10, s[..m]);
        assert s == s[..m] + [Digit(n % 10)];
      }
    }
  }

  lemma {:induction false} NumberPositive(s: string)
    requires Decimally(s) && s[0] != '0'
    ensures Number(s) > 0
  {
    if |s| > 1 { NumberPositive(s[..|s| - 1]); } else { assert s[..0] == ""; }
  }

  // ---------------------------------------------------------------- what DoPlaceHolder computes

  /** One holder that occurs in the query; the source keeps "{name}" in a field `key`. */
  datatype Para<V> = Para(name: string, val: V, index: nat) {
    function Key(): string { Holder(name) }
  }

  function Holder(name: string): (h: string)
    ensures |h| == |name| + 2 && h[0] == '{'
  {
    "{" + name + "}"
  }

  /** What a string that starts with a holder looks like, letter by letter. */
  lemma HolderLetters(name: string, s: string)
    requires Holder(name) <= s
    ensures s[0] == '{' && s[|name| + 1] == '}' && forall i :: 1 <= i <= |name| ==> s[i] == name[i - 1]
  {
    assert forall i :: 0 <= i < |name| + 2 ==> s[i] == Holder(name)[i];
  }

  /** The named values whose holder occurs, with the place where it first does. */
  function Collect<V>(query: seq<(string, V)>, sql: string): seq<Para<V>> {
    if query == [] then []
    else
      var (name, val) := query[|query| - 1];
      var i := Index(sql, Holder(name));
      Collect(query[..|query| - 1], sql) + (if i == -1 then [] else [Para(name, val, i)])
  }

  function Insert<V>(p: Para<V>, ps: seq<Para<V>>): seq<Para<V>> {
    if ps == [] || p.index <= ps[0].index then [p] + ps else [ps[0]] + Insert(p, ps[1..])
  }

  /** slices.SortFunc by index. */
  function Sort<V>(ps: seq<Para<V>>): seq<Para<V>> {
    if ps == [] then [] else Insert(ps[0], Sort(ps[1..]))
  }

  type ReplaceF = (nat, string) -> string

  const PlaceHolderA: ReplaceF := (index: nat, holder: string) => "?"
  const PlaceHolderB: ReplaceF := (index: nat, holder: string) => "$" + Decimal(index + 1)
  const PlaceHolderC: ReplaceF := (index: nat, holder: string) => ":" + Decimal(index + 1)

  /** The first k passes. */
  function Passes<V>(sql: string, ps: seq<Para<V>>, f: ReplaceF, k: nat): string
    requires k <= |ps|
  {
    if k == 0 then sql else ReplaceAll(Passes(sql, ps, f, k - 1), ps[k - 1].Key(), f(k - 1, ps[k - 1].Key()))
  }

  function Values<V>(ps: seq<Para<V>>): (vs: seq<V>)
    ensures |vs| == |ps| && forall k :: 0 <= k < |ps| ==> vs[k] == ps[k].val
  {
    if ps == [] then [] else Values(ps[..|ps| - 1]) + [ps[|ps| - 1].val]
  }

  /** The entry for sql.SqlFunc that the call edits. */
  class SqlFunc<V> {
    var Sql: string
    var Args: seq<V>

    method DoPlaceHolder(query: Option<seq<(string, V)>>, f: ReplaceF)
      modifies this
      ensures query == None ==> Sql == old(Sql) && Args == old(Args)
      ensures query.Some? ==>
                var ps := Sort(Collect(query.value, old(Sql)));
                Sql == Passes(old(Sql), ps, f, |ps|) && Args == Values(ps)
    {
      if query == None { return; }
      var q := query.value;
      var indexM: seq<Para<V>> := [];
      for n := 0 to |q|
        invariant indexM == Collect(q[..n], Sql) && Sql == old(Sql)
      {
        assert q[..n + 1][..n] == q[..n];
        var replaceS := Holder(q[n].0);
        var i := Index(Sql, replaceS);
        if i != -1 { indexM := indexM + [Para(q[n].0, q[n].1, i)]; }
      }
      assert q[..|q|] == q;
      var ps := Sort(indexM);
      Args := [];
      for k := 0 to |ps|
        invariant Sql == Passes(old(Sql), ps, f, k) && Args == Values(ps[..k])
      {
        assert ps[..k + 1][..k] == ps[..k];
        Sql := ReplaceAll(Sql, ps[k].Key(), f(k, ps[k].Key()));
        Args := Args + [ps[k].val];
      }
      assert ps[..|ps|] == ps;
    }
  }

  // ---------------------------------------------------------------- the sorted holders

  ghost predicate DistinctNames<V>(query: seq<(string, V)>) {
    forall i, j :: 0 <= i < j < |query| ==> query[i].0 != query[j].0
  }

  ghost predicate Absent<V>(name: string, ps: seq<Para<V>>) { forall q :: q in ps ==> q.name != name }

  ghost predicate Distinct<V>(ps: seq<Para<V>>) { ps == [] || (Absent(ps[0].name, ps[1..]) && Distinct(ps[1..])) }

  ghost predicate Sorted<V>(ps: seq<Para<V>>) {
    ps == [] || ((forall q :: q in ps[1..] ==> ps[0].index <= q.index) && Sorted(ps[1..]))
  }

  lemma {:induction false} InOrder<V>(ps: seq<Para<V>>, i: nat, j: nat)
    requires i < j < |ps| && Sorted(ps) && Distinct(ps)
    ensures ps[i].index <= ps[j].index && ps[i].name != ps[j].name
  {
    if i == 0 { assert ps[j] == ps[1..][j - 1]; } else { InOrder(ps[1..], i - 1, j - 1); }
  }

  /** p is the entry of a named value that occurs in the query text. */
  ghost predicate FromQuery<V>(p: Para<V>, query: seq<(string, V)>, sql: string) {
    exists n :: 0 <= n < |query| && query[n] == (p.name, p.val) && p.index == Index(sql, Holder(query[n].0))
  }

  lemma {:induction false} CollectElement<V>(query: seq<(string, V)>, sql: string, p: Para<V>)
    ensures p in Collect(query, sql) <==> FromQuery(p, query, sql)
  {
    if query != [] {
      var n := |query| - 1;
      CollectElement(query[..n], sql, p);
      if FromQuery(p, query, sql) && !FromQuery(p, query[..n], sql) { assert query[n] == (p.name, p.val); }
    }
  }

  lemma {:induction false} CollectDistinct<V>(query: seq<(string, V)>, sql: string)
    requires DistinctNames(query)
    ensures Distinct(Collect(query, sql))
  {
    if query != [] {
      var n := |query| - 1;
      var c := Collect(query[..n], sql);
      CollectDistinct(query[..n], sql);
      forall p | p in c ensures p.name != query[n].0 { CollectElement(query[..n], sql, p); }
      assert c + [] == c;
      if Index(sql, Holder(query[n].0)) != -1 {
        DistinctAppend(c, Para(query[n].0, query[n].1, Index(sql, Holder(query[n].0))));
      }
    }
  }

  lemma {:induction false} DistinctAppend<V>(c: seq<Para<V>>, p: Para<V>)
    requires Distinct(c) && Absent(p.name, c)
    ensures Distinct(c + [p])
  {
    if c != [] {
      DistinctAppend(c[1..], p);
      assert (c + [p])[1..] == c[1..] + [p];
      assert c[0] in c;
    }
  }

  lemma {:induction false} InsertElements<V>(p: Para<V>, ps: seq<Para<V>>)
    ensures forall q :: q in Insert(p, ps) <==> q == p || q in ps
  {
    if !(ps == [] || p.index <= ps[0].index) {
      InsertElements(p, ps[1..]);
      assert ps == [ps[0]] + ps[1..];
    }
  }

  lemma {:induction false} InsertSorted<V>(p: Para<V>, ps: seq<Para<V>>)
    requires Sorted(ps)
    ensures Sorted(Insert(p, ps))
  {
    if ps == [] || p.index <= ps[0].index {
      assert ([p] + ps)[1..] == ps;
      assert ps != [] ==> ps == [ps[0]] + ps[1..];
    } else {
      InsertSorted(p, ps[1..]);
      InsertElements(p, ps[1..]);
      assert ([ps[0]] + Insert(p, ps[1..]))[1..] == Insert(p, ps[1..]);
    }
  }

  lemma {:induction false} InsertDistinct<V>(p: Para<V>, ps: seq<Para<V>>)
    requires Distinct(ps) && Absent(p.name, ps)
    ensures Distinct(Insert(p, ps))
  {
    if ps == [] || p.index <= ps[0].index {
      assert ([p] + ps)[1..] == ps;
    } else {
      var r := Insert(p, ps[1..]);
      InsertDistinct(p, ps[1..]);
      InsertElements(p, ps[1..]);
      assert Absent(ps[0].name, r) by { assert ps[0] in ps; }
      assert ([ps[0]] + r)[1..] == r;
    }
  }

  lemma {:induction false} SortElement<V>(ps: seq<Para<V>>, p: Para<V>)
    ensures p in Sort(ps) <==> p in ps
  {
    if ps != [] {
      SortElement(ps[1..], p);
      InsertElements(ps[0], Sort(ps[1..]));
      assert ps == [ps[0]] + ps[1..];
    }
  }

  lemma SortAbsent<V>(name: string, ps: seq<Para<V>>)
    requires Absent(name, ps)
    ensures Absent(name, Sort(ps))
  {
    forall q | q in Sort(ps) ensures q in ps { SortElement(ps, q); }
  }

  lemma {:induction false} SortSorted<V>(ps: seq<Para<V>>)
    requires Distinct(ps)
    ensures Sorted(Sort(ps)) && Distinct(Sort(ps))
  {
    if ps != [] {
      SortSorted(ps[1..]);
      InsertSorted(ps[0], Sort(ps[1..]));
      SortAbsent(ps[0].name, ps[1..]);
      InsertDistinct(ps[0], Sort(ps[1..]));
    }
  }

  // ---------------------------------------------------------------- one simultaneous substitution

  /** A name without braces and without the mark that starts every token. */
  predicate Plain(name: string, mark: char) { '{' !in name && '}' !in name && mark !in name }

  predicate Token(tok: string, mark: char) { tok != "" && tok[0] == mark && '{' !in tok }

  /** Distinct plain names and their tokens. */
  predicate Setup(names: seq<string>, toks: seq<string>, mark: char) {
    && |names| == |toks| && mark != '{' && mark != '}'
    && (forall j :: 0 <= j < |names| ==> Plain(names[j], mark))
    && (forall j :: 0 <= j < |toks| ==> Token(toks[j], mark))
    && (forall i, j :: 0 <= i < j < |names| ==> names[i] != names[j])
  }

  /** Which of the first k holders starts s; k if none does. */
  function Match(s: string, names: seq<string>, k: nat): (j: nat)
    requires k <= |names|
    ensures j <= k && (j < k ==> Holder(names[j]) <= s)
    ensures forall i :: 0 <= i < j ==> !(Holder(names[i]) <= s)
  {
    if k == 0 then 0
    else
      var j := Match(s, names, k - 1);
      if j < k - 1 then j else if Holder(names[k - 1]) <= s then k - 1 else k
  }

  /** s with the first k holders replaced, all at once, by one scan from the left. */
  function Subst(s: string, names: seq<string>, toks: seq<string>, k: nat): string
    requires k <= |names| == |toks|
    decreases |s|
  {
    if s == "" then ""
    else
      var j := Match(s, names, k);
      if j < k then toks[j] + Subst(s[|Holder(names[j])|..], names, toks, k)
      else [s[0]] + Subst(s[1..], names, toks, k)
  }

  lemma HoldersDiffer(a: string, b: string, mark: char, s: string)
    requires Plain(a, mark) && Plain(b, mark) && Holder(a) <= s && Holder(b) <= s
    ensures a == b
  {
    HolderLetters(a, s);
    HolderLetters(b, s);
    assert |a| == |b|;
    assert forall i :: 0 <= i < |a| ==> a[i] == s[i + 1] == b[i];
  }

  lemma MatchIs(s: string, names: seq<string>, toks: seq<string>, mark: char, k: nat, j: nat)
    requires Setup(names, toks, mark) && j < k <= |names| && Holder(names[j]) <= s
    ensures Match(s, names, k) == j
  {
    var m := Match(s, names, k);
    HoldersDiffer(names[m], names[j], mark, s);
  }

  lemma {:induction false} SubstNone(s: string, names: seq<string>, toks: seq<string>)
    requires |names| == |toks|
    ensures Subst(s, names, toks, 0) == s
  {
    if s != "" { SubstNone(s[1..], names, toks); }
  }

  lemma NoMatch(s: string, names: seq<string>, k: nat)
    requires s != "" && s[0] != '{' && k <= |names|
    ensures Match(s, names, k) == k
  {
    var j := Match(s, names, k);
    if j < k { HolderLetters(names[j], s); }
  }

  lemma FirstApart<T>(u: seq<T>, t: seq<T>)
    requires u != []
    ensures u + t == [u[0]] + (u[1..] + t)
  {
  }

  lemma SubstLetter(c: char, x: string, names: seq<string>, toks: seq<string>, k: nat)
    requires c != '{' && k <= |names| == |toks|
    ensures Subst([c] + x, names, toks, k) == [c] + Subst(x, names, toks, k)
  {
    NoMatch([c] + x, names, k);
    assert ([c] + x)[1..] == x;
  }

  /** Text without '{' passes through the scan. */
  lemma {:induction false} SubstLiteral(u: string, t: string, names: seq<string>, toks: seq<string>, k: nat)
    requires '{' !in u && k <= |names| == |toks|
    ensures Subst(u + t, names, toks, k) == u + Subst(t, names, toks, k)
  {
    if u == "" {
      assert u + t == t;
    } else {
      var v, x := u[1..], Subst(t, names, toks, k);
      SubstLiteral(v, t, names, toks, k);
      SubstLetter(u[0], v + t, names, toks, k);
      FirstApart(u, t);
      FirstApart(u, x);
    }
  }

  lemma {:induction false} ReplaceLiteral(u: string, t: string, name: string, new_: string)
    requires '{' !in u
    ensures ReplaceAll(u + t, Holder(name), new_) == u + ReplaceAll(t, Holder(name), new_)
  {
    if u == "" {
      assert u + t == t;
    } else {
      ReplaceLiteral(u[1..], t, name, new_);
      ReplaceLetter(u[0], u[1..] + t, name, new_);
      FirstApart(u, t);
      FirstApart(u, ReplaceAll(t, Holder(name), new_));
    }
  }

  lemma ReplaceLetter(c: char, t: string, name: string, new_: string)
    requires c != '{'
    ensures ReplaceAll([c] + t, Holder(name), new_) == [c] + ReplaceAll(t, Holder(name), new_)
  {
    AtStart([c] + t, Holder(name));
    HolderFirst(name, [c] + t);
    assert ([c] + t)[0] == c && ([c] + t)[1..] == t;
  }

  lemma HolderFirst(name: string, s: string)
    ensures Holder(name) <= s ==> s != "" && s[0] == '{'
  {
    if Holder(name) <= s { assert s[0] == Holder(name)[0]; }
  }

  /** Text without the mark at the start of the output was there before: tokens do not imitate it. */
  lemma {:induction false} NoImitation(w: string, t: string, names: seq<string>, toks: seq<string>, mark: char, k: nat)
    requires Setup(names, toks, mark) && k <= |names| && mark !in w && w <= Subst(t, names, toks, k)
    ensures w <= t
    decreases |w|
  {
    if w != "" {
      var j := Match(t, names, k);
      var rest := Subst(t[1..], names, toks, k);
      assert w[0] == Subst(t, names, toks, k)[0];
      assert j == k;
      assert w[1..] <= rest by { assert Subst(t, names, toks, k)[1..] == rest; }
      NoImitation(w[1..], t[1..], names, toks, mark, k);
      assert t == [t[0]] + t[1..] && w == [w[0]] + w[1..];
    }
  }

  lemma AtStart(s: string, sub: string)
    ensures At(s, 0, sub) <==> sub <= s
    ensures sub <= s ==> s == sub + s[|sub|..]
  {
  }

  /** One ReplaceAll pass extends the simultaneous substitution by one holder. */
  lemma {:induction false} OnePass(s: string, names: seq<string>, toks: seq<string>, mark: char, k: nat)
    requires Setup(names, toks, mark) && k < |names|
    ensures ReplaceAll(Subst(s, names, toks, k), Holder(names[k]), toks[k]) == Subst(s, names, toks, k + 1)
    decreases |s|
  {
    if s != "" {
      var j, h := Match(s, names, k), Holder(names[k]);
      if j < k {
        var rest := s[|Holder(names[j])|..];
        OnePass(rest, names, toks, mark, k);
        MatchIs(s, names, toks, mark, k + 1, j);
        ReplaceLiteral(toks[j], Subst(rest, names, toks, k), names[k], toks[k]);
      } else if h <= s {
        OnePass(s[|h|..], names, toks, mark, k);
        PassHere(s, names, toks, mark, k);
      } else {
        OnePass(s[1..], names, toks, mark, k);
        PassLetter(s, names, toks, mark, k);
      }
    }
  }

  lemma OtherUnmatched(t: string, names: seq<string>, mark: char, k: nat)
    requires k < |names| && (forall j :: 0 <= j < |names| ==> Plain(names[j], mark))
    requires forall i, j :: 0 <= i < j < |names| ==> names[i] != names[j]
    ensures Match(Holder(names[k]) + t, names, k) == k
  {
    var h := Holder(names[k]);
    var j := Match(h + t, names, k);
    assert h <= h + t;
    if j < k { HoldersDiffer(names[j], names[k], mark, h + t); }
  }

  lemma SubstOther(t: string, names: seq<string>, toks: seq<string>, mark: char, k: nat)
    requires Setup(names, toks, mark) && k < |names|
    ensures Subst(Holder(names[k]) + t, names, toks, k) == Holder(names[k]) + Subst(t, names, toks, k)
  {
    var h, u := Holder(names[k]), names[k] + "}";
    OtherUnmatched(t, names, mark, k);
    assert (h + t)[1..] == u + t && h == "{" + u;
    SubstLiteral(u, t, names, toks, k);
  }

  lemma PassHere(s: string, names: seq<string>, toks: seq<string>, mark: char, k: nat)
    requires Setup(names, toks, mark) && k < |names| && Holder(names[k]) <= s
    requires var rest := s[|Holder(names[k])|..];
             ReplaceAll(Subst(rest, names, toks, k), Holder(names[k]), toks[k]) == Subst(rest, names, toks, k + 1)
    ensures ReplaceAll(Subst(s, names, toks, k), Holder(names[k]), toks[k]) == Subst(s, names, toks, k + 1)
  {
    var h := Holder(names[k]);
    var rest := s[|h|..];
    var x := Subst(rest, names, toks, k);
    AtStart(s, h);
    SubstOther(rest, names, toks, mark, k);
    MatchIs(s, names, toks, mark, k + 1, k);
    AtStart(h + x, h);
    assert (h + x)[|h|..] == x;
  }

  lemma PassLetter(s: string, names: seq<string>, toks: seq<string>, mark: char, k: nat)
    requires Setup(names, toks, mark) && k < |names| && s != "" && Match(s, names, k) == k && !(Holder(names[k]) <= s)
    requires ReplaceAll(Subst(s[1..], names, toks, k), Holder(names[k]), toks[k]) == Subst(s[1..], names, toks, k + 1)
    ensures ReplaceAll(Subst(s, names, toks, k), Holder(names[k]), toks[k]) == Subst(s, names, toks, k + 1)
  {
    var h, x := Holder(names[k]), Subst(s[1..], names, toks, k);
    AtStart([s[0]] + x, h);
    assert ([s[0]] + x)[1..] == x;
    NotStarted(s, names, toks, mark, k);
  }

  lemma NotStarted(s: string, names: seq<string>, toks: seq<string>, mark: char, k: nat)
    requires Setup(names, toks, mark) && k < |names| && s != "" && !(Holder(names[k]) <= s)
    ensures !(Holder(names[k]) <= [s[0]] + Subst(s[1..], names, toks, k))
  {
    var h, u, x := Holder(names[k]), names[k] + "}", Subst(s[1..], names, toks, k);
    assert h == "{" + u && s == [s[0]] + s[1..];
    if h <= [s[0]] + x {
      assert u <= x by { assert ([s[0]] + x)[1..] == x && h[1..] == u; }
      NoImitation(u, s[1..], names, toks, mark, k);
    }
  }

  function Names<V>(ps: seq<Para<V>>): (ns: seq<string>)
    ensures |ns| == |ps| && forall k :: 0 <= k < |ps| ==> ns[k] == ps[k].name
  {
    seq(|ps|, (k: nat) requires k < |ps| => ps[k].name)
  }

  function Tokens<V>(ps: seq<Para<V>>, f: ReplaceF): (ts: seq<string>)
    ensures |ts| == |ps| && forall k :: 0 <= k < |ps| ==> ts[k] == f(k, ps[k].Key())
  {
    seq(|ps|, (k: nat) requires k < |ps| => f(k, ps[k].Key()))
  }

  /** The sorted run of ReplaceAll passes is one simultaneous substitution. */
  lemma PassesAreSubst<V>(sql: string, ps: seq<Para<V>>, f: ReplaceF, mark: char, k: nat)
    requires k <= |ps| && Setup(Names(ps), Tokens(ps, f), mark)
    ensures Passes(sql, ps, f, k) == Subst(sql, Names(ps), Tokens(ps, f), k)
  {
    PassesFrom(sql, ps, f, mark, Names(ps), Tokens(ps, f), k);
  }

  /** Name and token j are those of the j-th entry. */
  predicate Fits<V>(ps: seq<Para<V>>, f: ReplaceF, names: seq<string>, toks: seq<string>, j: nat)
    requires j < |ps| == |names| == |toks|
  {
    Holder(names[j]) == ps[j].Key() && toks[j] == f(j, ps[j].Key())
  }

  lemma {:induction false} PassesFrom<V>(sql: string, ps: seq<Para<V>>, f: ReplaceF, mark: char, names: seq<string>,
                                         toks: seq<string>, k: nat)
    requires k <= |ps| == |names| && Setup(names, toks, mark)
    requires forall j :: 0 <= j < |ps| ==> Fits(ps, f, names, toks, j)
    ensures Passes(sql, ps, f, k) == Subst(sql, names, toks, k)
  {
    if k == 0 {
      SubstNone(sql, names, toks);
    } else {
      PassesFrom(sql, ps, f, mark, names, toks, k - 1);
      assert Fits(ps, f, names, toks, k - 1);
      NextPass(sql, ps, f, mark, names, toks, k - 1, k);
    }
  }

  lemma NextPass<V>(sql: string, ps: seq<Para<V>>, f: ReplaceF, mark: char, names: seq<string>, toks: seq<string>, k: nat,
                    n: nat)
    requires k < |ps| == |names| && n == k + 1 && Setup(names, toks, mark)
    requires Fits(ps, f, names, toks, k) && Passes(sql, ps, f, k) == Subst(sql, names, toks, k)
    ensures Passes(sql, ps, f, n) == Subst(sql, names, toks, n)
  {
    OnePass(sql, names, toks, mark, k);
  }

  // ---------------------------------------------------------------- what the query means

  datatype Piece<V> = Letter(c: char) | Value(v: V)

  /** The named query with every holder standing for its value. */
  function Named<V>(s: string, names: seq<string>, vals: seq<V>): seq<Piece<V>>
    requires |names| == |vals|
    decreases |s|
  {
    if s == "" then []
    else
      var j := Match(s, names, |names|);
      if j < |names| then [Value(vals[j])] + Named(s[|Holder(names[j])|..], names, vals)
      else [Letter(s[0])] + Named(s[1..], names, vals)
  }

  /** How many digits start s. */
  function Digits(s: string): (d: nat)
    ensures d <= |s| && forall k :: 0 <= k < d ==> IsDigit(s[k])
    ensures d < |s| ==> !IsDigit(s[d])
  {
    if s == "" || !IsDigit(s[0]) then 0 else 1 + Digits(s[1..])
  }

  /** The argument a numbered token at the start of s refers to: 0 if there is no such token. */
  function Refers(s: string, mark: char, count: nat): (n: nat)
    requires s != ""
    ensures n <= count
  {
    var d := Digits(s[1..]);
    if s[0] != mark || d == 0 || Number(s[1..][..d]) > count then 0 else Number(s[1..][..d])
  }

  /** The positional query as a database reads it: mark and digits are the argument of that number. */
  function Bind<V>(s: string, mark: char, args: seq<V>): seq<Piece<V>>
    decreases |s|
  {
    if s == "" then []
    else
      var n := Refers(s, mark, |args|);
      if n > 0 then [Value(args[n - 1])] + Bind(s[1 + Digits(s[1..])..], mark, args)
      else [Letter(s[0])] + Bind(s[1..], mark, args)
  }

  /** No holder is followed by a digit, and no numbered token was there from the start. */
  predicate Clear(s: string, names: seq<string>, mark: char)
    decreases |s|
  {
    s == "" ||
    var j := Match(s, names, |names|);
    if j < |names| then
      var rest := s[|Holder(names[j])|..];
      Digits(rest) == 0 && Clear(rest, names, mark)
    else Refers(s, mark, |names|) == 0 && Clear(s[1..], names, mark)
  }

  predicate NumberedTokens(toks: seq<string>, mark: char) {
    forall j :: 0 <= j < |toks| ==> toks[j] == [mark] + Decimal(j + 1)
  }

  lemma {:induction false} DigitsSplit(u: string, t: string)
    requires forall k :: 0 <= k < |u| ==> IsDigit(u[k])
    ensures Digits(u + t) == |u| + Digits(t)
  {
    if u == "" {
      assert u + t == t;
    } else {
      assert (u + t)[1..] == u[1..] + t && (u + t)[0] == u[0];
      DigitsSplit(u[1..], t);
    }
  }

  /** The scan leaves leading digits alone and puts none in front. */
  lemma {:induction false} DigitsKept(t: string, names: seq<string>, toks: seq<string>, mark: char)
    requires Setup(names, toks, mark) && !IsDigit(mark)
    ensures var x := Subst(t, names, toks, |names|);
            Digits(x) == Digits(t) && x[..Digits(t)] == t[..Digits(t)]
  {
    if t != "" {
      var x := Subst(t, names, toks, |names|);
      var j := Match(t, names, |names|);
      if j < |names| {
        HolderLetters(names[j], t);
        assert x[0] == mark;
      } else {
        DigitsKept(t[1..], names, toks, mark);
        DigitsCons(t[0], t[1..], Subst(t[1..], names, toks, |names|));
        assert t == [t[0]] + t[1..];
      }
    }
  }

  lemma DigitsCons(c: char, t: string, x: string)
    requires Digits(x) == Digits(t) && x[..Digits(t)] == t[..Digits(t)]
    ensures Digits([c] + x) == Digits([c] + t) && ([c] + x)[..Digits([c] + t)] == ([c] + t)[..Digits([c] + t)]
  {
    assert ([c] + x)[1..] == x && ([c] + t)[1..] == t;
    if IsDigit(c) {
      var d := Digits(t);
      assert ([c] + x)[..d + 1] == [c] + x[..d] && ([c] + t)[..d + 1] == [c] + t[..d];
    }
  }

  lemma Slices<T>(c: T, u: seq<T>, x: seq<T>, d: nat)
    requires d <= |x|
    ensures ([c] + u + x)[1..] == u + x && (u + x)[..|u|] == u && ([c] + u + x)[1 + |u| + d..] == x[d..]
  {
  }

  /** Where the number of a token ends. */
  lemma TokenDigits(u: string, x: string, mark: char)
    requires forall k :: 0 <= k < |u| ==> IsDigit(u[k])
    ensures var s := [mark] + u + x;
            && s[0] == mark && s[1..] == u + x && Digits(s[1..]) == |u| + Digits(x)
            && s[1..][..|u|] == u && s[1 + |u| + Digits(x)..] == x[Digits(x)..]
  {
    var s := [mark] + u + x;
    Slices(mark, u, x, Digits(x));
    assert Digits(s[1..]) == |u| + Digits(x) by { DigitsSplit(u, x); }
  }

  /** Reading "$k" in front of text that does not start with a digit gives argument k and then the text. */
  lemma BindToken<V>(k: nat, x: string, mark: char, args: seq<V>)
    requires k < |args| && Digits(x) == 0
    ensures Bind([mark] + Decimal(k + 1) + x, mark, args) == [Value(args[k])] + Bind(x, mark, args)
  {
    var s := [mark] + Decimal(k + 1) + x;
    TokenDigits(Decimal(k + 1), x, mark);
    NumberOfDecimal(k + 1);
    assert Refers(s, mark, |args|) == k + 1;
    assert x[0..] == x;
  }

  lemma SecondDiffers<T>(a: T, x: seq<T>, b: T, y: seq<T>)
    requires y != [] && (x == [] || x[0] != y[0])
    ensures [a] + x != [b] + y
  {
    assert ([a] + x)[1..] == x && ([b] + y)[1..] == y;
  }

  /** With a digit behind the token the reading goes wrong, whatever argument it finds. */
  lemma BindTokenDigit<V>(u: string, x: string, mark: char, args: seq<V>, v: V, tail: seq<Piece<V>>)
    requires Digits(x) > 0 && tail != [] && tail[0] == Letter(x[0])
    requires forall k :: 0 <= k < |u| ==> IsDigit(u[k])
    ensures Bind([mark] + u + x, mark, args) != [Value(v)] + tail
  {
    TokenDigits(u, x, mark);
    BehindDigits(x, mark, args);
    BindStep([mark] + u + x, mark, args, x[Digits(x)..], Value(v), tail);
  }

  /** A reading whose second piece is another one than tail's first. */
  lemma BindStep<V>(s: string, mark: char, args: seq<V>, rest: string, v: Piece<V>, tail: seq<Piece<V>>)
    requires s != "" && v.Value? && tail != [] && 1 + Digits(s[1..]) <= |s| && s[1 + Digits(s[1..])..] == rest
    requires var got := Bind(rest, mark, args); got == [] || got[0] != tail[0]
    ensures Bind(s, mark, args) != [v] + tail
  {
    var n := Refers(s, mark, |args|);
    if n > 0 {
      SecondDiffers(Value(args[n - 1]), Bind(rest, mark, args), v, tail);
    } else {
      assert Bind(s, mark, args)[0] == Letter(s[0]) && ([v] + tail)[0] == v;
    }
  }

  lemma BehindDigits<V>(x: string, mark: char, args: seq<V>)
    requires Digits(x) > 0
    ensures var got := Bind(x[Digits(x)..], mark, args);
            got == [] || got[0] != Letter(x[0])
  {
    var rest := x[Digits(x)..];
    BindHead(rest, mark, args);
    if rest != "" { assert rest[0] == x[Digits(x)]; }
  }

  lemma BindHead<V>(s: string, mark: char, args: seq<V>)
    ensures s == "" ==> Bind(s, mark, args) == []
    ensures s != "" ==> Bind(s, mark, args) != [] && (Bind(s, mark, args)[0].Letter? ==> Bind(s, mark, args)[0].c == s[0])
  {
  }

  /**
   * Binding the argument list into the numbered tokens gives back the named query exactly when the query
   * is clear: for any multiplicity of any holder.
   */
  lemma {:induction false} BindExactly<V>(s: string, names: seq<string>, toks: seq<string>, mark: char, vals: seq<V>)
    requires Setup(names, toks, mark) && NumberedTokens(toks, mark) && !IsDigit(mark) && |vals| == |names|
    ensures Bind(Subst(s, names, toks, |names|), mark, vals) == Named(s, names, vals) <==> Clear(s, names, mark)
    decreases |s|
  {
    if s != "" {
      var j := Match(s, names, |names|);
      if j < |names| {
        BindExactly(s[|Holder(names[j])|..], names, toks, mark, vals);
        BindAtHolder(s, names, toks, mark, vals);
      } else {
        BindExactly(s[1..], names, toks, mark, vals);
        BindAtLetter(s, names, toks, mark, vals);
      }
    }
  }

  lemma BindAtHolder<V>(s: string, names: seq<string>, toks: seq<string>, mark: char, vals: seq<V>)
    requires Setup(names, toks, mark) && NumberedTokens(toks, mark) && !IsDigit(mark) && |vals| == |names|
    requires s != "" && Match(s, names, |names|) < |names|
    requires var rest := s[|Holder(names[Match(s, names, |names|)])|..];
             Bind(Subst(rest, names, toks, |names|), mark, vals) == Named(rest, names, vals) <==> Clear(rest, names, mark)
    ensures Bind(Subst(s, names, toks, |names|), mark, vals) == Named(s, names, vals) <==> Clear(s, names, mark)
  {
    var j := Match(s, names, |names|);
    var rest := s[|Holder(names[j])|..];
    var x := Subst(rest, names, toks, |names|);
    DigitsKept(rest, names, toks, mark);
    if Digits(rest) == 0 {
      BindToken(j, x, mark, vals);
      SameTail(Value(vals[j]), Bind(x, mark, vals), Named(rest, names, vals));
    } else {
      NoMatch(rest, names, |names|);
      assert x[0] == x[..Digits(rest)][0] == rest[..Digits(rest)][0] == rest[0];
      BindTokenDigit(Decimal(j + 1), x, mark, vals, vals[j], Named(rest, names, vals));
    }
  }

  lemma SameTail<T>(a: T, x: seq<T>, y: seq<T>)
    ensures [a] + x == [a] + y <==> x == y
  {
    assert ([a] + x)[1..] == x && ([a] + y)[1..] == y;
  }

  lemma BindAtLetter<V>(s: string, names: seq<string>, toks: seq<string>, mark: char, vals: seq<V>)
    requires Setup(names, toks, mark) && NumberedTokens(toks, mark) && !IsDigit(mark) && |vals| == |names|
    requires s != "" && Match(s, names, |names|) == |names|
    requires Bind(Subst(s[1..], names, toks, |names|), mark, vals) == Named(s[1..], names, vals) <==> Clear(s[1..], names, mark)
    ensures Bind(Subst(s, names, toks, |names|), mark, vals) == Named(s, names, vals) <==> Clear(s, names, mark)
  {
    var x := Subst(s[1..], names, toks, |names|);
    DigitsKept(s[1..], names, toks, mark);
    assert Subst(s, names, toks, |names|)[1..] == x;
    assert Refers([s[0]] + x, mark, |names|) == Refers(s, mark, |names|);
    if Refers(s, mark, |names|) == 0 {
      SameTail(Letter(s[0]), Bind(x, mark, vals), Named(s[1..], names, vals));
    }
  }

  // ---------------------------------------------------------------- where holders stand

  lemma AtBrace(s: string, i: nat, name: string)
    requires At(s, i, Holder(name))
    ensures s[i] == '{'
  {
    assert s[i..i + |Holder(name)|][0] == s[i];
  }

  /** A holder cannot start inside another one. */
  lemma NoOverlap(s: string, a: string, b: string, mark: char, i: nat)
    requires Plain(a, mark) && Holder(a) <= s && 0 < i < |Holder(a)|
    ensures !At(s, i, Holder(b))
  {
    HolderLetters(a, s);
    if At(s, i, Holder(b)) { AtBrace(s, i, b); }
  }

  function First(sql: string, names: seq<string>, j: nat): int
    requires j < |names|
  {
    Index(sql, Holder(names[j]))
  }

  /** Every holder occurs, in this order. */
  ghost predicate Ordered(sql: string, names: seq<string>) {
    && (forall j :: 0 <= j < |names| ==> First(sql, names, j) >= 0)
    && (forall i, j :: 0 <= i < j < |names| ==> First(sql, names, i) < First(sql, names, j))
  }

  lemma AtSuffix(s: string, o: nat, k: nat, sub: string)
    requires o <= k <= |s|
    ensures At(s, k, sub) <==> At(s[o..], k - o, sub)
  {
    if k + |sub| <= |s| { assert s[o..][k - o..k - o + |sub|] == s[k..k + |sub|]; }
  }

  // ---------------------------------------------------------------- main results

  function QueryNames<V>(query: seq<(string, V)>): (ns: seq<string>)
    ensures |ns| == |query| && forall k :: 0 <= k < |query| ==> ns[k] == query[k].0
  {
    seq(|query|, (k: nat) requires k < |query| => query[k].0)
  }

  function QueryValues<V>(query: seq<(string, V)>): (vs: seq<V>)
    ensures |vs| == |query| && forall k :: 0 <= k < |query| ==> vs[k] == query[k].1
  {
    seq(|query|, (k: nat) requires k < |query| => query[k].1)
  }

  /** What the caller wrote: the query text with every "{name}" standing for its value. */
  function Meaning<V>(sql: string, query: seq<(string, V)>): seq<Piece<V>> {
    Named(sql, QueryNames(query), QueryValues(query))
  }

  function Holders<V>(query: seq<(string, V)>, sql: string): seq<Para<V>> { Sort(Collect(query, sql)) }

  /** Distinct plain names: the keys of a map or the fields of a struct. */
  ghost predicate Plainly<V>(query: seq<(string, V)>, mark: char) {
    DistinctNames(query) && mark != '{' && mark != '}' && forall n :: 0 <= n < |query| ==> Plain(query[n].0, mark)
  }

  /** The holders are exactly the named values that occur, and the k-th is the k-th by first occurrence. */
  lemma HoldersFound<V>(query: seq<(string, V)>, sql: string)
    requires DistinctNames(query)
    ensures var ps := Holders(query, sql);
            && (forall p :: p in ps <==> FromQuery(p, query, sql))
            && (forall i, j :: 0 <= i < j < |ps| ==> ps[i].index <= ps[j].index && ps[i].name != ps[j].name)
  {
    var ps := Holders(query, sql);
    forall p ensures p in ps <==> FromQuery(p, query, sql) {
      SortElement(Collect(query, sql), p);
      CollectElement(query, sql, p);
    }
    CollectDistinct(query, sql);
    SortSorted(Collect(query, sql));
    forall i, j | 0 <= i < j < |ps| ensures ps[i].index <= ps[j].index && ps[i].name != ps[j].name { InOrder(ps, i, j); }
  }

  lemma HoldersSetup<V>(query: seq<(string, V)>, sql: string, f: ReplaceF, mark: char)
    requires Plainly(query, mark) && forall k, h :: Token(f(k, h), mark)
    ensures var ps := Holders(query, sql); Setup(Names(ps), Tokens(ps, f), mark) && Ordered(sql, Names(ps))
  {
    var ps := Holders(query, sql);
    HoldersFound(query, sql);
    forall j | 0 <= j < |ps| ensures Plain(ps[j].name, mark) && First(sql, Names(ps), j) == ps[j].index {
      assert FromQuery(ps[j], query, sql);
    }
    forall i, j | 0 <= i < j < |ps| ensures First(sql, Names(ps), i) < First(sql, Names(ps), j) {
      if ps[i].index == ps[j].index { SamePlace(sql, ps[i].name, ps[j].name, mark, ps[i].index); }
    }
  }

  lemma SamePlace(sql: string, a: string, b: string, mark: char, i: nat)
    requires Plain(a, mark) && Plain(b, mark) && At(sql, i, Holder(a)) && At(sql, i, Holder(b))
    ensures a == b
  {
    AtSuffix(sql, i, i, Holder(a));
    AtSuffix(sql, i, i, Holder(b));
    AtStart(sql[i..], Holder(a));
    AtStart(sql[i..], Holder(b));
    HoldersDiffer(a, b, mark, sql[i..]);
  }

  /** The passes of DoPlaceHolder, in sorted order, amount to one simultaneous substitution. */
  lemma Substitution<V>(query: seq<(string, V)>, sql: string, f: ReplaceF, mark: char)
    requires Plainly(query, mark) && forall k, h :: Token(f(k, h), mark)
    ensures var ps := Holders(query, sql); Passes(sql, ps, f, |ps|) == Subst(sql, Names(ps), Tokens(ps, f), |ps|)
  {
    var ps := Holders(query, sql);
    HoldersSetup(query, sql, f, mark);
    PassesAreSubst(sql, ps, f, mark, |ps|);
  }

  /** At the start of s both lists of names see the same holder with the same value, or none. */
  predicate Agree<V(==)>(ps: seq<Para<V>>, query: seq<(string, V)>, s: string) {
    var i, j := Match(s, Names(ps), |ps|), Match(s, QueryNames(query), |query|);
    if j < |query| then i < |ps| && ps[i].name == query[j].0 && ps[i].val == query[j].1 else i == |ps|
  }

  /** One step of the two readings. */
  lemma NamedSame<V>(ps: seq<Para<V>>, query: seq<(string, V)>, s: string)
    requires s != "" && Agree(ps, query, s)
    requires var rest := s[Pace(query, s)..];
      Named(rest, Names(ps), Values(ps)) == Named(rest, QueryNames(query), QueryValues(query))
    ensures Named(s, Names(ps), Values(ps)) == Named(s, QueryNames(query), QueryValues(query))
  {
    var i, j := Match(s, Names(ps), |ps|), Match(s, QueryNames(query), |query|);
    NamedStep(s, Names(ps), Values(ps), i);
    NamedStep(s, QueryNames(query), QueryValues(query), j);
  }

  /** How far both readings go in one step. */
  function Pace<V>(query: seq<(string, V)>, s: string): (d: nat)
    requires s != ""
    ensures 0 < d <= |s|
  {
    var j := Match(s, QueryNames(query), |query|);
    if j < |query| then |Holder(query[j].0)| else 1
  }

  predicate AgreeAlong<V(==)>(ps: seq<Para<V>>, query: seq<(string, V)>, s: string)
    decreases |s|
  {
    s == "" || (Agree(ps, query, s) && AgreeAlong(ps, query, s[Pace(query, s)..]))
  }

  lemma {:induction false} NamedAgrees<V>(ps: seq<Para<V>>, query: seq<(string, V)>, s: string)
    requires AgreeAlong(ps, query, s)
    ensures Named(s, Names(ps), Values(ps)) == Named(s, QueryNames(query), QueryValues(query))
    decreases |s|
  {
    if s != "" {
      NamedAgrees(ps, query, s[Pace(query, s)..]);
      NamedSame(ps, query, s);
    }
  }

  lemma {:induction false} HoldersAgree<V>(query: seq<(string, V)>, sql: string, mark: char, ps: seq<Para<V>>, o: nat)
    requires Plainly(query, mark) && ps == Holders(query, sql) && o <= |sql|
    ensures AgreeAlong(ps, query, sql[o..])
    decreases |sql| - o
  {
    if o < |sql| {
      SameMatch(query, sql, mark, ps, o);
      var d := Pace(query, sql[o..]);
      HoldersAgree(query, sql, mark, ps, o + d);
      assert sql[o..][d..] == sql[o + d..];
    }
  }

  lemma NamedStep<V>(s: string, names: seq<string>, vals: seq<V>, j: nat)
    requires s != "" && |names| == |vals| && j == Match(s, names, |names|)
    ensures Named(s, names, vals)
            == if j < |names| then [Value(vals[j])] + Named(s[|Holder(names[j])|..], names, vals)
               else [Letter(s[0])] + Named(s[1..], names, vals)
  {
  }

  /** Nothing is lost by leaving out the names that do not occur. */
  lemma MeaningFromHolders<V>(query: seq<(string, V)>, sql: string, mark: char)
    requires Plainly(query, mark)
    ensures var ps := Holders(query, sql); Named(sql, Names(ps), Values(ps)) == Meaning(sql, query)
  {
    HoldersAgree(query, sql, mark, Holders(query, sql), 0);
    assert sql[0..] == sql;
    NamedAgrees(Holders(query, sql), query, sql);
  }

  /** At any place both readings see the same holder, or none. */
  lemma SameMatch<V>(query: seq<(string, V)>, sql: string, mark: char, ps: seq<Para<V>>, o: nat)
    requires Plainly(query, mark) && ps == Holders(query, sql) && o < |sql|
    ensures Agree(ps, query, sql[o..])
  {
    var s := sql[o..];
    var i, j := Match(s, Names(ps), |ps|), Match(s, QueryNames(query), |query|);
    HoldersFound(query, sql);
    assert i < |ps| ==> FromQuery(ps[i], query, sql);
    if j < |query| {
      var k := OccursInHolders(query, sql, o, j);
      HoldersDiffer(ps[i].name, query[j].0, mark, s) by {
        assert Holder(ps[k].name) <= s;
        assert i <= k;
      }
    }
  }

  lemma OccursInHolders<V>(query: seq<(string, V)>, sql: string, o: nat, j: nat) returns (k: nat)
    requires o < |sql| && j < |query| && Holder(query[j].0) <= sql[o..]
    ensures var ps := Holders(query, sql); k < |ps| && ps[k].name == query[j].0 && ps[k].val == query[j].1
  {
    var ps := Holders(query, sql);
    AtStart(sql[o..], Holder(query[j].0));
    AtSuffix(sql, o, o, Holder(query[j].0));
    var p := Para(query[j].0, query[j].1, Index(sql, Holder(query[j].0)));
    assert FromQuery(p, query, sql);
    CollectElement(query, sql, p);
    SortElement(Collect(query, sql), p);
    k :| 0 <= k < |ps| && ps[k] == p;
  }

  /** The mark and the number of the argument, as PlaceHolderB and PlaceHolderC write them. */
  ghost predicate Numbers(f: ReplaceF, mark: char) {
    !IsDigit(mark) && forall k: nat, h :: f(k, h) == [mark] + Decimal(k + 1)
  }

  lemma MarksOfStyles()
    ensures Numbers(PlaceHolderB, '$') && Numbers(PlaceHolderC, ':')
  {
  }

  /**
   * "$n" and ":n": binding the argument list into the rewritten query gives back what the caller wrote,
   * however often each holder occurs, if and only if the query is clear.
   */
  lemma NumberedRoundTrip<V>(query: seq<(string, V)>, sql: string, f: ReplaceF, mark: char)
    requires Numbers(f, mark) && Plainly(query, mark)
    ensures var ps := Holders(query, sql);
            Bind(Passes(sql, ps, f, |ps|), mark, Values(ps)) == Meaning(sql, query) <==> Clear(sql, Names(ps), mark)
  {
    var ps := Holders(query, sql);
    assert forall k, h :: Token(f(k, h), mark) by { NumberTokens(f, mark); }
    HoldersSetup(query, sql, f, mark);
    Substitution(query, sql, f, mark);
    BindExactly(sql, Names(ps), Tokens(ps, f), mark, Values(ps));
    MeaningFromHolders(query, sql, mark);
    assert sql[0..] == sql;
  }

  lemma NumberTokens(f: ReplaceF, mark: char)
    requires Numbers(f, mark) && mark != '{'
    ensures forall k, h :: Token(f(k, h), mark)
  {
    forall k: nat, h: string ensures Token(f(k, h), mark) {
      assert f(k, h) == [mark] + Decimal(k + 1);
      assert '{' !in Decimal(k + 1);
    }
  }

  /** A digit right behind a holder runs into its number: "{a}0" becomes "$10", ... */
  lemma UnclearPasses()
    ensures Passes("{a}0", [Para("a", 7, 0)], PlaceHolderB, 1) == "$10"
  {
    assert Holder("a") == "{a}" && Decimal(1) == "1" && At("{a}0", 0, "{a}");
    assert "{a}0"[3..] == "0" && "0"[1..] == "";
    assert ReplaceAll("0", "{a}", "$1") == "0";
    assert ReplaceAll("{a}0", "{a}", "$1") == "$1" + "0";
  }

  /** ... and such a query is not clear. */
  lemma UnclearExample()
    ensures !Clear("{a}0", ["a"], '$')
  {
    assert Holder("a") == "{a}" && "{a}0"[3..] == "0";
    assert Match("{a}0", ["a"], 1) == 0 && Digits("0") == 1;
  }
}
