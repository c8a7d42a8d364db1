/** SqlTx.DoPlaceHolder with bare "?" tokens: when taking the arguments in turn gives back the named query. */
module PlaceHolderNext {
  import opened Util
  import opened PlaceHolder

  /** The query as a database reads bare "?" tokens: each takes the next argument. */
  function BindNext<V>(s: string, args: seq<V>, n: nat): seq<Piece<V>> {
    if s == "" then []
    else if s[0] == '?' && n < |args| then [Value(args[n])] + BindNext(s[1..], args, n + 1)
    else [Letter(s[0])] + BindNext(s[1..], args, n)
  }

  /** The scan meets holder n first, then n + 1, and so on: none comes back. */
  predicate InTurn(s: string, names: seq<string>, n: nat)
    decreases |s|
  {
    s == "" ||
    var j := Match(s, names, |names|);
    if j < |names| then j == n && InTurn(s[|Holder(names[j])|..], names, n + 1)
    else InTurn(s[1..], names, n)
  }

  predicate QuestionMarks(toks: seq<string>) { forall j :: 0 <= j < |toks| ==> toks[j] == "?" }

  /** Holders are met in turn, and no "?" of the query's own is met while arguments are left. */
  predicate ClearNext(s: string, names: seq<string>, n: nat)
    decreases |s|
  {
    s == "" ||
    var j := Match(s, names, |names|);
    if j < |names| then j == n && ClearNext(s[|Holder(names[j])|..], names, n + 1)
    else (s[0] == '?' ==> n >= |names|) && ClearNext(s[1..], names, n)
  }

  lemma {:induction false} ClearInTurn(s: string, names: seq<string>, n: nat)
    requires ClearNext(s, names, n)
    ensures InTurn(s, names, n)
    decreases |s|
  {
    if s != "" {
      var j := Match(s, names, |names|);
      if j < |names| { ClearInTurn(s[|Holder(names[j])|..], names, n + 1); } else { ClearInTurn(s[1..], names, n); }
    }
  }

  lemma FirstLetter(c: char, x: string)
    ensures ([c] + x)[0] == c && ([c] + x)[1..] == x
  {
  }

  /** A "?" in front takes the next argument, if one is left. */
  lemma TakesNext<V>(x: string, vals: seq<V>, n: nat)
    ensures BindNext("?" + x, vals, n)
            == if n < |vals| then [Value(vals[n])] + BindNext(x, vals, n + 1) else [Letter('?')] + BindNext(x, vals, n)
  {
    FirstLetter('?', x);
  }

  lemma HeadsDiffer<T>(a: T, x: seq<T>, b: T, y: seq<T>)
    ensures [a] + x == [b] + y <==> a == b && x == y
  {
    assert ([a] + x)[0] == a && ([b] + y)[0] == b && ([a] + x)[1..] == x && ([b] + y)[1..] == y;
  }

  predicate DistinctValues<V(==)>(vals: seq<V>) { forall i, j :: 0 <= i < j < |vals| ==> vals[i] != vals[j] }

  /** At a holder: right when it is the one whose turn it is, and with distinct values only then. */
  lemma NextAtHolder<V>(x: string, vals: seq<V>, n: nat, j: nat, rest: seq<Piece<V>>)
    requires j < |vals|
    ensures j == n && BindNext(x, vals, n + 1) == rest ==> BindNext("?" + x, vals, n) == [Value(vals[j])] + rest
    ensures DistinctValues(vals) && BindNext("?" + x, vals, n) == [Value(vals[j])] + rest ==>
              j == n && BindNext(x, vals, n + 1) == rest
  {
    TakesNext(x, vals, n);
    if n < |vals| {
      HeadsDiffer(Piece.Value(vals[n]), BindNext(x, vals, n + 1), Piece.Value(vals[j]), rest);
    } else {
      HeadsDiffer(Piece<V>.Letter('?'), BindNext(x, vals, n), Piece.Value(vals[j]), rest);
    }
  }

  /** At a letter: wrong exactly at a "?" with an argument left. */
  lemma NextAtLetter<V>(c: char, x: string, vals: seq<V>, n: nat, rest: seq<Piece<V>>)
    ensures BindNext([c] + x, vals, n) == [Letter(c)] + rest <==> (c == '?' ==> n >= |vals|) && BindNext(x, vals, n) == rest
  {
    FirstLetter(c, x);
    if c == '?' && n < |vals| {
      HeadsDiffer(Piece.Value(vals[n]), BindNext(x, vals, n + 1), Letter(c), rest);
    } else {
      HeadsDiffer(Letter(c), BindNext(x, vals, n), Letter(c), rest);
    }
  }

  /** Reading the scanned query is right when it is clear, and with distinct values only then. */
  lemma {:induction false} BindNextExactly<V>(s: string, names: seq<string>, toks: seq<string>, vals: seq<V>, n: nat)
    requires |names| == |toks| == |vals| && QuestionMarks(toks)
    ensures ClearNext(s, names, n) ==> BindNext(Subst(s, names, toks, |names|), vals, n) == Named(s, names, vals)
    ensures DistinctValues(vals) && BindNext(Subst(s, names, toks, |names|), vals, n) == Named(s, names, vals) ==>
              ClearNext(s, names, n)
    decreases |s|
  {
    if s != "" {
      var j := Match(s, names, |names|);
      if j < |names| {
        var rest := s[|Holder(names[j])|..];
        BindNextExactly(rest, names, toks, vals, n + 1);
        NextAtHolder(Subst(rest, names, toks, |names|), vals, n, j, Named(rest, names, vals));
      } else {
        BindNextExactly(s[1..], names, toks, vals, n);
        NextAtLetter(s[0], Subst(s[1..], names, toks, |names|), vals, n, Named(s[1..], names, vals));
      }
    }
  }

  // ---------------------------------------------------------------- what clear means for the text

  /** No holder occurs at two places. */
  ghost predicate Once(s: string, names: seq<string>) {
    forall j, i, k :: 0 <= j < |names| && 0 <= i < k <= |s| && At(s, i, Holder(names[j])) ==> !At(s, k, Holder(names[j]))
  }

  /** Exactly the holders from n on first occur at offset o or later. */
  ghost predicate Ahead(sql: string, names: seq<string>, o: nat, n: nat) {
    && o <= |sql| && n <= |names| && Ordered(sql, names)
    && (forall j :: 0 <= j < |names| ==> (j >= n <==> First(sql, names, j) >= o))
  }

  lemma FirstHere(sql: string, names: seq<string>, o: nat, j: nat)
    requires o <= |sql| && j < |names| && Once(sql, names) && Holder(names[j]) <= sql[o..]
    ensures First(sql, names, j) == o
  {
    AtStart(sql[o..], Holder(names[j]));
    AtSuffix(sql, o, o, Holder(names[j]));
  }

  lemma FirstNotHere(sql: string, names: seq<string>, o: nat, j: nat)
    requires o <= |sql| && j < |names| && !(Holder(names[j]) <= sql[o..])
    ensures First(sql, names, j) != o
  {
    AtStart(sql[o..], Holder(names[j]));
    AtSuffix(sql, o, o, Holder(names[j]));
  }

  lemma FirstBehind(sql: string, names: seq<string>, toks: seq<string>, mark: char, o: nat, j: nat, i: nat)
    requires Setup(names, toks, mark) && o <= |sql| && j < |names| && i < |names| && Holder(names[j]) <= sql[o..]
    requires First(sql, names, i) > o
    ensures First(sql, names, i) >= o + |Holder(names[j])|
  {
    var k := First(sql, names, i);
    if k < o + |Holder(names[j])| {
      NoOverlap(sql[o..], names[j], names[i], mark, k - o);
      AtSuffix(sql, o, k, Holder(names[i]));
    }
  }

  lemma AheadOfHolder(sql: string, names: seq<string>, toks: seq<string>, mark: char, o: nat, n: nat, j: nat)
    requires Setup(names, toks, mark) && Once(sql, names) && Ahead(sql, names, o, n)
    requires j < |names| && Holder(names[j]) <= sql[o..]
    ensures j == n && Ahead(sql, names, o + |Holder(names[j])|, n + 1)
  {
    FirstHere(sql, names, o, j);
    assert First(sql, names, n) >= o;
    forall i | n < i < |names| ensures First(sql, names, i) >= o + |Holder(names[j])| {
      FirstBehind(sql, names, toks, mark, o, j, i);
    }
  }

  lemma AheadOfLetter(sql: string, names: seq<string>, o: nat, n: nat)
    requires Ahead(sql, names, o, n) && o < |sql| && Match(sql[o..], names, |names|) == |names|
    ensures Ahead(sql, names, o + 1, n)
  {
    forall i | 0 <= i < |names| ensures First(sql, names, i) != o { FirstNotHere(sql, names, o, i); }
  }

  /** A scan that meets the holders in turn meets none twice. */
  lemma {:induction false} InTurnOnce(s: string, names: seq<string>, toks: seq<string>, mark: char, n: nat)
    requires Setup(names, toks, mark) && InTurn(s, names, n)
    ensures forall j, i :: 0 <= j < |names| && 0 <= i <= |s| && At(s, i, Holder(names[j])) ==> j >= n
    ensures Once(s, names)
    decreases |s|
  {
    if s != "" {
      var j := Match(s, names, |names|);
      var d := if j < |names| then |Holder(names[j])| else 1;
      InTurnOnce(s[d..], names, toks, mark, if j < |names| then n + 1 else n);
      forall l, i | 0 <= l < |names| && 0 <= i <= |s| && At(s, i, Holder(names[l]))
        ensures if i < d then i == 0 && j < |names| && l == n else At(s[d..], i - d, Holder(names[l]))
      {
        AtStart(s, Holder(names[l]));
        if i >= d { AtSuffix(s, d, i, Holder(names[l])); }
        else if i > 0 { NoOverlap(s, names[j], names[l], mark, i); }
        else { MatchIs(s, names, toks, mark, |names|, l); }
      }
    }
  }

  /** At i stands no "?", or every holder has come before. */
  ghost predicate AfterHolders(sql: string, names: seq<string>, i: nat)
    requires i < |sql|
  {
    sql[i] == '?' ==> forall j :: 0 <= j < |names| ==> First(sql, names, j) < i
  }

  /** From o on every "?" of the query's own comes after the holders. */
  ghost predicate QuestionsLast(sql: string, names: seq<string>, o: nat) {
    forall i :: o <= i < |sql| ==> AfterHolders(sql, names, i)
  }

  /** A holder holds no "?". */
  lemma NoneInside(sql: string, o: nat, name: string, i: nat)
    requires Plain(name, '?') && o <= |sql| && Holder(name) <= sql[o..] && o <= i < o + |Holder(name)|
    ensures i < |sql| && sql[i] != '?'
  {
    assert sql[i] == sql[o..][i - o] == Holder(name)[i - o];
    if 0 < i - o <= |name| { HolderLetters(name, sql[o..]); }
  }

  lemma LastPastHolder(sql: string, names: seq<string>, o: nat, j: nat)
    requires j < |names| && Plain(names[j], '?') && o <= |sql| && Holder(names[j]) <= sql[o..]
    ensures QuestionsLast(sql, names, o) <==> QuestionsLast(sql, names, o + |Holder(names[j])|)
  {
    var e := o + |Holder(names[j])|;
    forall i | o <= i < e && i < |sql|
      ensures AfterHolders(sql, names, i)
    {
      NoneInside(sql, o, names[j], i);
    }
  }

  lemma LastPastLetter(sql: string, names: seq<string>, o: nat, n: nat)
    requires Ahead(sql, names, o, n) && o < |sql| && Match(sql[o..], names, |names|) == |names|
    ensures QuestionsLast(sql, names, o) <==> (sql[o] == '?' ==> n >= |names|) && QuestionsLast(sql, names, o + 1)
  {
    assert AfterHolders(sql, names, o) <==> (sql[o] == '?' ==> n >= |names|) by {
      if n < |names| { assert First(sql, names, n) >= o; }
    }
  }

  /** One step of the scan, in terms of offsets. */
  lemma ClearStep(sql: string, names: seq<string>, o: nat, n: nat, j: nat)
    requires o < |sql| && j == Match(sql[o..], names, |names|)
    ensures j < |names| ==>
              var e := o + |Holder(names[j])|;
              e <= |sql| && (ClearNext(sql[o..], names, n) <==> j == n && ClearNext(sql[e..], names, n + 1))
    ensures j == |names| ==>
              (ClearNext(sql[o..], names, n) <==> (sql[o] == '?' ==> n >= |names|) && ClearNext(sql[o + 1..], names, n))
  {
    if j < |names| { assert sql[o..][|Holder(names[j])|..] == sql[o + |Holder(names[j])|..]; }
    else { assert sql[o..][1..] == sql[o + 1..] && sql[o..][0] == sql[o]; }
  }

  lemma ClearAtHolder(sql: string, names: seq<string>, o: nat, n: nat, e: nat)
    requires o < |sql| && n < |names| && Plain(names[n], '?') && Holder(names[n]) <= sql[o..]
    requires Match(sql[o..], names, |names|) == n && e == o + |Holder(names[n])|
    ensures e <= |sql|
    ensures (ClearNext(sql[e..], names, n + 1) <==> QuestionsLast(sql, names, e)) ==>
              (ClearNext(sql[o..], names, n) <==> QuestionsLast(sql, names, o))
  {
    ClearStep(sql, names, o, n, n);
    LastPastHolder(sql, names, o, n);
  }

  lemma ClearAtLetter(sql: string, names: seq<string>, o: nat, n: nat)
    requires Ahead(sql, names, o, n) && o < |sql| && Match(sql[o..], names, |names|) == |names|
    ensures Ahead(sql, names, o + 1, n)
    ensures (ClearNext(sql[o + 1..], names, n) <==> QuestionsLast(sql, names, o + 1)) ==>
              (ClearNext(sql[o..], names, n) <==> QuestionsLast(sql, names, o))
  {
    AheadOfLetter(sql, names, o, n);
    ClearStep(sql, names, o, n, |names|);
    LastPastLetter(sql, names, o, n);
  }

  /** With no holder twice and exactly those from n on ahead of offset o. */
  lemma {:induction false} ClearFrom(sql: string, names: seq<string>, toks: seq<string>, o: nat, n: nat)
    requires Setup(names, toks, '?') && Once(sql, names) && Ahead(sql, names, o, n)
    ensures ClearNext(sql[o..], names, n) <==> QuestionsLast(sql, names, o)
    decreases |sql| - o
  {
    if o < |sql| {
      var j := Match(sql[o..], names, |names|);
      if j < |names| {
        var e := o + |Holder(names[j])|;
        AheadOfHolder(sql, names, toks, '?', o, n, j);
        ClearAtHolder(sql, names, o, n, e);
        ClearFrom(sql, names, toks, e, n + 1);
      } else {
        ClearAtLetter(sql, names, o, n);
        ClearFrom(sql, names, toks, o + 1, n);
      }
    }
  }

  /** Clear is: no holder occurs twice, and no "?" of the query's own comes before a holder. */
  lemma ClearExactly(sql: string, names: seq<string>, toks: seq<string>)
    requires Setup(names, toks, '?') && Ordered(sql, names)
    ensures ClearNext(sql, names, 0) <==> Once(sql, names) && QuestionsLast(sql, names, 0)
  {
    assert sql[0..] == sql;
    if ClearNext(sql, names, 0) {
      ClearInTurn(sql, names, 0);
      InTurnOnce(sql, names, toks, '?', 0);
    }
    if Once(sql, names) { ClearFrom(sql, names, toks, 0, 0); }
  }

  // ---------------------------------------------------------------- main results

  /** The text as the "?" style needs it. */
  ghost predicate Askable<V>(query: seq<(string, V)>, sql: string) {
    var names := Names(Holders(query, sql));
    Once(sql, names) && QuestionsLast(sql, names, 0)
  }

  ghost predicate ReadBack<V>(query: seq<(string, V)>, sql: string) {
    var ps := Holders(query, sql);
    BindNext(Passes(sql, ps, PlaceHolderA, |ps|), Values(ps), 0) == Meaning(sql, query)
  }

  lemma ReadBackIs<V>(query: seq<(string, V)>, sql: string)
    requires Plainly(query, '?')
    ensures var ps := Holders(query, sql); var names, toks := Names(ps), Tokens(ps, PlaceHolderA);
      && Setup(names, toks, '?') && Ordered(sql, names) && QuestionMarks(toks)
      && (ReadBack(query, sql) <==> BindNext(Subst(sql, names, toks, |names|), Values(ps), 0) == Named(sql, names, Values(ps)))
  {
    HoldersSetup(query, sql, PlaceHolderA, '?');
    Substitution(query, sql, PlaceHolderA, '?');
    MeaningFromHolders(query, sql, '?');
  }

  /** "?": reading the arguments in turn is right when no holder occurs twice and no own "?" comes before a holder. */
  lemma QuestionRoundTrip<V>(query: seq<(string, V)>, sql: string)
    requires Plainly(query, '?') && Askable(query, sql)
    ensures ReadBack(query, sql)
  {
    var ps := Holders(query, sql);
    ReadBackIs(query, sql);
    ClearExactly(sql, Names(ps), Tokens(ps, PlaceHolderA));
    BindNextExactly(sql, Names(ps), Tokens(ps, PlaceHolderA), Values(ps), 0);
  }

  /** When the values are distinct it is right exactly then. */
  lemma QuestionExactly<V>(query: seq<(string, V)>, sql: string)
    requires Plainly(query, '?') && DistinctValues(Values(Holders(query, sql)))
    ensures ReadBack(query, sql) <==> Askable(query, sql)
  {
    var ps := Holders(query, sql);
    ReadBackIs(query, sql);
    ClearExactly(sql, Names(ps), Tokens(ps, PlaceHolderA));
    BindNextExactly(sql, Names(ps), Tokens(ps, PlaceHolderA), Values(ps), 0);
  }
}
