/**
 * The value a web.WebPath stands for: a first-child ("same") / next-sibling ("next") trie over path
 * segments, what each operation does to it, and the finite map it represents.
 */
module PathTree {
  import opened Util

  type Handler = nat // the identity of a handler function

  datatype Tree = Nil | Node(path: string, f: Option<Handler>, same: Tree, next: Tree)

  const Fresh: Tree := Node("", None, Nil, Nil)

  predicate Rooted(path: string) { |path| > 0 && path[0] == '/' }

  /** Index of the first '/' in s, or -1. */
  function IndexSlash(s: string): (i: int)
    ensures -1 <= i < |s|
    ensures i >= 0 ==> s[i] == '/' && forall k :: 0 <= k < i ==> s[k] != '/'
    ensures i == -1 ==> forall k :: 0 <= k < |s| ==> s[k] != '/'
  {
    if s == [] then -1
    else if s[0] == '/' then 0
    else
      var j := IndexSlash(s[1..]);
      if j == -1 then -1 else j + 1
  }

  datatype Parsed = Parsed(key: string, left: string, fin: bool)

  function ParsePath(path: string): Parsed
    requires |path| > 0
  {
    var pi := 1 + IndexSlash(path[1..]);
    if pi != 0 then Parsed(path[..pi], path[pi..], false) else Parsed(path, "", true)
  }

  /** A segment starts with its only '/'. */
  predicate Segment(s: string) { Rooted(s) && forall k :: 1 <= k < |s| ==> s[k] != '/' }

  /** Cutting off the first segment loses nothing, and the rest is again rooted. */
  lemma ParseSplits(path: string)
    requires Rooted(path)
    ensures var p := ParsePath(path);
            && path == p.key + p.left && Segment(p.key)
            && (p.fin <==> p.left == "") && (!p.fin ==> Rooted(p.left) && |p.left| < |path|)
  {
    var pi := 1 + IndexSlash(path[1..]);
    if pi != 0 {
      assert path[1..][pi - 1] == '/';
      forall k | 1 <= k < pi ensures path[k] != '/' { assert path[1..][k - 1] != '/'; }
    } else {
      forall k | 1 <= k < |path| ensures path[k] != '/' { assert path[1..][k - 1] != '/'; }
    }
  }

  /** Conversely the first segment is the only way to start a rooted path with a segment. */
  lemma ParseJoins(key: string, left: string)
    requires Segment(key) && (left == "" || Rooted(left))
    ensures Rooted(key + left) && ParsePath(key + left) == Parsed(key, left, left == "")
  {
    var path := key + left;
    assert forall k :: 1 <= k < |path| ==> path[1..][k - 1] == path[k];
    if left == "" {
      assert key + left == key;
    } else {
      assert path[1..][|key| - 1] == '/';
      assert path[..|key|] == key && path[|key|..] == left;
    }
  }

  /** Rooted paths are the same exactly when they parse the same. */
  lemma ParseSame(path: string, q: string)
    requires Rooted(path) && Rooted(q)
    ensures path == q <==> ParsePath(path) == ParsePath(q)
    ensures !ParsePath(path).fin ==> Rooted(ParsePath(path).left) && |ParsePath(path).left| < |path|
    ensures ParsePath(path).key != ""
    ensures ParsePath(path).fin == (ParsePath(path).left == "") && ParsePath(q).fin == (ParsePath(q).left == "")
  {
    ParseSplits(path);
    ParseSplits(q);
  }

  // ---------------------------------------------------------------- the operations

  function Load(t: Tree, path: string): Option<Handler> {
    if t.Nil? || !Rooted(path) then None
    else
      var p := ParsePath(path);
      if t.path == p.key then
        if p.fin then t.f else Load(t.same, p.left)
      else Load(t.next, path)
  }

  /** Store at a node, or at the place of a missing one. */
  function Store(t: Tree, path: string, f: Handler): Tree
    requires Rooted(path)
    decreases |path|, t
  {
    ParseSplits(path);
    var p := ParsePath(path);
    if t.Nil? then Node(p.key, if p.fin then Some(f) else None, if p.fin then Nil else Store(Nil, p.left, f), Nil)
    else if t.path == "" then
      if p.fin then t.(path := p.key, f := Some(f)) else t.(path := p.key, same := Store(Nil, p.left, f))
    else if t.path == p.key then
      if p.fin then t.(f := Some(f)) else t.(same := Store(t.same, p.left, f))
    else t.(next := Store(t.next, path, f))
  }

  /** Storing at a node without a name names it. */
  lemma StoreNames(t: Tree, path: string, f: Handler)
    requires t.Node? && t.path == "" && Rooted(path)
    ensures var p := ParsePath(path);
      && (p.fin || Rooted(p.left))
      && Store(t, path, f) == if p.fin then t.(path := p.key, f := Some(f))
                              else t.(path := p.key, same := Store(Nil, p.left, f))
  {
    ParseSplits(path);
  }

  /** Storing at a new, unused node is storing where no node was. */
  lemma StoreUnused(path: string, f: Handler)
    requires Rooted(path)
    ensures Store(Fresh, path, f) == Store(Nil, path, f)
  {
  }

  predicate Dead(t: Tree) { t.Node? && t.f == None && t.same == Nil && t.next == Nil }

  /** The tree after Delete, and the returned deleteMe. */
  function Delete(t: Tree, path: string): (Tree, bool)
  {
    if t.Nil? || !Rooted(path) then (t, false)
    else
      var p := ParsePath(path);
      if t.path == p.key then
        if p.fin then
          var t' := t.(f := None);
          (t', Dead(t'))
        else if t.same == Nil then (t, false)
        else
          var (same, gone) := Delete(t.same, p.left);
          var t' := t.(same := if gone then Nil else same);
          (t', Dead(t'))
      else if t.next == Nil then (t, false)
      else
        var (next, gone) := Delete(t.next, path);
        var t' := t.(next := if gone then Nil else next);
        (t', Dead(t'))
  }

  function LoadPerfix(t: Tree, path: string): Option<Handler> {
    if t.Nil? || !Rooted(path) then None
    else
      var p := ParsePath(path);
      if t.path == "/" then
        if p.key != "/" then OrElse(LoadPerfix(t.next, path), t.f)
        else if p.fin then t.f
        else OrElse(LoadPerfix(t.same, p.left), t.f)
      else if t.path == p.key then
        if p.fin then t.f else OrElse(LoadPerfix(t.same, p.left), LoadPerfix(t.next, path))
      else LoadPerfix(t.next, path)
  }

  function OrElse(a: Option<Handler>, b: Option<Handler>): Option<Handler> { if a.Some? then a else b }

  // ---------------------------------------------------------------- well-formed tries

  predicate HasSibling(t: Tree, key: string) { t.Node? && (t.path == key || HasSibling(t.next, key)) }

  /** Segments as names, distinct siblings, and no node left without handler, `Same` and `Next`. */
  predicate WellFormed(t: Tree) {
    t.Node? ==>
      && Segment(t.path) && !HasSibling(t.next, t.path) && !Dead(t)
      && WellFormed(t.same) && WellFormed(t.next)
  }

  /** The same for the root, which may be dead: it is never removed. */
  predicate Proper(t: Tree) {
    t.Node? ==> Segment(t.path) && !HasSibling(t.next, t.path) && WellFormed(t.same) && WellFormed(t.next)
  }

  predicate WellFormedRoot(t: Tree) { t.Node? && (t == Fresh || Proper(t)) }

  lemma {:induction false} StoreKeepsNames(t: Tree, path: string, f: Handler, key: string)
    requires Rooted(path) && (WellFormed(t) || WellFormedRoot(t)) && key != ParsePath(path).key
    ensures HasSibling(Store(t, path, f), key) ==> HasSibling(t, key)
    decreases t
  {
    if t.Node? && t.path != "" && t.path != ParsePath(path).key { StoreKeepsNames(t.next, path, f, key); }
  }

  lemma {:induction false} StoreWellFormed(t: Tree, path: string, f: Handler)
    requires Rooted(path)
    ensures WellFormed(t) ==> WellFormed(Store(t, path, f)) && Store(t, path, f).Node?
    ensures WellFormedRoot(t) ==> WellFormedRoot(Store(t, path, f))
    decreases |path|, t
  {
    ParseSplits(path);
    var p := ParsePath(path);
    if !p.fin {
      StoreWellFormed(Nil, p.left, f);
      if t.Node? { StoreWellFormed(t.same, p.left, f); }
    }
    if t.Node? && t.path != p.key {
      StoreWellFormed(t.next, path, f);
      if WellFormed(t.next) { StoreKeepsNames(t.next, path, f, t.path); }
    }
  }

  lemma {:induction false} DeleteKeepsNames(t: Tree, path: string, key: string)
    ensures HasSibling(Delete(t, path).0, key) ==> HasSibling(t, key)
    decreases t
  {
    if t.Node? && Rooted(path) && t.path != ParsePath(path).key { DeleteKeepsNames(t.next, path, key); }
  }

  /** deleteMe tells exactly that the node has become dead. */
  lemma {:induction false} DeleteWellFormed(t: Tree, path: string)
    ensures WellFormed(t) ==>
              && (t.Node? ==> Delete(t, path).0.Node?)
              && Delete(t, path).1 == Dead(Delete(t, path).0)
              && (!Delete(t, path).1 ==> WellFormed(Delete(t, path).0))
    ensures WellFormedRoot(t) ==> WellFormedRoot(Delete(t, path).0)
    decreases t
  {
    if t.Node? && Rooted(path) {
      ParseSplits(path);
      var p := ParsePath(path);
      DeleteWellFormed(t.same, p.left);
      DeleteWellFormed(t.next, path);
      DeleteKeepsNames(t.next, path, t.path);
    }
  }

  // ---------------------------------------------------------------- the finite map

  lemma {:induction false} LoadStored(t: Tree, path: string, f: Handler, q: string)
    requires Rooted(path) && (WellFormed(t) || WellFormedRoot(t))
    ensures Load(Store(t, path, f), q) == if q == path then Some(f) else Load(t, q)
    decreases |path|, t
  {
    if Rooted(q) {
      ParseSame(path, q);
      var p, left := ParsePath(path), ParsePath(q).left;
      if t.Nil? || t.path == "" {
        if !p.fin { LoadStored(Nil, p.left, f, left); }
        LoadStoredNew(t, path, f, q);
      } else if t.path == p.key {
        if !p.fin { LoadStored(t.same, p.left, f, left); }
      } else {
        LoadStored(t.next, path, f, q);
      }
    }
  }

  /** At the place of a missing or an unused node. */
  lemma LoadStoredNew(t: Tree, path: string, f: Handler, q: string)
    requires Rooted(path) && Rooted(q) && (t == Nil || t == Fresh)
    requires var p, left := ParsePath(path), ParsePath(q).left;
      p.fin || (Rooted(p.left) && Load(Store(Nil, p.left, f), left) == (if left == p.left then Some(f) else None))
    ensures Load(Store(t, path, f), q) == if q == path then Some(f) else None
    ensures Load(t, q) == None
  {
    ParseSame(path, q);
    ParseSame(q, path);
  }

  lemma DeadLoadsNothing(t: Tree, q: string)
    requires Dead(t)
    ensures Load(t, q) == None
  {
  }

  lemma {:induction false} LoadDeleted(t: Tree, path: string, q: string)
    requires WellFormed(t) || WellFormedRoot(t)
    ensures Load(Delete(t, path).0, q) == if q == path then None else Load(t, q)
    decreases t, 1
  {
    if t.Node? && Rooted(path) && Rooted(q) {
      if t.path != ParsePath(path).key {
        LoadDeletedNext(t, path, q);
      } else if ParsePath(path).fin {
        ParseSame(path, q);
      } else {
        LoadDeletedSame(t, path, q);
      }
    }
  }

  /** Among the siblings behind this node. */
  lemma {:induction false} LoadDeletedNext(t: Tree, path: string, q: string)
    requires t.Node? && WellFormed(t.next) && Rooted(path) && Rooted(q) && t.path != ParsePath(path).key
    ensures Load(Delete(t, path).0, q) == if q == path then None else Load(t, q)
    decreases t, 0
  {
    var (next, gone) := Delete(t.next, path);
    LoadDeleted(t.next, path, q);
    DeleteWellFormed(t.next, path);
    if gone { DeadLoadsNothing(next, q); }
    ReplacedNext(t, if gone then Nil else next, path, q);
  }

  /** Below this node. */
  lemma {:induction false} LoadDeletedSame(t: Tree, path: string, q: string)
    requires t.Node? && WellFormed(t.same) && Rooted(path) && Rooted(q)
    requires t.path == ParsePath(path).key && !ParsePath(path).fin
    ensures Load(Delete(t, path).0, q) == if q == path then None else Load(t, q)
    decreases t, 0
  {
    var left, rest := ParsePath(path).left, ParsePath(q).left;
    var (same, gone) := Delete(t.same, left);
    LoadDeleted(t.same, left, rest);
    DeleteWellFormed(t.same, left);
    if gone { DeadLoadsNothing(same, rest); }
    ReplacedSame(t, if gone then Nil else same, path, q);
  }

  /** Other siblings behind this node, that differ in what they have at `path`. */
  lemma ReplacedNext(t: Tree, next: Tree, path: string, q: string)
    requires t.Node? && Rooted(path) && Rooted(q) && t.path != ParsePath(path).key
    requires Load(next, q) == if q == path then None else Load(t.next, q)
    ensures Load(t.(next := next), q) == if q == path then None else Load(t, q)
  {
  }

  /** Another trie below this node. */
  lemma ReplacedSame(t: Tree, same: Tree, path: string, q: string)
    requires t.Node? && Rooted(path) && Rooted(q) && t.path == ParsePath(path).key && !ParsePath(path).fin
    requires var left, rest := ParsePath(path).left, ParsePath(q).left;
      Load(same, rest) == if rest == left then None else Load(t.same, rest)
    ensures Load(t.(same := same), q) == if q == path then None else Load(t, q)
  {
    ParseSame(path, q);
  }

  datatype Op =
    | OpStore(path: string, f: Option<Handler>)
    | OpStoreIfNotExist(path: string, f: Option<Handler>)
    | OpDelete(path: string)

  function Apply(t: Tree, op: Op): Tree {
    if !Rooted(op.path) then t
    else
      match op
      case OpDelete(path) => Delete(t, path).0
      case OpStore(path, f) => if f == None then Delete(t, path).0 else Store(t, path, f.value)
      case OpStoreIfNotExist(path, f) =>
        if f == None then Delete(t, path).0
        else if Load(t, path) == None then Store(t, path, f.value) else t
  }

  function ApplyAll(t: Tree, ops: seq<Op>): Tree {
    if ops == [] then t else Apply(ApplyAll(t, ops[..|ops| - 1]), ops[|ops| - 1])
  }

  /** The same operations on a finite map from paths to handlers. */
  function MapApply(m: map<string, Handler>, op: Op): map<string, Handler> {
    if !Rooted(op.path) then m
    else if op.OpDelete? || op.f == None then m - {op.path}
    else if op.OpStoreIfNotExist? && op.path in m then m
    else m[op.path := op.f.value]
  }

  function MapApplyAll(m: map<string, Handler>, ops: seq<Op>): map<string, Handler> {
    if ops == [] then m else MapApply(MapApplyAll(m, ops[..|ops| - 1]), ops[|ops| - 1])
  }

  function MapGet(m: map<string, Handler>, q: string): Option<Handler> { if q in m then Some(m[q]) else None }

  /** The trie answers every lookup as the finite map does. */
  ghost predicate Agrees(t: Tree, m: map<string, Handler>) { forall q :: Load(t, q) == MapGet(m, q) }

  lemma StoreRefines(t: Tree, m: map<string, Handler>, path: string, f: Handler)
    requires WellFormedRoot(t) && Rooted(path) && Agrees(t, m)
    ensures WellFormedRoot(Store(t, path, f)) && Agrees(Store(t, path, f), m[path := f])
  {
    StoreWellFormed(t, path, f);
    forall q ensures Load(Store(t, path, f), q) == MapGet(m[path := f], q) { LoadStored(t, path, f, q); }
  }

  lemma DeleteRefines(t: Tree, m: map<string, Handler>, path: string)
    requires WellFormedRoot(t) && Rooted(path) && Agrees(t, m)
    ensures WellFormedRoot(Delete(t, path).0) && Agrees(Delete(t, path).0, m - {path})
  {
    DeleteWellFormed(t, path);
    forall q ensures Load(Delete(t, path).0, q) == MapGet(m - {path}, q) { LoadDeleted(t, path, q); }
  }

  lemma ApplyRefines(t: Tree, m: map<string, Handler>, op: Op)
    requires WellFormedRoot(t) && Agrees(t, m)
    ensures WellFormedRoot(Apply(t, op)) && Agrees(Apply(t, op), MapApply(m, op))
  {
    if Rooted(op.path) {
      assert Load(t, op.path) == MapGet(m, op.path);
      if op.OpDelete? || op.f == None { DeleteRefines(t, m, op.path); } else { StoreRefines(t, m, op.path, op.f.value); }
    }
  }

  /** After any sequence of operations the trie is well-formed and Load is lookup in the finite map. */
  lemma {:induction false} RefinesMap(ops: seq<Op>)
    ensures WellFormedRoot(ApplyAll(Fresh, ops))
    ensures Agrees(ApplyAll(Fresh, ops), MapApplyAll(map[], ops))
  {
    if ops != [] {
      RefinesMap(ops[..|ops| - 1]);
      ApplyRefines(ApplyAll(Fresh, ops[..|ops| - 1]), MapApplyAll(map[], ops[..|ops| - 1]), ops[|ops| - 1]);
    }
  }

  // ---------------------------------------------------------------- longest prefix

  /** The handler of the longest stored prefix of length at most n that ends in '/'. */
  function Longest(t: Tree, path: string, n: nat): Option<Handler>
    requires n <= |path|
  {
    if n == 0 then None
    else if path[n - 1] == '/' && Load(t, path[..n]).Some? then Load(t, path[..n])
    else Longest(t, path, n - 1)
  }

  /** The lookup the comments of LoadPerfix promise. */
  function BestPrefix(t: Tree, path: string): Option<Handler> {
    OrElse(Load(t, path), Longest(t, path, |path|))
  }

  /** Length of the directory part of a rooted path: up to and including the last '/'. */
  function DirLength(path: string): (n: nat)
    requires Rooted(path)
    ensures 1 <= n <= |path| && path[n - 1] == '/' && forall k :: n <= k < |path| ==> path[k] != '/'
  {
    if path[|path| - 1] == '/' then |path| else DirLength(path[..|path| - 1])
  }

  /**
   * The one case LoadPerfix gets wrong: `path` does not end in '/', has a node without handler, and a
   * handler for its directory is stored among the later siblings of that node.
   */
  predicate Shadowed(t: Tree, path: string) {
    t.Node? && Rooted(path) &&
    var p := ParsePath(path);
    if t.path == p.key then
      if p.fin then t.path != "/" && t.f == None && Load(t.next, "/").Some? else Shadowed(t.same, p.left)
    else Shadowed(t.next, path)
  }

  lemma {:induction false} LongestSkips(t: Tree, path: string, lo: nat, n: nat)
    requires lo <= n <= |path| && forall k :: lo <= k < n ==> path[k] != '/'
    ensures Longest(t, path, n) == Longest(t, path, lo)
  {
    if lo < n { LongestSkips(t, path, lo, n - 1); }
  }

  /** Prefixes that end after the first segment are looked up below that segment. */
  lemma {:induction false} LongestBelow(t: Tree, key: string, left: string, n: nat)
    requires t.Node? && t.path == key && Segment(key) && Rooted(left) && n <= |left|
    ensures Longest(t, key + left, |key| + n) == OrElse(Longest(t.same, left, n), Longest(t, key + left, |key|))
  {
    if n > 0 {
      LongestBelow(t, key, left, n - 1);
      assert (key + left)[..|key| + n] == key + left[..n];
      assert (key + left)[|key| + n - 1] == left[n - 1];
      ParseJoins(key, left[..n]);
    }
  }

  /** Prefixes that do not start with the name of this node are looked up among its siblings. */
  lemma {:induction false} LongestNext(t: Tree, key: string, left: string, n: nat)
    requires t.Node? && t.path != key && t.path != "/" && Segment(key) && (left == "" || Rooted(left))
    requires n <= |key| + |left|
    ensures Longest(t, key + left, n) == Longest(t.next, key + left, n)
  {
    if n > 0 {
      LongestNext(t, key, left, n - 1);
      if (key + left)[n - 1] == '/' { LoadPrefixNext(t, key, left, n); }
    }
  }

  lemma LoadPrefixNext(t: Tree, key: string, left: string, n: nat)
    requires t.Node? && t.path != key && t.path != "/" && Segment(key) && (left == "" || Rooted(left))
    requires 1 <= n <= |key + left| && (key + left)[n - 1] == '/'
    ensures Load(t, (key + left)[..n]) == Load(t.next, (key + left)[..n])
  {
    PrefixKey(key, left, n);
  }

  /** A '/'-ended prefix is "/" alone or contains the whole first segment. */
  lemma PrefixKey(key: string, left: string, n: nat)
    requires Segment(key) && (left == "" || Rooted(left)) && 1 <= n <= |key + left| && (key + left)[n - 1] == '/'
    ensures if n == 1 then (key + left)[..n] == "/" && ParsePath("/") == Parsed("/", "", true)
            else
              && n > |key| && (key + left)[..n] == key + left[..n - |key|] && Rooted(left[..n - |key|])
              && ParsePath((key + left)[..n]) == Parsed(key, left[..n - |key|], false)
  {
    if n == 1 {
      assert (key + left)[..n] == "/";
      ParseJoins("/", "");
    } else {
      assert (key + left)[..n] == key + left[..n - |key|];
      ParseJoins(key, left[..n - |key|]);
    }
  }

  lemma {:induction false} AbsentLoadsNothing(t: Tree, key: string, left: string)
    requires Segment(key) && (left == "" || Rooted(left)) && !HasSibling(t, key)
    ensures Load(t, key + left) == None && !Shadowed(t, key + left)
    decreases t
  {
    ParseJoins(key, left);
    if t.Node? { AbsentLoadsNothing(t.next, key, left); }
  }

  /** Among siblings without the path's own segment only "/" can serve as a prefix. */
  lemma {:induction false} LongestAbsent(t: Tree, key: string, left: string, n: nat)
    requires Segment(key) && (left == "" || Rooted(left)) && !HasSibling(t, key) && n <= |key + left|
    ensures Longest(t, key + left, n) == if n == 0 then None else Load(t, "/")
  {
    if n > 0 {
      var path := key + left;
      LongestAbsent(t, key, left, n - 1);
      if path[n - 1] == '/' {
        PrefixKey(key, left, n);
        if n > 1 { AbsentLoadsNothing(t, key, left[..n - |key|]); }
      }
    }
  }

  /** Behind a "/" node whose name is not the path's segment, the "/" handler is the last resort. */
  lemma {:induction false} LongestAfterSlash(t: Tree, key: string, left: string, n: nat)
    requires Proper(t) && t.Node? && t.path == "/" && key != "/"
    requires Segment(key) && (left == "" || Rooted(left)) && n <= |key + left|
    ensures Longest(t, key + left, n) == if n == 0 then None else OrElse(Longest(t.next, key + left, n), t.f)
  {
    if n > 0 {
      var path := key + left;
      LongestAfterSlash(t, key, left, n - 1);
      if path[n - 1] == '/' {
        PrefixKey(key, left, n);
        SlashAbsent(t.next);
      }
    }
  }

  lemma DirBelow(key: string, left: string)
    requires Segment(key) && Rooted(left)
    ensures Rooted(key + left) && DirLength(key + left) == |key| + DirLength(left)
  {
    var n := |key| + DirLength(left);
    var m := DirLength(key + left);
    assert forall k :: |key| <= k < |key + left| ==> (key + left)[k] == left[k - |key|];
    assert (key + left)[n - 1] == '/';
  }

  lemma DirOfSegment(key: string)
    requires Segment(key)
    ensures DirLength(key) == 1
  {
  }

  lemma SlashAbsent(t: Tree)
    requires !HasSibling(t, "/")
    ensures Load(t, "/") == None
  {
    AbsentLoadsNothing(t, "/", "");
    assert "/" + "" == "/";
  }

  lemma {:induction false} LongestNil(path: string, n: nat)
    requires n <= |path|
    ensures Longest(Nil, path, n) == None
  {
    if n > 0 { LongestNil(path, n - 1); }
  }

  lemma {:induction false} LongestFresh(path: string, n: nat)
    requires n <= |path|
    ensures Longest(Fresh, path, n) == None
  {
    DeadLoadsNothing(Fresh, path[..n]);
    if n > 0 { LongestFresh(path, n - 1); }
  }

  /**
   * LoadPerfix finds the exact handler, or else that of the longest stored prefix ending in '/'; in the
   * shadowed case it misses exactly one candidate, the directory of the path itself.
   */
  ghost predicate PrefixRule(t: Tree, path: string)
    requires Rooted(path)
  {
    if Shadowed(t, path) then
      && Load(t, path) == None && Load(t, path[..DirLength(path)]).Some?
      && LoadPerfix(t, path) == Longest(t, path, DirLength(path) - 1)
    else LoadPerfix(t, path) == BestPrefix(t, path)
  }

  lemma {:induction false} PrefixLookup(t: Tree, path: string)
    requires (WellFormed(t) || WellFormedRoot(t)) && Rooted(path)
    ensures PrefixRule(t, path)
    decreases t
  {
    if t == Fresh {
      PrefixFresh(path);
    } else if t.Node? {
      ParseSplits(path);
      var Parsed(key, left, fin) := ParsePath(path);
      PrefixLookup(t.next, path);
      if t.path != key {
        if t.path == "/" { PrefixAfterSlash(t, key, left); } else { PrefixOther(t, key, left); }
      } else if !fin {
        PrefixLookup(t.same, left);
        PrefixSame(t, key, left);
      } else {
        PrefixHere(t, path);
      }
    } else {
      LongestNil(path, |path|);
    }
  }

  lemma PrefixFresh(path: string)
    requires Rooted(path)
    ensures PrefixRule(Fresh, path)
  {
    ParseSplits(path);
    assert ParsePath(path).key != "";
    assert Load(Fresh, path) == None && LoadPerfix(Fresh, path) == None && !Shadowed(Fresh, path);
    LongestFresh(path, |path|);
  }

  lemma PrefixHere(t: Tree, path: string)
    requires Proper(t) && t.Node? && Segment(path) && t.path == path
    ensures PrefixRule(t, path)
  {
    ParseJoins(path, "");
    assert path + "" == path;
    DirOfSegment(path);
    LongestSkips(t, path, 1, |path|);
    assert path[..1] == "/";
    ParseJoins("/", "");
    assert "/" + "" == "/";
  }

  lemma PrefixOther(t: Tree, key: string, left: string)
    requires Proper(t) && t.Node? && Segment(key) && (left == "" || Rooted(left))
    requires t.path != key && t.path != "/" && PrefixRule(t.next, key + left)
    ensures PrefixRule(t, key + left)
  {
    var path := key + left;
    ParseJoins(key, left);
    LongestNext(t, key, left, |path|);
    if Shadowed(t.next, path) {
      var d := DirLength(path);
      LongestNext(t, key, left, d - 1);
      assert Load(t, path[..d]) == Load(t.next, path[..d]) by { PrefixKey(key, left, d); }
    }
  }

  lemma PrefixAfterSlash(t: Tree, key: string, left: string)
    requires Proper(t) && t.Node? && Segment(key) && (left == "" || Rooted(left))
    requires t.path != key && t.path == "/" && PrefixRule(t.next, key + left)
    ensures PrefixRule(t, key + left)
  {
    var path := key + left;
    var d := DirLength(path);
    ParseJoins(key, left);
    SlashAbsent(t.next);
    LongestAfterSlash(t, key, left, |path|);
    if Shadowed(t.next, path) {
      PrefixKey(key, left, d);
      LongestAfterSlash(t, key, left, d - 1);
      RuleOfShadowed(t, path, d);
    }
  }

  lemma SlashPrefix(t: Tree, path: string)
    requires Rooted(path)
    ensures Longest(t, path, 1) == Load(t, "/")
  {
    assert path[..1] == "/";
    assert Longest(t, path, 0) == None;
  }

  /** Below a node that matches the first segment, every lookup is one in its `Same` or one of "/". */
  lemma LookupBelow(t: Tree, key: string, left: string, n: nat, m: nat)
    requires t.Node? && t.path == key && Segment(key) && Rooted(left) && n <= |left| && m == |key| + n
    ensures Load(t, key + left) == Load(t.same, left) && Shadowed(t, key + left) == Shadowed(t.same, left)
    ensures Longest(t, key + left, m) == OrElse(Longest(t.same, left, n), Load(t, "/"))
  {
    SameBelow(t, key, left);
    LongestBelow(t, key, left, n);
    SlashAlone(t, key, left);
  }

  /** No prefix within the first segment ends in '/' but "/" itself. */
  lemma SlashAlone(t: Tree, key: string, left: string)
    requires Segment(key) && Rooted(left)
    ensures Longest(t, key + left, |key|) == Load(t, "/")
  {
    ParseJoins(key, left);
    LongestSkips(t, key + left, 1, |key|);
    SlashPrefix(t, key + left);
  }

  lemma PerfixBelow(t: Tree, key: string, left: string)
    requires Proper(t) && t.Node? && Segment(key) && Rooted(left)
    requires t.path == key && PrefixRule(t.next, key + left)
    ensures LoadPerfix(t, key + left) == OrElse(LoadPerfix(t.same, left), Load(t, "/"))
  {
    ParseJoins(key, left);
    ParseJoins("/", "");
    assert "/" + "" == "/";
    if key != "/" {
      AbsentLoadsNothing(t.next, key, left);
      LongestAbsent(t.next, key, left, |key + left|);
    }
  }

  lemma PrefixSame(t: Tree, key: string, left: string)
    requires Proper(t) && t.Node? && Segment(key) && Rooted(left)
    requires t.path == key && PrefixRule(t.next, key + left) && PrefixRule(t.same, left)
    ensures PrefixRule(t, key + left)
  {
    PerfixBelow(t, key, left);
    PrefixBelow(t, key, left);
  }

  lemma PrefixBelow(t: Tree, key: string, left: string)
    requires t.Node? && t.path == key && Segment(key) && Rooted(left) && PrefixRule(t.same, left)
    requires LoadPerfix(t, key + left) == OrElse(LoadPerfix(t.same, left), Load(t, "/"))
    ensures PrefixRule(t, key + left)
  {
    if Shadowed(t.same, left) {
      SameBelow(t, key, left);
      ShadowedBelow(t, key, left);
    } else {
      LookupBelow(t, key, left, |left|, |key + left|);
    }
  }

  lemma ShadowedBelow(t: Tree, key: string, left: string)
    requires t.Node? && t.path == key && Segment(key) && Rooted(left)
    requires Shadowed(t, key + left) && Load(t, key + left) == None && Load(t.same, left[..DirLength(left)]).Some?
    requires LoadPerfix(t, key + left) == OrElse(Longest(t.same, left, DirLength(left) - 1), Load(t, "/"))
    ensures PrefixRule(t, key + left)
  {
    DirectoryBelow(t, key, left, DirLength(left), |key| + DirLength(left));
    RuleOfShadowed(t, key + left, |key| + DirLength(left));
  }

  /** The lookup misses the directory of the path, of length n, which is stored. */
  ghost predicate MissesDirectory(t: Tree, path: string, n: nat) {
    && Rooted(path) && DirLength(path) == n && Load(t, path[..n]).Some?
    && LoadPerfix(t, path) == Longest(t, path, n - 1)
  }

  lemma DirectoryBelow(t: Tree, key: string, left: string, d: nat, n: nat)
    requires t.Node? && t.path == key && Segment(key) && Rooted(left) && d == DirLength(left) && n == |key| + d
    requires LoadPerfix(t, key + left) == OrElse(Longest(t.same, left, d - 1), Load(t, "/"))
    requires Load(t.same, left[..d]).Some?
    ensures MissesDirectory(t, key + left, n)
  {
    var path := key + left;
    assert Rooted(path) && DirLength(path) == n by { DirBelow(key, left); }
    assert Load(t, path[..n]).Some? by { LoadDirBelow(t, key, left, n); }
    assert LoadPerfix(t, path) == Longest(t, path, n - 1) by { LongestDirBelow(t, key, left, d, n - 1); }
  }

  lemma SameBelow(t: Tree, key: string, left: string)
    requires t.Node? && t.path == key && Segment(key) && Rooted(left)
    ensures Load(t, key + left) == Load(t.same, left) && Shadowed(t, key + left) == Shadowed(t.same, left)
  {
    ParseJoins(key, left);
  }

  lemma LongestDirBelow(t: Tree, key: string, left: string, d: nat, n: nat)
    requires t.Node? && t.path == key && Segment(key) && Rooted(left) && d == DirLength(left) && n == |key| + d - 1
    ensures Longest(t, key + left, n) == OrElse(Longest(t.same, left, d - 1), Load(t, "/"))
  {
    LookupBelow(t, key, left, d - 1, n);
  }

  lemma RuleOfShadowed(t: Tree, path: string, n: nat)
    requires MissesDirectory(t, path, n) && Shadowed(t, path) && Load(t, path) == None
    ensures PrefixRule(t, path)
  {
  }

  lemma LoadDirBelow(t: Tree, key: string, left: string, n: nat)
    requires t.Node? && t.path == key && Segment(key) && Rooted(left) && n == |key| + DirLength(left)
    ensures n <= |key + left| && Load(t, (key + left)[..n]) == Load(t.same, left[..DirLength(left)])
  {
    var dir := left[..DirLength(left)];
    assert (key + left)[..n] == key + dir;
    LoadBelow(t, key, dir);
  }

  lemma LoadBelow(t: Tree, key: string, left: string)
    requires t.Node? && t.path == key && Segment(key) && Rooted(left)
    ensures Load(t, key + left) == Load(t.same, left)
  {
    ParseJoins(key, left);
  }

  // ---------------------------------------------------------------- when the prefix lookup is right

  lemma {:induction false} LongestIsStored(t: Tree, path: string, n: nat)
    requires n <= |path|
    ensures Longest(t, path, n).Some? ==> exists m :: 1 <= m <= n && Load(t, path[..m]) == Longest(t, path, n)
  {
    if n > 0 { LongestIsStored(t, path, n - 1); }
  }

  /** No handler is stored under two paths. */
  ghost predicate Injective(t: Tree) { forall p, q :: SameHandler(t, p, q) ==> p == q }

  predicate SameHandler(t: Tree, p: string, q: string) { Load(t, p).Some? && Load(t, p) == Load(t, q) }

  /**
   * After any operations LoadPerfix does what its comments promise unless the path is shadowed, and when
   * no handler is stored twice only then.
   */
  lemma PrefixExactly(ops: seq<Op>, path: string)
    requires Rooted(path)
    ensures var t := ApplyAll(Fresh, ops);
            && (!Shadowed(t, path) ==> LoadPerfix(t, path) == BestPrefix(t, path))
            && (Shadowed(t, path) && Injective(t) ==> LoadPerfix(t, path) != BestPrefix(t, path))
            && (Load(t, path).Some? || path[|path| - 1] == '/' ==> !Shadowed(t, path))
  {
    var t := ApplyAll(Fresh, ops);
    RefinesMap(ops);
    PrefixLookup(t, path);
    assert path[..|path|] == path;
    if Shadowed(t, path) { ShadowedIsWrong(t, path); }
  }

  lemma ShadowedIsWrong(t: Tree, path: string)
    requires Rooted(path) && Shadowed(t, path) && PrefixRule(t, path)
    ensures Injective(t) ==> LoadPerfix(t, path) != BestPrefix(t, path)
  {
    var d := DirLength(path);
    LongestSkips(t, path, d, |path|);
    LongestIsStored(t, path, d - 1);
    if Injective(t) && LoadPerfix(t, path) == BestPrefix(t, path) {
      var m :| 1 <= m < d && Load(t, path[..m]) == Longest(t, path, d - 1);
      assert |path[..m]| == m && |path[..d]| == d;
      assert SameHandler(t, path[..m], path[..d]);
    }
  }

  lemma StoreSmall()
    ensures Store(Fresh, "/", 2) == Node("/", Some(2), Nil, Nil)
    ensures Store(Nil, "/", 2) == Node("/", Some(2), Nil, Nil)
    ensures Store(Fresh, "/a/b", 1) == Store(Nil, "/a/b", 1) == Node("/a", None, Node("/b", Some(1), Nil, Nil), Nil)
    ensures ParsePath("/") == Parsed("/", "", true) && ParsePath("/a/b") == Parsed("/a", "/b", false)
  {
    assert "/a/b" == "/a" + "/b" && "/b" + "" == "/b" && "/" + "" == "/";
    ParseJoins("/a", "/b");
    ParseJoins("/b", "");
    ParseJoins("/", "");
  }

  /** The tries left by Store("/a/b"), Store("/") in this order and in the other. */
  lemma TwoOrders()
    ensures var a, b, c := OpStore("/a/b", Some(1)), OpStore("/", Some(2)), Node("/b", Some(1), Nil, Nil);
            && ApplyAll(Fresh, [a, b]) == Node("/a", None, c, Node("/", Some(2), Nil, Nil))
            && ApplyAll(Fresh, [b, a]) == Node("/", Some(2), Nil, Node("/a", None, c, Nil))
  {
    var a, b := OpStore("/a/b", Some(1)), OpStore("/", Some(2));
    StoreSmall();
    assert [a, b][..1] == [a] && [b, a][..1] == [b] && [a][..0] == [] && [b][..0] == [];
    assert ApplyAll(Fresh, [a]) == Store(Fresh, "/a/b", 1);
    assert ApplyAll(Fresh, [b]) == Store(Fresh, "/", 2);
  }

  /** The shadowed case is reachable, and makes the answer depend on the order of two Stores. */
  lemma OrderMatters()
    ensures var ab := [OpStore("/a/b", Some(1)), OpStore("/", Some(2))];
            var ba := [OpStore("/", Some(2)), OpStore("/a/b", Some(1))];
            && LoadPerfix(ApplyAll(Fresh, ab), "/a") == None
            && LoadPerfix(ApplyAll(Fresh, ba), "/a") == Some(2)
  {
    TwoOrders();
    assert "/a" + "" == "/a";
    ParseJoins("/a", "");
  }
}
