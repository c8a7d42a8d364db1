/** web.WebPath: the trie in memory. Every operation does to the objects what PathTree says of the value. */
module WebPath {
  import opened Util
  import T = PathTree

  class WebPath {
    var Path: string
    var f: Option<T.Handler>
    var PerSame: WebPath?
    var Per: WebPath?
    var Same: WebPath?
    var Next: WebPath?
    ghost var Repr: set<object>
    ghost var Value: T.Tree

    ghost predicate Valid()
      reads this, Repr
      ensures Valid() ==> this in Repr && Value.Node?
    {
      && this in Repr
      && Value.Node? && Value.path == Path && Value.f == f
      && (if Same == null then Value.same == T.Nil
          else Same in Repr && Same.Repr <= Repr && this !in Same.Repr && Same.Valid()
               && Same.PerSame == this && Value.same == Same.Value)
      && (if Next == null then Value.next == T.Nil
          else Next in Repr && Next.Repr <= Repr && this !in Next.Repr && Next.Valid()
               && Next.Per == this && Value.next == Next.Value)
      && (Same != null && Next != null ==> Same.Repr !! Next.Repr)
    }

    /** &WebPath{}, with the back link the caller gives it. */
    constructor (perSame: WebPath?, per: WebPath?)
      ensures Valid() && fresh(Repr) && Value == T.Fresh
      ensures PerSame == perSame && Per == per
    {
      Path, f, Same, Next := "", None, null, null;
      PerSame, Per := perSame, per;
      Repr, Value := {this}, T.Fresh;
    }

    method Load(path: string) returns (h: Option<T.Handler>)
      requires Valid()
      ensures h == T.Load(Value, path)
      decreases Value
    {
      if |path| == 0 || path[0] != '/' { return None; }
      var p := T.ParsePath(path);
      if Path == p.key {
        if p.fin { return f; }
        if Same == null { return None; }
        h := Same.Load(p.left);
      } else {
        if Next == null { return None; }
        h := Next.Load(path);
      }
    }

    method LoadPerfix(path: string) returns (h: Option<T.Handler>)
      requires Valid()
      ensures h == T.LoadPerfix(Value, path)
      decreases Value
    {
      if |path| == 0 || path[0] != '/' { return None; }
      var p := T.ParsePath(path);
      h := None;
      if Path == "/" {
        h := f;
        if Path != p.key {
          if Next != null {
            var h1 := Next.LoadPerfix(path);
            if h1.Some? { h := h1; }
          }
        } else if !p.fin && Same != null {
          var h1 := Same.LoadPerfix(p.left);
          if h1.Some? { h := h1; }
        }
      } else if Path == p.key {
        if p.fin { return f; }
        if Same != null {
          h := Same.LoadPerfix(p.left);
          if h.Some? { return; }
        }
        if Next != null { h := Next.LoadPerfix(path); }
      } else if Next != null {
        h := Next.LoadPerfix(path);
      }
    }

    /** Both children are tries of their own, apart from each other and from this node. */
    ghost predicate Wired()
      reads this, Same, Next, if Same == null then {} else Same.Repr, if Next == null then {} else Next.Repr
    {
      && (Same != null ==> Same.Valid() && this !in Same.Repr && Same.PerSame == this)
      && (Next != null ==> Next.Valid() && this !in Next.Repr && Next.Per == this)
      && (Same != null && Next != null ==> Same.Repr !! Next.Repr)
    }

    /** Brings the footprint and the value up to date after a child has changed. */
    ghost method Refresh()
      requires this in Repr && Wired()
      modifies this`Repr, this`Value
      ensures Valid()
      ensures Repr == old(Repr) + (if Same == null then {} else Same.Repr) + (if Next == null then {} else Next.Repr)
      ensures Value == T.Node(Path, f, if Same == null then T.Nil else Same.Value, if Next == null then T.Nil else Next.Value)
    {
      Repr := Repr + (if Same == null then {} else Same.Repr) + (if Next == null then {} else Next.Repr);
      Value := T.Node(Path, f, if Same == null then T.Nil else Same.Value, if Next == null then T.Nil else Next.Value);
    }

    /** t.Path = key; t.f = h */
    method SetHere(key: string, h: Option<T.Handler>)
      requires Valid()
      modifies this
      ensures Valid() && Repr == old(Repr) && Value == old(Value).(path := key, f := h)
      ensures PerSame == old(PerSame) && Per == old(Per)
    {
      Path, f := key, h;
      Value := Value.(path := key, f := h);
    }

    /** t.Same = nil */
    method DropSame()
      requires Valid()
      modifies this
      ensures Valid() && Repr == old(Repr) && Value == old(Value).(same := T.Nil)
      ensures PerSame == old(PerSame) && Per == old(Per)
    {
      Same := null;
      Value := Value.(same := T.Nil);
    }

    /** t.Next = nil */
    method DropNext()
      requires Valid()
      modifies this
      ensures Valid() && Repr == old(Repr) && Value == old(Value).(next := T.Nil)
      ensures PerSame == old(PerSame) && Per == old(Per)
    {
      Next := null;
      Value := Value.(next := T.Nil);
    }

    /** The unexported store; `path` is rooted at every call. */
    method StoreHere(path: string, g: T.Handler)
      requires Valid() && T.Rooted(path)
      modifies Repr
      ensures Valid() && fresh(Repr - old(Repr))
      ensures Value == T.Store(old(Value), path, g)
      ensures PerSame == old(PerSame) && Per == old(Per)
      decreases |path|, Path != "", Value, 2
    {
      T.ParseSplits(path);
      var p := T.ParsePath(path);
      if Path == "" {
        StoreFresh(path, g);
      } else if Path == p.key {
        if p.fin { SetHere(Path, Some(g)); } else { StoreSame(p.left, g); }
      } else {
        StoreNext(path, g);
      }
    }

    /** The branch of store that gives an unused node its name. */
    method StoreFresh(path: string, g: T.Handler)
      requires Valid() && T.Rooted(path) && Path == ""
      modifies Repr
      ensures Valid() && fresh(Repr - old(Repr))
      ensures Value == T.Store(old(Value), path, g)
      ensures PerSame == old(PerSame) && Per == old(Per)
      decreases |path|, false, Value, 1
    {
      T.ParseSplits(path);
      T.StoreNames(Value, path, g);
      var p := T.ParsePath(path);
      if p.fin { SetHere(p.key, Some(g)); } else { StoreFreshBelow(p.key, p.left, g); }
    }

    /** Its name, then everything else below it. */
    method StoreFreshBelow(key: string, left: string, g: T.Handler)
      requires Valid() && T.Rooted(left)
      modifies Repr
      ensures Valid() && fresh(Repr - old(Repr))
      ensures Value == old(Value).(path := key, same := T.Store(T.Nil, left, g))
      ensures PerSame == old(PerSame) && Per == old(Per)
      decreases |left| + 1, false, Value, 0
    {
      SetHere(key, f);
      DropSame();
      StoreSame(left, g);
    }

    /** if t.Same == nil { t.Same = &WebPath{PerSame: t} } */
    method NeedSame()
      requires Valid()
      modifies this
      ensures Valid() && Same != null && fresh(Repr - old(Repr))
      ensures Value == old(Value).(same := if old(Value).same == T.Nil then T.Fresh else old(Value).same)
      ensures PerSame == old(PerSame) && Per == old(Per)
    {
      if Same == null {
        Same := new WebPath(this, null);
        Repr, Value := Repr + Same.Repr, Value.(same := T.Fresh);
      }
    }

    /** if t.Next == nil { t.Next = &WebPath{Per: t} } */
    method NeedNext()
      requires Valid()
      modifies this
      ensures Valid() && Next != null && fresh(Repr - old(Repr))
      ensures Value == old(Value).(next := if old(Value).next == T.Nil then T.Fresh else old(Value).next)
      ensures PerSame == old(PerSame) && Per == old(Per)
    {
      if Next == null {
        Next := new WebPath(null, this);
        Repr, Value := Repr + Next.Repr, Value.(next := T.Fresh);
      }
    }

    method StoreSame(left: string, g: T.Handler)
      requires Valid() && T.Rooted(left)
      modifies Repr
      ensures Valid() && fresh(Repr - old(Repr))
      ensures Value == old(Value).(same := T.Store(old(Value).same, left, g))
      ensures PerSame == old(PerSame) && Per == old(Per)
      decreases |left|, true, Value, 2
    {
      T.StoreUnused(left, g);
      NeedSame();
      label child:
      Same.StoreHere(left, g);
      assert Next != null ==> Next.Valid() && unchanged@child(Next);
      Refresh();
    }

    method StoreNext(path: string, g: T.Handler)
      requires Valid() && T.Rooted(path) && Path != ""
      modifies Repr
      ensures Valid() && fresh(Repr - old(Repr))
      ensures Value == old(Value).(next := T.Store(old(Value).next, path, g))
      ensures PerSame == old(PerSame) && Per == old(Per)
      decreases |path|, true, Value, 1
    {
      T.StoreUnused(path, g);
      ghost var bound := Value;
      NeedNext();
      StoreInNext(path, g, bound);
    }

    /** t.Next.Store(path, f); a new sibling has no name yet, and any other one is smaller than `bound`. */
    method StoreInNext(path: string, g: T.Handler, ghost bound: T.Tree)
      requires Valid() && T.Rooted(path) && Next != null && (Next.Path == "" || Next.Value < bound)
      modifies Repr
      ensures Valid() && fresh(Repr - old(Repr))
      ensures Value == old(Value).(next := T.Store(old(Value).next, path, g))
      ensures PerSame == old(PerSame) && Per == old(Per)
      decreases |path|, true, bound, 0
    {
      Next.StoreHere(path, g);
      assert Same != null ==> Same.Valid() && unchanged(Same);
      Refresh();
    }

    method DeleteSame(left: string)
      requires Valid() && Same != null
      modifies Repr
      ensures Valid() && Repr == old(Repr)
      ensures var (same, gone) := T.Delete(old(Value).same, left);
              Value == old(Value).(same := if gone then T.Nil else same)
      ensures PerSame == old(PerSame) && Per == old(Per)
      decreases Value, 0
    {
      var gone := Same.Delete(left);
      assert Next != null ==> Next.Valid() && unchanged(Next);
      Refresh();
      if gone { DropSame(); }
    }

    method DeleteNext(path: string)
      requires Valid() && Next != null
      modifies Repr
      ensures Valid() && Repr == old(Repr)
      ensures var (next, gone) := T.Delete(old(Value).next, path);
              Value == old(Value).(next := if gone then T.Nil else next)
      ensures PerSame == old(PerSame) && Per == old(Per)
      decreases Value, 0
    {
      var gone := Next.Delete(path);
      assert Same != null ==> Same.Valid() && unchanged(Same);
      Refresh();
      if gone { DropNext(); }
    }

    method Delete(path: string) returns (deleteMe: bool)
      requires Valid()
      modifies Repr
      ensures Valid() && Repr == old(Repr)
      ensures (Value, deleteMe) == T.Delete(old(Value), path)
      ensures PerSame == old(PerSame) && Per == old(Per)
      decreases Value, 1
    {
      if |path| == 0 || path[0] != '/' { return false; }
      var p := T.ParsePath(path);
      if Path == p.key {
        if p.fin {
          SetHere(Path, None);
        } else {
          if Same == null { return false; }
          DeleteSame(p.left);
        }
      } else {
        if Next == null { return false; }
        DeleteNext(path);
      }
      deleteMe := f == None && Next == null && Same == null;
    }

    method Store(path: string, g: Option<T.Handler>)
      requires Valid()
      modifies Repr
      ensures Valid() && fresh(Repr - old(Repr))
      ensures Value == T.Apply(old(Value), T.OpStore(path, g))
    {
      if |path| == 0 || path[0] != '/' { return; }
      if g == None {
        var _ := Delete(path);
      } else {
        StoreHere(path, g.value);
      }
    }

    method StoreIfNotExist(path: string, g: Option<T.Handler>)
      requires Valid()
      modifies Repr
      ensures Valid() && fresh(Repr - old(Repr))
      ensures Value == T.Apply(old(Value), T.OpStoreIfNotExist(path, g))
    {
      if |path| == 0 || path[0] != '/' { return; }
      if g == None {
        var _ := Delete(path);
      } else {
        var h := Load(path);
        if h == None { StoreHere(path, g.value); }
      }
    }
  }
}
