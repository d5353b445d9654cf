/** Where `bind` puts the nodes of a loadable that has just been attached, and what that adds below the toplevel. */
module CdlRebind {
  import opened Vectors
  import opened CdlState
  import opened CdlUpdate
  import opened CdlBind
  import opened CdlUnbind
  import opened CdlDetach
  import opened CdlReverse
  import opened Forest

  /** `n` stands directly below the toplevel although its parent property waits for a name. */
  ghost predicate WaitsAtRoot(s: State, n: Node) {
    AtRoot(s, n) && s.HasProperty(n) && !s.BelowRoot(n) && n !in s.binding.up
  }

  /** An update that makes an Unresolved conflict leaves the node with the orphans, so that it does not wait there. */
  lemma ConflictOrphans(s: State, n: Node)
    requires Valid(s)
    ensures Unbound(s, n) && Lookup(s, n).Nowhere? && !s.BelowRoot(n) ==>
              Loaded(s, n).tree.up == s.tree.up[n := s.orphans]
    ensures n in s.binding.up ==> Destroyed(s, n).tree.up == s.tree.up[n := s.orphans]
    ensures s.orphans != s.top
  {
    assert s.orphans != s.top by { Parts(s); }
    if Unbound(s, n) {
      Parts(s);
      HandleNowhereKeepsTree(s, n);
    }
    if n in s.binding.up {
      DestroyedOrphans(s, n);
    }
  }

  // The first loop

  /** Where a Loaded update puts the node. */
  ghost function LoadedParent(s: State, n: Node): Node
    requires n in s.tree.up
  {
    if !s.HasProperty(n) then s.tree.up[n]
    else if s.BelowRoot(n) then s.top
    else if Lookup(s, n).At? then CreatedParent(s, n, Lookup(s, n).node)
    else s.orphans
  }

  lemma LoadedMoves(s: State, n: Node)
    requires Rooted(s) && Hierarchy(s) && Named(s) && Unbound(s, n)
    ensures n in s.tree.up && Loaded(s, n).tree.up == s.tree.up[n := LoadedParent(s, n)]
  {
    var d := Lookup(s, n);
    if d.At? {
      LookupFits(s, n);
      HandleAtKeepsTree(s, n, d.node);
    } else {
      HandleNowhereKeepsTree(s, n);
    }
  }

  lemma LoadOneMoves(s: State, n: Node)
    requires Valid(s) && n in s.tree.up && (s.HasProperty(n) ==> Unbound(s, n))
    ensures LoadOne(s, n).tree.up == s.tree.up[n := LoadedParent(s, n)] && LoadOne(s, n).top == s.top
  {
    if s.HasProperty(n) {
      Parts(s);
      LoadedMoves(s, n);
    }
  }

  /** A node that was elsewhere comes below the toplevel only if its property names the root. */
  lemma LoadedElsewhere(s: State, n: Node)
    requires Valid(s) && n in s.tree.up && !AtRoot(s, n)
    ensures LoadedParent(s, n) == s.top <==> s.BelowRoot(n)
  {
    Parts(s);
    if Lookup(s, n).At? {
      LookupFits(s, n);
    }
  }

  /** `l`, unbound and directly below the toplevel, remains there when it is bound. */
  ghost predicate Remains(s: State, l: Node) {
    !s.HasProperty(l) || s.BelowRoot(l) ||
    (Lookup(s, l).At? && (!s.IsContainer(Lookup(s, l).node) || Lookup(s, l).node in Get(s.ownership.down, l)))
  }

  lemma {:induction false} OwnedBelow(s: State, l: Node, v: seq<Node>, i: nat)
    requires Isolated(s, l) && v == Get(s.ownership.down, l) && Heads(s, l) && Mirrored(s.ownership) && 0 < i < |v|
    ensures Below(s.tree.up, v[i], l)
    decreases i
  {
    OwnedBy(s, l);
    var n := v[i];
    assert n in v && n != v[0];
    assert AtHome(s, n, s.tree.up[n]);
    var a, b :| 0 <= a < b < |v| && v[a] == s.tree.up[n] && v[b] == n;
    BelowStep(s.tree.up, n, l);
    if a > 0 {
      OwnedBelow(s, l, v, a);
    }
  }

  lemma {:induction false} NothingElseBelow(s: State, l: Node, n: Node, k: nat)
    requires NoGuests(s, l) && l in Get(s.ownership.down, l) && BelowIn(s.tree.up, n, l, k)
    ensures n in Get(s.ownership.down, l)
    decreases k
  {
    if s.tree.up[n] != l {
      NothingElseBelow(s, l, s.tree.up[n], k - 1);
    }
  }

  /** Below an isolated loadable are its own nodes and no others. */
  lemma BelowIsolated(s: State, l: Node, d: Node)
    requires Isolated(s, l) && Heads(s, l) && Mirrored(s.ownership) && d != l
    ensures Below(s.tree.up, d, l) <==> d in Get(s.ownership.down, l)
  {
    var v := Get(s.ownership.down, l);
    assert l in v;
    if d in v {
      var i :| 0 <= i < |v| && v[i] == d;
      OwnedBelow(s, l, v, i);
    }
    if Below(s.tree.up, d, l) {
      var k: nat :| BelowIn(s.tree.up, d, l, k);
      NothingElseBelow(s, l, d, k);
    }
  }

  lemma RefusedIff(s: State, l: Node, d: Node)
    requires Isolated(s, l) && Heads(s, l) && Mirrored(s.ownership) && d != l
    ensures Decide(s, l, At(d)).Reparented? <==> s.IsContainer(d) && d !in Get(s.ownership.down, l)
  {
    BelowIsolated(s, l, d);
  }

  lemma LookupIsAnother(s: State, l: Node)
    requires Rooted(s) && Named(s) && Lookup(s, l).At?
    requires s.HasProperty(l) ==> s.info[l].property.destination != s.NameOf(l)
    ensures Lookup(s, l).node != l && Lookup(s, l).node in s.attached
  {
    LookupFits(s, l);
  }

  lemma LoadableRemains(s: State, l: Node)
    requires Valid(s) && Bindable(s, l) && Isolated(s, l)
    ensures l in s.tree.up && (LoadedParent(s, l) == s.top <==> Remains(s, l))
  {
    assert AtRoot(s, l) && s.orphans != s.top && s.top !in s.attached && Mirrored(s.ownership) by {
      Parts(s);
      AtTop(s, l);
    }
    assert l in Get(s.ownership.down, l);
    if s.HasProperty(l) && Lookup(s, l).At? {
      assert Lookup(s, l).node != l && Lookup(s, l).node in s.attached by {
        Parts(s);
        LookupIsAnother(s, l);
      }
      RefusedIff(s, l, Lookup(s, l).node);
    }
  }

  lemma OwnElsewhere(s: State, l: Node, n: Node)
    requires Valid(s) && Owner(s, l) && Isolated(s, l) && n in Get(s.ownership.down, l)
    ensures n in s.tree.up && (AtRoot(s, n) <==> n == l)
  {
    Parts(s);
    OwnAtRoot(s, l, n);
  }

  /** Where the loop over `ns`, the first owned nodes, leaves `m`. */
  ghost predicate PlacedByLoop(s: State, l: Node, ns: seq<Node>, m: Node) {
    if m !in ns then AtRoot(s, m) else if m == l then Remains(s, l) else s.BelowRoot(m)
  }

  lemma NextUnbound(s: State, u: State, rest: seq<Node>, n: Node)
    requires Distinct(rest + [n]) && (s.HasProperty(n) ==> Unbound(s, n)) && MoreBindings(s, u) && OnlyBound(s, u, rest)
    ensures n !in rest && (u.HasProperty(n) ==> Unbound(u, n))
  {
    assert (rest + [n])[|rest|] == n;
    forall i | 0 <= i < |rest| ensures rest[i] != n {
      assert (rest + [n])[i] == rest[i];
    }
    if s.HasProperty(n) {
      StaysUnbound(s, u, rest, n);
    }
  }

  lemma FirstIsLoadable(s: State, l: Node, rest: seq<Node>, n: Node)
    requires Heads(s, l) && rest + [n] <= Get(s.ownership.down, l) && n !in rest
    ensures n in Get(s.ownership.down, l) && (n == l ==> rest == [])
  {
    assert (rest + [n])[|rest|] == n;
    assert rest != [] ==> rest[0] == (rest + [n])[0] == l;
  }

  /** Of the nodes of `l` only itself is directly below the toplevel, and a Loaded update decides whether it remains. */
  ghost predicate Apart(s: State, l: Node) {
    && l in s.tree.up && (LoadedParent(s, l) == s.top <==> Remains(s, l))
    && forall n | n in Get(s.ownership.down, l) :: AtRoot(s, n) <==> n == l
  }

  lemma IsolatedIsApart(s: State, l: Node)
    requires Valid(s) && Bindable(s, l) && Isolated(s, l)
    ensures Apart(s, l)
  {
    LoadableRemains(s, l);
    forall n | n in Get(s.ownership.down, l) ensures AtRoot(s, n) <==> n == l {
      OwnElsewhere(s, l, n);
    }
  }

  /** One more Loaded update. */
  lemma LoopStep(s: State, u: State, l: Node, rest: seq<Node>, n: Node, m: Node)
    requires Valid(s) && Bindable(s, l) && Apart(s, l) && rest + [n] <= Get(s.ownership.down, l) && n !in rest
    requires Valid(u) && u == LoadAll(s, rest) && MoreBindings(s, u) && (u.HasProperty(n) ==> Unbound(u, n))
    requires AtRoot(u, m) <==> PlacedByLoop(s, l, rest, m)
    requires n in u.tree.up && (AtRoot(u, n) <==> PlacedByLoop(s, l, rest, n))
    ensures AtRoot(LoadOne(u, n), m) <==> PlacedByLoop(s, l, rest + [n], m)
  {
    LoadOneMoves(u, n);
    FirstIsLoadable(s, l, rest, n);
    if m == n && n != l {
      LoadedElsewhere(u, n);
    }
  }

  lemma OwnedPrefix(s: State, l: Node, ns: seq<Node>)
    requires Bindable(s, l) && ns <= Get(s.ownership.down, l)
    ensures forall n | n in ns && s.HasProperty(n) :: Unbound(s, n)
  {
    assert forall n | n in ns :: n in Get(s.ownership.down, l);
  }

  lemma OwnedInTree(s: State, l: Node, n: Node)
    requires Valid(s) && Owner(s, l) && n in Get(s.ownership.down, l)
    ensures n in s.tree.up
  {
    Parts(s);
    OwnedTogether(s, l, n);
  }

  lemma LoadSome(s: State, l: Node, ns: seq<Node>) returns (t: State)
    requires Valid(s) && Bindable(s, l) && ns <= Get(s.ownership.down, l) && Distinct(ns)
    ensures t == LoadAll(s, ns) && MoreBindings(s, t) && OnlyBound(s, t, ns)
    ensures Valid(t)
  {
    OwnedPrefix(s, l, ns);
    t := LoadAllWorks(s, ns);
  }

  lemma LoopTurn(s: State, l: Node, rest: seq<Node>, n: Node, m: Node)
    requires Valid(s) && Bindable(s, l) && Apart(s, l) && rest + [n] <= Get(s.ownership.down, l) && Distinct(rest + [n])
    requires AtRoot(LoadAll(s, rest), m) <==> PlacedByLoop(s, l, rest, m)
    requires AtRoot(LoadAll(s, rest), n) <==> PlacedByLoop(s, l, rest, n)
    ensures AtRoot(LoadOne(LoadAll(s, rest), n), m) <==> PlacedByLoop(s, l, rest + [n], m)
  {
    assert rest <= rest + [n] && n in rest + [n] && forall i | 0 <= i < |rest| :: (rest + [n])[i] == rest[i];
    var u := LoadSome(s, l, rest);
    OwnedPrefix(s, l, rest + [n]);
    NextUnbound(s, u, rest, n);
    OwnedInTree(u, l, n);
    LoopStep(s, u, l, rest, n, m);
  }

  /** The first loop leaves the loadable below the toplevel if it remains there, and of its other nodes those
      whose properties name the root. */
  lemma {:induction false} LoopPlaces(s: State, l: Node, ns: seq<Node>, m: Node)
    requires Valid(s) && Bindable(s, l) && Apart(s, l) && ns <= Get(s.ownership.down, l) && Distinct(ns)
    ensures AtRoot(LoadAll(s, ns), m) <==> PlacedByLoop(s, l, ns, m)
    decreases |ns|
  {
    if ns != [] {
      var n, rest := ns[|ns| - 1], ns[..|ns| - 1];
      assert ns == rest + [n];
      LoopPlaces(s, l, rest, m);
      LoopPlaces(s, l, rest, n);
      LoopTurn(s, l, rest, n, m);
    }
  }

  // The second loop

  /** A Created update does not reach below the toplevel unless it finds the node there. */
  lemma ResolveOneAtRoot(s: State, n: Node, m: Node)
    requires Valid(s) && !WaitsAtRoot(s, n)
    ensures AtRoot(ResolveOne(s, n), m) <==> AtRoot(s, m)
  {
    if Unbound(s, n) && Lookup(s, n).At? {
      var d := Lookup(s, n).node;
      assert d in s.attached && s.top !in s.attached && !s.BelowRoot(n) by {
        Parts(s);
        LookupFits(s, n);
      }
      assert n in s.tree.up && Created(s, n, d).tree.up == s.tree.up[n := CreatedParent(s, n, d)] by {
        Parts(s);
        LoadedMoves(s, n);
      }
    }
  }

  lemma StillNotWaiting(s: State, t: State, n: Node)
    requires MoreBindings(s, t) && !WaitsAtRoot(s, n) && (AtRoot(t, n) <==> AtRoot(s, n))
    ensures !WaitsAtRoot(t, n)
  {
  }

  /** The second loop moves nothing to or from the place directly below the toplevel, as nothing waits there. */
  lemma {:induction false} ResolveAllAtRoot(s: State, ns: seq<Node>, m: Node)
    requires Valid(s) && forall n | n in ns :: !WaitsAtRoot(s, n)
    ensures AtRoot(ResolveAll(s, ns), m) <==> AtRoot(s, m)
    decreases |ns|
  {
    if ns != [] {
      var n, rest := ns[|ns| - 1], ns[..|ns| - 1];
      assert ns == rest + [n] && n in ns;
      var u := ResolveAllWorks(s, rest);
      ResolveAllAtRoot(s, rest, m);
      ResolveAllAtRoot(s, rest, n);
      StillNotWaiting(s, u, n);
      ResolveOneAtRoot(u, n, m);
    }
  }

  // Both loops

  lemma LoadedDoesNotWait(s: State, l: Node, n: Node)
    requires Valid(s) && Bindable(s, l) && Isolated(s, l) && (n !in Get(s.ownership.down, l) ==> !WaitsAtRoot(s, n))
    ensures !WaitsAtRoot(LoadAll(s, Get(s.ownership.down, l)), n)
  {
    var v := Get(s.ownership.down, l);
    assert Distinct(v) by {
      Parts(s);
      OwnedBy(s, l);
    }
    IsolatedIsApart(s, l);
    LoopPlaces(s, l, v, n);
    var t := LoadAllWorks(s, v);
  }

  /** What stands directly below the toplevel after `bind` of an isolated loadable: the loadable if it remains there,
      its other nodes whose properties name the root, and what stood there before. */
  lemma BindAtRoot(s: State, l: Node, unresolved: seq<Node>, m: Node)
    requires Valid(s) && Bindable(s, l) && Isolated(s, l)
    requires forall n | n in unresolved && n !in Get(s.ownership.down, l) :: !WaitsAtRoot(s, n)
    ensures AtRoot(Bind(s, l, unresolved), m) <==>
            || (m == l && Remains(s, l))
            || (m != l && m in Get(s.ownership.down, l) && s.BelowRoot(m))
            || (m !in Get(s.ownership.down, l) && AtRoot(s, m))
  {
    var v := Get(s.ownership.down, l);
    assert Distinct(v) by {
      Parts(s);
      OwnedBy(s, l);
    }
    assert l in v;
    IsolatedIsApart(s, l);
    LoopPlaces(s, l, v, m);
    var t := LoadSome(s, l, v);
    forall n | n in unresolved ensures !WaitsAtRoot(t, n) {
      LoadedDoesNotWait(s, l, n);
    }
    ResolveAllAtRoot(t, unresolved, m);
  }
}
