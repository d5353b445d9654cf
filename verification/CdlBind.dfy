/** Binding a loadable: its parent properties are resolved, then those of others that waited for its names. */
module CdlBind {
  import opened Vectors
  import opened CdlState
  import opened CdlUpdate

  // First loop of `bind`: Loaded updates for the owned nodes

  ghost function LoadOne(s: State, n: Node): State {
    if s.HasProperty(n) then Loaded(s, n) else s
  }

  ghost function LoadAll(s: State, ns: seq<Node>): State
    decreases |ns|
  {
    if ns == [] then s else LoadOne(LoadAll(s, ns[..|ns| - 1]), ns[|ns| - 1])
  }

  // Second loop: Created updates for the nodes with unresolved conflicts

  ghost function ResolveOne(s: State, n: Node): State {
    if Unbound(s, n) && Lookup(s, n).At? then Created(s, n, Lookup(s, n).node) else s
  }

  ghost function ResolveAll(s: State, ns: seq<Node>): State
    decreases |ns|
  {
    if ns == [] then s else ResolveOne(ResolveAll(s, ns[..|ns| - 1]), ns[|ns| - 1])
  }

  /** `bind` of the loadable `l`; `unresolved` are the nodes whose parent properties have conflicts. */
  ghost function Bind(s: State, l: Node, unresolved: seq<Node>): State {
    ResolveAll(LoadAll(s, Get(s.ownership.down, l)), unresolved)
  }

  /** The loadable is part of the hierarchy and none of its properties is bound or names its own node. */
  ghost predicate Bindable(s: State, l: Node) {
    Owner(s, l) && forall n | n in Get(s.ownership.down, l) && s.HasProperty(n) :: Unbound(s, n)
  }

  /** Only the tree and the bindings differ, and nothing is unbound. */
  ghost predicate MoreBindings(s: State, t: State) {
    && t == s.(tree := t.tree, binding := t.binding)
    && forall n | n in s.binding.up :: n in t.binding.up && t.binding.up[n] == s.binding.up[n]
  }

  /** Only nodes of `ns` have been bound. */
  ghost predicate OnlyBound(s: State, t: State, ns: seq<Node>) {
    forall n | n in t.binding.up && n !in s.binding.up :: n in ns
  }

  /** A parent property is bound as soon as its name is known. */
  ghost predicate Settled(s: State, n: Node) {
    s.HasProperty(n) && !s.BelowRoot(n) && s.info[n].property.destination in s.lookupTable ==> n in s.binding.up
  }

  lemma LoadOneMore(s: State, n: Node)
    requires s.HasProperty(n) ==> n !in s.binding.up
    ensures MoreBindings(s, LoadOne(s, n)) && OnlyBound(s, LoadOne(s, n), [n]) && Settled(LoadOne(s, n), n)
  {
  }

  lemma ResolveOneMore(s: State, n: Node)
    ensures MoreBindings(s, ResolveOne(s, n)) && OnlyBound(s, ResolveOne(s, n), [n])
    ensures n in s.attached && (s.HasProperty(n) ==> s.info[n].property.destination != s.NameOf(n)) ==>
              Settled(ResolveOne(s, n), n)
  {
  }

  lemma MoreIsTransitive(s: State, t: State, u: State, ns: seq<Node>, n: Node)
    requires MoreBindings(s, t) && OnlyBound(s, t, ns) && MoreBindings(t, u) && OnlyBound(t, u, [n])
    ensures MoreBindings(s, u) && OnlyBound(s, u, ns + [n])
  {
  }

  lemma StaysSettled(s: State, t: State, n: Node)
    requires Settled(s, n) && MoreBindings(s, t)
    ensures Settled(t, n)
  {
  }

  lemma LoadOneKeepsValid(s: State, n: Node)
    requires Valid(s) && (s.HasProperty(n) ==> Unbound(s, n))
    ensures Valid(LoadOne(s, n))
  {
    if s.HasProperty(n) {
      LoadedKeepsValid(s, n);
    }
  }

  lemma ResolveOneKeepsValid(s: State, n: Node)
    requires Valid(s)
    ensures Valid(ResolveOne(s, n))
  {
    if Unbound(s, n) && Lookup(s, n).At? {
      assert Named(s) by { Parts(s); }
      LookupFits(s, n);
      CreatedKeepsValid(s, n, Lookup(s, n).node);
    }
  }

  lemma StaysUnbound(s: State, t: State, ns: seq<Node>, n: Node)
    requires Unbound(s, n) && MoreBindings(s, t) && OnlyBound(s, t, ns) && n !in ns
    ensures Unbound(t, n)
  {
  }

  lemma {:induction false} LoadAllWorks(s: State, ns: seq<Node>) returns (t: State)
    requires Valid(s) && Distinct(ns) && forall n | n in ns && s.HasProperty(n) :: Unbound(s, n)
    ensures t == LoadAll(s, ns)
    ensures Valid(t)
    ensures MoreBindings(s, t) && OnlyBound(s, t, ns)
    ensures forall n | n in ns :: Settled(t, n)
    decreases |ns|
  {
    if ns == [] {
      t := s;
    } else {
      var n, rest := ns[|ns| - 1], ns[..|ns| - 1];
      assert ns == rest + [n] && n in ns && n !in rest;
      var u := LoadAllWorks(s, rest);
      if s.HasProperty(n) {
        StaysUnbound(s, u, rest, n);
      }
      t := LoadOne(u, n);
      LoadOneKeepsValid(u, n);
      LoadOneMore(u, n);
      MoreIsTransitive(s, u, t, rest, n);
      forall m | m in rest ensures Settled(t, m) {
        StaysSettled(u, t, m);
      }
    }
  }

  /** The node may be resolved: its property passed the check that it does not name the node itself. */
  ghost predicate Checked(s: State, n: Node) {
    n in s.attached && (s.HasProperty(n) ==> s.info[n].property.destination != s.NameOf(n))
  }

  lemma {:induction false} ResolveAllWorks(s: State, ns: seq<Node>) returns (t: State)
    requires Valid(s)
    ensures t == ResolveAll(s, ns)
    ensures Valid(t)
    ensures MoreBindings(s, t)
    ensures forall n | n in ns && Checked(s, n) :: Settled(t, n)
    decreases |ns|
  {
    if ns == [] {
      t := s;
    } else {
      var n, rest := ns[|ns| - 1], ns[..|ns| - 1];
      assert ns == rest + [n];
      var u := ResolveAllWorks(s, rest);
      t := ResolveOne(u, n);
      ResolveOneKeepsValid(u, n);
      ResolveOneMore(u, n);
      forall m | m in rest && Checked(s, m) ensures Settled(t, m) {
        StaysSettled(u, t, m);
      }
    }
  }

  /** The parent property is bound if and only if its name is known, and then to the node of that name. */
  ghost predicate Resolved(s: State, n: Node) {
    var known := s.HasProperty(n) && !s.BelowRoot(n) && s.info[n].property.destination in s.lookupTable;
    && (n in s.binding.up <==> known)
    && (known ==> s.binding.up[n] == s.lookupTable[s.info[n].property.destination])
  }

  lemma SettledIsResolved(s: State, n: Node)
    requires Named(s) && Binding(s) && Settled(s, n)
    ensures Resolved(s, n)
  {
    if n in s.binding.up {
      assert Fits(s, n, s.binding.up[n]);
    }
  }

  lemma BindSettles(s: State, l: Node, v: seq<Node>, unresolved: seq<Node>) returns (t: State)
    requires Valid(s) && Bindable(s, l) && v == Get(s.ownership.down, l)
    ensures t == Bind(s, l, unresolved) && MoreBindings(s, t)
    ensures Valid(t)
    ensures forall n | n in v || (n in unresolved && Checked(s, n)) :: Settled(t, n)
  {
    assert Distinct(v) by {
      Parts(s);
      OwnedBy(s, l);
    }
    var u := LoadAllWorks(s, v);
    t := ResolveAllWorks(u, unresolved);
    forall n | n in v || (n in unresolved && Checked(s, n)) ensures Settled(t, n) {
      if n in v {
        StaysSettled(u, t, n);
      } else {
        assert Checked(u, n);
      }
    }
  }

  /** `bind` keeps the invariant and resolves every property of the loadable, and every property of another
      node that waited in a conflict, as far as its name is known. */
  lemma BindResolves(s: State, l: Node, unresolved: seq<Node>) returns (t: State)
    requires Valid(s) && Bindable(s, l)
    ensures t == Bind(s, l, unresolved) && MoreBindings(s, t)
    ensures Valid(t)
    ensures forall n | n in Get(s.ownership.down, l) || (n in unresolved && Checked(s, n)) :: Resolved(t, n)
  {
    var v := Get(s.ownership.down, l);
    t := BindSettles(s, l, v, unresolved);
    assert Named(t) && Binding(t) by { Parts(t); }
    forall n | n in v || (n in unresolved && Checked(s, n)) ensures Resolved(t, n) {
      SettledIsResolved(t, n);
    }
  }
}
