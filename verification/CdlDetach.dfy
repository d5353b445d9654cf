/** The first stage of an unload: the loadable is unbound and taken out of the toplevel, alive. */
module CdlDetach {
  import opened Vectors
  import opened CdlState
  import opened CdlUpdate
  import opened CdlUnbind
  import opened Forest

  function Names(s: State, ns: seq<Node>): set<string> {
    set n | n in ns :: s.NameOf(n)
  }

  /** The effect of `remove_loadable_from_toplevel`. */
  function Detached(s: State, l: Node, ns: seq<Node>): State {
    var j := IndexOf(s.loadables, l);
    s.(attached := s.attached - Members(ns), lookupTable := s.lookupTable - Names(s, ns),
       tree := Unlink(s.tree, l), containerPosition := s.containerPosition[l := IndexOf(Get(s.tree.down, s.top), l)],
       loadablesPosition := s.loadablesPosition[l := j], loadables := RemoveAt(s.loadables, j))
  }

  lemma {:induction false} RemovalDetaches(s: State, l: Node, ns: seq<Node>)
    requires ns != [] && ns[0] == l && s.IsLoadable(l) && l in s.tree.up && s.tree.up[l] == s.top
    requires Distinct(ns) && forall n | n in ns :: n in s.attached && (n != l ==> !s.IsLoadable(n))
    ensures RemoveFromToplevel(s, ns) == Detached(s, l, ns)
    decreases |ns|
  {
    var n, rest := ns[|ns| - 1], ns[..|ns| - 1];
    if rest == [] {
      assert ns == [l];
      LoadableDetaches(s, l, ns);
    } else {
      assert n != l && rest[0] == l && n in ns;
      RestStays(s, l, ns, n, rest);
      RemovalDetaches(Unregister(s, n), l, rest);
      DetachedAfter(s, l, n, rest, ns);
    }
  }

  lemma RestStays(s: State, l: Node, ns: seq<Node>, n: Node, rest: seq<Node>)
    requires ns != [] && n == ns[|ns| - 1] && rest == ns[..|ns| - 1]
    requires Distinct(ns) && forall m | m in ns :: m in s.attached && (m != l ==> !s.IsLoadable(m))
    ensures Distinct(rest)
    ensures forall m | m in rest :: m in Unregister(s, n).attached && (m != l ==> !Unregister(s, n).IsLoadable(m))
    ensures Members(ns) == Members(rest) + {n} && Names(s, ns) == Names(s, rest) + {s.NameOf(n)}
  {
    assert ns == rest + [n];
    forall m | m in rest ensures m in s.attached && m != n && (m != l ==> !s.IsLoadable(m)) {
      assert m in ns;
    }
  }

  lemma LoadableDetaches(s: State, l: Node, ns: seq<Node>)
    requires ns == [l] && s.IsLoadable(l) && l in s.tree.up && s.tree.up[l] == s.top && l in s.attached
    ensures RemoveFromToplevel(s, ns) == Detached(s, l, ns)
  {
    assert Members(ns) == {l} && Names(s, ns) == {s.NameOf(l)};
    assert RemoveFromToplevel(RemoveNodeFromToplevel(s, l), ns[..0]) == RemoveNodeFromToplevel(s, l);
  }

  lemma DetachedAfter(s: State, l: Node, n: Node, rest: seq<Node>, ns: seq<Node>)
    requires Members(ns) == Members(rest) + {n} && Names(s, ns) == Names(s, rest) + {s.NameOf(n)}
    ensures Detached(Unregister(s, n), l, rest) == Detached(s, l, ns)
  {
    assert Names(Unregister(s, n), rest) == Names(s, rest);
    assert s.attached - {n} - Members(rest) == s.attached - Members(ns);
    assert s.lookupTable - {s.NameOf(n)} - Names(s, rest) == s.lookupTable - Names(s, ns);
  }

  /** What `unload_package` does to the hierarchy. */
  ghost function Begin(s: State, l: Node): State {
    RemoveFromToplevel(UnbindLoadable(s, l), Get(s.ownership.down, l))
  }

  lemma OwnedTogetherAll(s: State, l: Node)
    requires Owning(s) && Owner(s, l)
    ensures forall n | n in Get(s.ownership.down, l) :: n in s.attached && (n != l ==> !s.IsLoadable(n))
  {
    forall n | n in Get(s.ownership.down, l) ensures n in s.attached && (n != l ==> !s.IsLoadable(n)) {
      OwnedTogether(s, l, n);
      if s.IsLoadable(n) {
        OnlyLoadable(s, l, n);
      }
    }
  }

  lemma AtTop(u: State, l: Node)
    requires Owning(u) && Owner(u, l) && Isolated(u, l)
    ensures l in u.tree.up && u.tree.up[l] == u.top
  {
    LoadableOwnsItself(u, l);
  }

  // What detaching an isolated loadable leaves is valid

  lemma DetachedRooted(u: State, l: Node, v: seq<Node>)
    requires Rooted(u) && l != u.orphans
    ensures Rooted(Detached(u, l, v))
  {
  }

  lemma HoldersWithout(u: State, l: Node, v: seq<Node>, p: Node)
    requires Rooted(u) && Mirrored(u.ownership) && v == Get(u.ownership.down, l)
    ensures p in Holders(Detached(u, l, v)) <==> p in Holders(u) && p !in v
  {
    OwnedBy(u, l);
  }

  lemma DetachedHolders(u: State, l: Node, v: seq<Node>, n: Node)
    requires Rooted(u) && Hierarchy(u) && Owning(u) && Owner(u, l) && v == Get(u.ownership.down, l) && Isolated(u, l)
    requires n in u.tree.up && n != l
    ensures n in Detached(u, l, v).attached <==> u.tree.up[n] in Holders(Detached(u, l, v))
  {
    HoldersWithout(u, l, v, u.tree.up[n]);
    if n in v {
      OwnedBy(u, l);
      assert AtHome(u, n, u.tree.up[n]);
    }
  }

  lemma StillClimbs(u: State, l: Node, v: seq<Node>, n: Node)
    requires Hierarchy(u) && v == Get(u.ownership.down, l) && NoGuests(u, l) && l in v
    requires n in u.attached && n !in v
    ensures Climbs(u.tree.up - {l}, u.top, n)
  {
    var k: nat :| Reaches(u.tree.up, u.top, n, k);
    ChainStaysOutside(u.tree.up, u.top, Members(v), u.tree.up - {l}, n, k);
  }

  lemma DetachedHierarchy(u: State, l: Node, v: seq<Node>)
    requires Rooted(u) && Hierarchy(u) && Owning(u) && Owner(u, l) && v == Get(u.ownership.down, l) && Isolated(u, l)
    ensures Hierarchy(Detached(u, l, v))
  {
    var t := Detached(u, l, v);
    AtTop(u, l);
    LoadableOwnsItself(u, l);
    UnlinkKeepsMirror(u.tree, l);
    forall n | n in t.tree.up ensures n in t.attached <==> t.tree.up[n] in Holders(t) {
      DetachedHolders(u, l, v, n);
    }
    forall n | n in t.attached ensures Climbs(t.tree.up, t.top, n) {
      StillClimbs(u, l, v, n);
    }
  }

  lemma DetachedNamed(u: State, l: Node, v: seq<Node>)
    requires Named(u) && forall n | n in v :: n in u.attached
    ensures Named(Detached(u, l, v))
  {
    var t := Detached(u, l, v);
    forall n | n in t.attached ensures t.NameOf(n) in t.lookupTable && t.lookupTable[t.NameOf(n)] == n {
      forall m | m in v ensures u.NameOf(m) != u.NameOf(n) {
        assert u.lookupTable[u.NameOf(m)] == m && u.lookupTable[u.NameOf(n)] == n;
      }
    }
    forall k | k in t.lookupTable ensures t.lookupTable[k] in t.attached && t.NameOf(t.lookupTable[k]) == k {
      var n := u.lookupTable[k];
      assert u.NameOf(n) == k;
      assert n in v ==> k in Names(u, v);
    }
  }

  lemma DetachedLoadables(u: State, l: Node, v: seq<Node>)
    requires Owning(u) && Owner(u, l) && v == Get(u.ownership.down, l)
    ensures var t := Detached(u, l, v);
            Distinct(t.loadables) && forall n :: n in t.loadables <==> n in t.attached && t.IsLoadable(n)
  {
    OwnedTogetherAll(u, l);
    LoadableOwnsItself(u, l);
    RemoveAtMembers(u.loadables, IndexOf(u.loadables, l));
  }

  lemma DetachedOwning(u: State, l: Node, v: seq<Node>)
    requires Owning(u) && Owner(u, l) && v == Get(u.ownership.down, l)
    ensures Owning(Detached(u, l, v))
  {
    var t := Detached(u, l, v);
    DetachedLoadables(u, l, v);
    OwnedBy(u, l);
    LoadableOwnsItself(u, l);
    forall k ensures Heads(t, k) == Heads(u, k) && t.IsLoadable(k) == u.IsLoadable(k) {
    }
    forall n | n in t.ownership.up
      ensures Heads(t, t.ownership.up[n]) && (n in t.attached <==> t.ownership.up[n] in t.attached)
    {
      LoadableOwnsItself(u, u.ownership.up[n]);
    }
  }

  lemma DetachedBinding(u: State, l: Node, v: seq<Node>)
    requires Binding(u) && Isolated(u, l) && v == Get(u.ownership.down, l)
    ensures Binding(Detached(u, l, v))
  {
    var t := Detached(u, l, v);
    forall n | n in t.binding.up ensures n in t.attached && Fits(t, n, t.binding.up[n]) {
      assert Fits(u, n, u.binding.up[n]);
    }
  }

  lemma DetachedPlaced(u: State, l: Node, v: seq<Node>)
    requires Placed(u)
    ensures Placed(Detached(u, l, v))
  {
    var t := Detached(u, l, v);
    forall n | n in t.attached && n in t.tree.up ensures AtHome(t, n, t.tree.up[n]) || Moved(t, n, t.tree.up[n]) {
      assert AtHome(u, n, u.tree.up[n]) || Moved(u, n, u.tree.up[n]);
    }
  }

  lemma NowInPlace(u: State, l: Node, v: seq<Node>, n: Node)
    requires Hierarchy(u) && Owning(u) && Owner(u, l) && Isolated(u, l) && Rooted(u)
    requires v == Get(u.ownership.down, l) && n in v && n != l
    ensures InPlace(Detached(u, l, v), l, n)
  {
    OwnedTogether(u, l, n);
    LoadableOwnsItself(u, l);
    assert AtHome(u, n, u.tree.up[n]);
    assert u.tree.up[n] in Holders(u) && u.tree.up[n] in v;
    OwnedTogether(u, l, u.tree.up[n]);
  }

  lemma NowParked(u: State, l: Node, v: seq<Node>)
    requires Rooted(u) && Hierarchy(u) && Named(u) && Owning(u) && Owner(u, l) && Isolated(u, l)
    requires v == Get(u.ownership.down, l)
    ensures Parked(Detached(u, l, v), l)
  {
    var t := Detached(u, l, v);
    LoadableOwnsItself(u, l);
    forall n | n in v && n != l ensures InPlace(t, l, n) {
      NowInPlace(u, l, v, n);
    }
    forall m, n | m in v && n in v && t.NameOf(m) == t.NameOf(n) ensures m == n {
      OwnedTogether(u, l, m);
      OwnedTogether(u, l, n);
      assert u.lookupTable[u.NameOf(m)] == m && u.lookupTable[u.NameOf(n)] == n;
    }
  }

  lemma OthersStillParked(u: State, l: Node, v: seq<Node>, k: Node)
    requires Rooted(u) && Owning(u) && Parked(u, k) && Owner(u, l)
    ensures Parked(Detached(u, l, v), k)
  {
    forall n | n in Get(u.ownership.down, k) ensures n in u.info && n != l {
      OwnedTogether(u, k, n);
    }
    ParkedStays(u, Detached(u, l, v), k);
  }

  lemma NowPending(u: State, l: Node, v: seq<Node>, n: Node)
    requires Mirrored(u.ownership) && Pending(u) && v == Get(u.ownership.down, l)
    requires n in u.ownership.up || n in u.tree.up
    requires n !in u.attached || n in v
    ensures n in u.ownership.up && (u.ownership.up[n] in u.containerPosition || u.ownership.up[n] == l)
  {
    OwnedBy(u, l);
  }

  lemma DetachedParked(u: State, l: Node, v: seq<Node>, k: Node)
    requires Rooted(u) && Hierarchy(u) && Named(u) && Owning(u) && Pending(u) && Owner(u, l) && Isolated(u, l)
    requires v == Get(u.ownership.down, l) && (k == l || k in u.containerPosition)
    ensures Parked(Detached(u, l, v), k)
  {
    if k == l {
      NowParked(u, l, v);
    } else {
      OthersStillParked(u, l, v, k);
    }
  }

  lemma DetachedAllParked(u: State, l: Node, v: seq<Node>)
    requires Valid(u) && Owner(u, l) && Isolated(u, l) && v == Get(u.ownership.down, l)
    ensures forall k | k in Detached(u, l, v).containerPosition :: Parked(Detached(u, l, v), k)
  {
    forall k | k in Detached(u, l, v).containerPosition ensures Parked(Detached(u, l, v), k) {
      Parts(u);
      DetachedParked(u, l, v, k);
    }
  }

  lemma DetachedAllOwned(u: State, l: Node, v: seq<Node>)
    requires Valid(u) && Owner(u, l) && v == Get(u.ownership.down, l)
    ensures var t := Detached(u, l, v);
            forall n | (n in t.ownership.up || n in t.tree.up) && n !in t.attached ::
              n in t.ownership.up && t.ownership.up[n] in t.containerPosition
  {
    var t := Detached(u, l, v);
    forall n | (n in t.ownership.up || n in t.tree.up) && n !in t.attached
      ensures n in t.ownership.up && t.ownership.up[n] in t.containerPosition
    {
      Parts(u);
      NowPending(u, l, v, n);
    }
  }

  lemma DetachedPending(u: State, l: Node, v: seq<Node>)
    requires Valid(u) && Owner(u, l) && Isolated(u, l) && v == Get(u.ownership.down, l)
    ensures Pending(Detached(u, l, v))
  {
    DetachedAllParked(u, l, v);
    DetachedAllOwned(u, l, v);
    assert u.containerPosition.Keys == u.loadablesPosition.Keys by { Parts(u); }
  }

  lemma DetachedIsValid(u: State, l: Node, v: seq<Node>)
    requires Valid(u) && Owner(u, l) && Isolated(u, l) && v == Get(u.ownership.down, l)
    ensures Valid(Detached(u, l, v))
  {
    Parts(u);
    LoadableOwnsItself(u, l);
    OwnedTogetherAll(u, l);
    DetachedRooted(u, l, v);
    DetachedHierarchy(u, l, v);
    DetachedNamed(u, l, v);
    DetachedOwning(u, l, v);
    DetachedBinding(u, l, v);
    DetachedPlaced(u, l, v);
    DetachedPending(u, l, v);
    forall a ensures Holds(Detached(u, l, v), a) {
    }
  }

  lemma IsolatedDetaches(u: State, l: Node, v: seq<Node>)
    requires Owning(u) && Owner(u, l) && Isolated(u, l) && v == Get(u.ownership.down, l)
    ensures RemoveFromToplevel(u, v) == Detached(u, l, v)
  {
    AtTop(u, l);
    OwnedTogetherAll(u, l);
    OwnedBy(u, l);
    RemovalDetaches(u, l, v);
  }

  /** The first stage keeps the invariant, with the loadable now one of those pending. */
  lemma BeginKeepsValid(s: State, l: Node) returns (t: State)
    requires Valid(s) && Owner(s, l)
    ensures t == Begin(s, l) && t == Detached(UnbindLoadable(s, l), l, Get(s.ownership.down, l))
    ensures Valid(t)
    ensures l in t.containerPosition && t.containerPosition.Keys == s.containerPosition.Keys + {l}
  {
    var u := UnbindIsolates(s, l);
    var v := Get(s.ownership.down, l);
    assert Owning(u) by { Parts(u); }
    IsolatedDetaches(u, l, v);
    t := Detached(u, l, v);
    DetachedIsValid(u, l, v);
  }
}
