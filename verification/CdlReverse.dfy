/** Where `unbind` leaves every node, and what stands directly below the toplevel then. */
module CdlReverse {
  import opened Vectors
  import opened CdlState
  import opened CdlUpdate
  import opened CdlUnbind
  import opened CdlDetach

  /** `n` stands directly below the toplevel. */
  ghost predicate AtRoot(s: State, n: Node) {
    n in s.tree.up && s.tree.up[n] == s.top
  }

  ghost predicate BoundTo(s: State, n: Node, ms: seq<Node>) {
    n in s.binding.up && s.binding.up[n] in ms
  }

  // Where `unbind` leaves every node

  /** The sources `ns` have been unbound and sent to the orphans, and nothing else has changed. */
  ghost predicate SentAway(s: State, t: State, ns: set<Node>) {
    && t.binding.up == s.binding.up - ns && t.tree.up.Keys == s.tree.up.Keys
    && forall n | n in s.tree.up :: t.tree.up[n] == if n in ns then s.orphans else s.tree.up[n]
  }

  lemma DestroyedOrphans(s: State, n: Node)
    requires Valid(s) && n in s.binding.up
    ensures n in s.tree.up && Destroyed(s, n).tree.up == s.tree.up[n := s.orphans]
  {
    Parts(s);
    assert Fits(s, n, s.binding.up[n]);
    HandleNowhereKeepsTree(s, n);
  }

  lemma DestroyedSendsAway(s: State, n: Node)
    requires Valid(s) && n in s.binding.up
    ensures SentAway(s, Destroyed(s, n), {n})
  {
    DestroyedOrphans(s, n);
    var t := Destroyed(s, n);
    assert t.binding.up == s.binding.up - {n};
    forall m | m in s.tree.up ensures t.tree.up[m] == if m in {n} then s.orphans else s.tree.up[m] {
    }
  }

  lemma SentAwayTwice(s: State, t: State, u: State, ms: set<Node>, ns: set<Node>, all: set<Node>)
    requires SentAway(s, t, ms) && SentAway(t, u, ns) && t.orphans == s.orphans && all == ms + ns
    ensures SentAway(s, u, all)
  {
    assert s.binding.up - ms - ns == s.binding.up - all;
  }

  lemma {:induction false} EvictEachSendsAway(s: State, ns: seq<Node>)
    requires Valid(s) && Distinct(ns) && forall n | n in ns :: n in s.binding.up
    ensures SentAway(s, EvictEach(s, ns), Members(ns))
    decreases |ns|
  {
    if ns == [] {
      assert Members(ns) == {} && s.binding.up - {} == s.binding.up;
    } else {
      var n, rest := ns[|ns| - 1], ns[..|ns| - 1];
      var t := Destroyed(s, n);
      assert ns == rest + [n];
      assert Members(ns) == {n} + Members(rest);
      DestroyedSendsAway(s, n);
      assert Valid(t) by { DestroyedKeepsValid(s, n); }
      assert forall m | m in rest :: m in t.binding.up by { DestroyedFewer(s, n); }
      EvictEachSendsAway(t, rest);
      SentAwayTwice(s, t, EvictEach(t, rest), {n}, Members(rest), Members(ns));
    }
  }

  ghost function Sources(s: State, ms: seq<Node>): set<Node> {
    set n | n in s.binding.up && s.binding.up[n] in ms
  }

  lemma SourcesOfOneMore(s: State, t: State, rest: seq<Node>, m: Node)
    requires t.binding.up == s.binding.up - Sources(s, rest)
    requires Lists(t.binding.up, Get(t.binding.down, m), m)
    ensures Sources(s, rest + [m]) == Sources(s, rest) + Members(Get(t.binding.down, m))
  {
  }

  lemma {:induction false} EvictAllSendsAway(s: State, ms: seq<Node>)
    requires Valid(s)
    ensures SentAway(s, EvictAll(s, ms), Sources(s, ms))
    decreases |ms|
  {
    if ms == [] {
      assert Sources(s, ms) == {} && s.binding.up - {} == s.binding.up;
    } else {
      var m, rest := ms[|ms| - 1], ms[..|ms| - 1];
      var t := EvictAll(s, rest);
      var r := Get(t.binding.down, m);
      EvictAllSendsAway(s, rest);
      EvictAllWorks(s, rest);
      assert Lists(t.binding.up, r, m) by { Parts(t); }
      EvictEachSendsAway(t, r);
      SourcesOfOneMore(s, t, rest, m);
      assert ms == rest + [m];
      SentAwayTwice(s, t, EvictEach(t, r), Sources(s, rest), Members(r), Sources(s, ms));
    }
  }

  lemma {:induction false} ReturnAllUnbinds(s: State, ns: seq<Node>)
    ensures forall n | n in s.binding.up && n !in ns :: n in ReturnAll(s, ns).binding.up
    decreases |ns|
  {
    if ns != [] {
      assert ns == ns[..|ns| - 1] + [ns[|ns| - 1]];
      ReturnAllUnbinds(s, ns[..|ns| - 1]);
    }
  }

  /** `n` does not stay below the toplevel when the loadable with the nodes `v` is unbound and detached. */
  ghost predicate Leaves(s: State, n: Node, v: seq<Node>) {
    n in v || BoundTo(s, n, v)
  }

  /** `unbind` keeps the bindings and the parents of all nodes that do not leave. */
  ghost predicate Kept(s: State, t: State, v: seq<Node>) {
    && (forall n :: n in t.binding.up <==> n in s.binding.up && !Leaves(s, n, v))
    && (forall n | n in t.binding.up :: t.binding.up[n] == s.binding.up[n])
  }

  lemma UnbindKeeps(s: State, l: Node) returns (u: State)
    requires Valid(s) && Owner(s, l)
    ensures u == UnbindLoadable(s, l)
    ensures Kept(s, u, Get(s.ownership.down, l))
  {
    var v := Get(s.ownership.down, l);
    var e := EvictedHasNoGuests(s, l);
    EvictAllSendsAway(s, v);
    u := ReturnAllWorks(e, l, v);
    ReturnAllUnbinds(e, v);
  }

  lemma OwnAtRoot(u: State, l: Node, n: Node)
    requires Rooted(u) && Owning(u) && Owner(u, l) && Isolated(u, l) && n in Get(u.ownership.down, l)
    ensures AtRoot(u, n) <==> n == l
  {
    OwnedBy(u, l);
    AtTop(u, l);
    assert AtHome(u, n, u.tree.up[n]);
  }

  lemma OthersAtRoot(s: State, l: Node, n: Node)
    requires Valid(s) && Owner(s, l) && n !in Get(s.ownership.down, l)
    ensures AtRoot(UnbindLoadable(s, l), n) <==> AtRoot(s, n) && !BoundTo(s, n, Get(s.ownership.down, l))
  {
    var v := Get(s.ownership.down, l);
    var e := EvictedHasNoGuests(s, l);
    EvictAllSendsAway(s, v);
    var u := ReturnAllWorks(e, l, v);
    assert s.top != s.orphans by { Parts(s); }
    assert n in Sources(s, v) <==> BoundTo(s, n, v);
  }

  /** Directly below the toplevel `unbind` leaves the loadable and what does not leave. */
  lemma UnbindAtRoot(s: State, l: Node, n: Node)
    requires Valid(s) && Owner(s, l)
    ensures AtRoot(UnbindLoadable(s, l), n) <==> n == l || (AtRoot(s, n) && !Leaves(s, n, Get(s.ownership.down, l)))
  {
    var u := UnbindIsolates(s, l);
    if n in Get(s.ownership.down, l) {
      Parts(u);
      OwnAtRoot(u, l, n);
    } else {
      OthersAtRoot(s, l, n);
      assert l in Get(s.ownership.down, l);
    }
  }
}
