/** What remains after an unload has been committed is again a valid configuration. */
module CdlSurvivors {
  import opened Vectors
  import opened CdlState
  import opened CdlUpdate
  import opened CdlUnbind
  import opened CdlTearDown
  import opened Forest

  /** The deferred deletion of a loadable. */
  function Commit(s: State, l: Node): State {
    DeleteAll(s, Get(s.ownership.down, l))
  }

  /** The fields of the nodes outside `v`, which are gone. */
  ghost predicate Survivors(s: State, t: State, l: Node, v: seq<Node>) {
    && t == s.(tree := t.tree, ownership := t.ownership, info := s.info - Members(v),
               containerPosition := s.containerPosition - Members(v),
               loadablesPosition := s.loadablesPosition - Members(v))
    && Mirrored(t.tree) && t.tree.up == s.tree.up - Members(v)
    && Mirrored(t.ownership) && t.ownership.up == s.ownership.up - Members(v)
    && (forall k | k != l :: Get(t.ownership.down, k) == Get(s.ownership.down, k))
  }

  lemma DeleteOneLeaves(s: State, n: Node) returns (t: State)
    requires Mirrored(s.tree) && Mirrored(s.ownership)
    ensures t == DeleteNode(s, n) && Mirrored(t.tree) && Mirrored(t.ownership)
    ensures t.tree.up == s.tree.up - {n} && t.ownership.up == s.ownership.up - {n}
  {
    t := DeleteNode(s, n);
    UnlinkMirror(s.tree, n);
    UnlinkMirror(s.ownership, n);
  }

  lemma {:induction false} DeleteAllLeaves(s: State, l: Node, v: seq<Node>)
    requires Mirrored(s.tree) && Mirrored(s.ownership)
    requires Distinct(v) && forall n | n in v :: n in s.ownership.up && s.ownership.up[n] == l
    ensures Survivors(s, DeleteAll(s, v), l, v)
    decreases |v|
  {
    if v == [] {
      assert Members(v) == {};
    } else {
      var n, rest := v[|v| - 1], v[..|v| - 1];
      assert v == rest + [n] && n in v;
      var t := DeleteOneLeaves(s, n);
      forall m | m in rest ensures m in t.ownership.up && t.ownership.up[m] == l {
        assert m in v && m != n;
      }
      DeleteAllLeaves(t, l, rest);
      SurvivorsAfter(s, t, DeleteAll(t, rest), l, n, rest, v);
    }
  }

  lemma MinusMinus<V>(m: map<Node, V>, n: Node, rest: set<Node>)
    ensures m - {n} - rest == m - ({n} + rest)
  {
  }

  lemma SurvivorsAfter(s: State, t: State, u: State, l: Node, n: Node, rest: seq<Node>, v: seq<Node>)
    requires v == rest + [n] && n in s.ownership.up && s.ownership.up[n] == l
    requires t == DeleteNode(s, n) && t.tree.up == s.tree.up - {n} && t.ownership.up == s.ownership.up - {n}
    requires Survivors(t, u, l, rest)
    ensures Survivors(s, u, l, v)
  {
    var m := Members(rest);
    assert Members(v) == {n} + m;
    MinusMinus(s.tree.up, n, m);
    MinusMinus(s.ownership.up, n, m);
    MinusMinus(s.info, n, m);
    MinusMinus(s.containerPosition, n, m);
    MinusMinus(s.loadablesPosition, n, m);
  }

  /** `t` is `s` without the pending loadable `l` and the nodes in its owned vector `v`. */
  ghost predicate Remnant(s: State, t: State, l: Node, v: seq<Node>) {
    Parked(s, l) && v == Get(s.ownership.down, l) && Survivors(s, t, l, v)
  }

  lemma NotAmong(s: State, l: Node, n: Node)
    requires Owning(s) && l !in s.attached && n in s.attached
    ensures n !in Get(s.ownership.down, l)
  {
    OwnedBy(s, l);
  }

  lemma NoneAmong(s: State, l: Node, v: seq<Node>)
    requires Owning(s) && l !in s.attached && v == Get(s.ownership.down, l)
    ensures forall n | n in s.attached :: n !in v
  {
    forall n | n in s.attached ensures n !in v {
      NotAmong(s, l, n);
    }
  }

  lemma RemnantRooted(s: State, t: State, l: Node, v: seq<Node>)
    requires Rooted(s) && Owning(s) && Remnant(s, t, l, v)
    ensures Rooted(t)
  {
    OwnedBy(s, l);
    NoneAmong(s, l, v);
  }

  lemma RemnantHung(s: State, t: State, l: Node, v: seq<Node>, n: Node)
    requires Rooted(s) && Hierarchy(s) && Owning(s) && Remnant(s, t, l, v) && n in t.tree.up
    ensures n in t.attached <==> t.tree.up[n] in Holders(t)
  {
    var p := s.tree.up[n];
    if p in s.attached {
      NotAmong(s, l, p);
    }
    assert p in Holders(t) <==> p in Holders(s);
  }

  lemma RemnantClimbs(s: State, t: State, l: Node, v: seq<Node>, n: Node)
    requires Rooted(s) && Hierarchy(s) && Owning(s) && Pending(s) && Remnant(s, t, l, v) && n in s.attached
    ensures Climbs(t.tree.up, t.top, n)
  {
    NoneAmong(s, l, v);
    forall m | m in s.tree.up && m !in v ensures s.tree.up[m] !in v {
      if s.tree.up[m] in v {
        OnlyOwnBelow(s, l, m);
      }
    }
    var k: nat :| Reaches(s.tree.up, s.top, n, k);
    ChainStaysOutside(s.tree.up, s.top, Members(v), t.tree.up, n, k);
  }

  lemma RemnantChains(s: State, t: State, l: Node, v: seq<Node>)
    requires Rooted(s) && Hierarchy(s) && Owning(s) && Pending(s) && Remnant(s, t, l, v)
    ensures Tree(t.tree.up, t.top, t.attached)
  {
    NoneAmong(s, l, v);
    forall n | n in t.attached ensures n in t.tree.up && Climbs(t.tree.up, t.top, n) {
      RemnantClimbs(s, t, l, v, n);
    }
  }

  lemma RemnantTree(s: State, t: State, l: Node, v: seq<Node>)
    requires Rooted(s) && Hierarchy(s) && Owning(s) && Pending(s) && Remnant(s, t, l, v)
    ensures Hierarchy(t)
  {
    RemnantChains(s, t, l, v);
    forall n | n in t.tree.up ensures n in t.attached <==> t.tree.up[n] in Holders(t) {
      RemnantHung(s, t, l, v, n);
    }
  }

  lemma RemnantNamed(s: State, t: State, l: Node, v: seq<Node>)
    requires Named(s) && Owning(s) && Rooted(s) && Remnant(s, t, l, v)
    ensures Named(t)
  {
    NoneAmong(s, l, v);
    forall n | n in s.attached ensures t.NameOf(n) == s.NameOf(n) {
    }
  }

  lemma RemnantHeads(s: State, t: State, l: Node, v: seq<Node>, k: Node)
    requires Rooted(s) && Owning(s) && Remnant(s, t, l, v) && Heads(s, k) && k != l
    ensures Heads(t, k)
  {
    LoadableOwnsItself(s, k);
    OwnedBy(s, l);
  }

  lemma RemnantOwned(s: State, t: State, l: Node, v: seq<Node>, n: Node)
    requires Rooted(s) && Owning(s) && Remnant(s, t, l, v) && n in t.ownership.up
    ensures Heads(t, t.ownership.up[n]) && (n in t.attached <==> t.ownership.up[n] in t.attached)
    ensures t.IsLoadable(n) ==> Heads(t, n)
  {
    OwnedBy(s, l);
    LoadableOwnsItself(s, l);
    RemnantHeads(s, t, l, v, s.ownership.up[n]);
    if t.IsLoadable(n) {
      RemnantHeads(s, t, l, v, n);
    }
  }

  lemma RemnantLoadables(s: State, t: State, l: Node, v: seq<Node>)
    requires Owning(s) && Remnant(s, t, l, v)
    ensures Distinct(t.loadables) && forall n :: n in t.loadables <==> n in t.attached && t.IsLoadable(n)
  {
    NoneAmong(s, l, v);
  }

  lemma RemnantOwning(s: State, t: State, l: Node, v: seq<Node>)
    requires Rooted(s) && Owning(s) && Remnant(s, t, l, v)
    ensures Owning(t)
  {
    NoneAmong(s, l, v);
    RemnantLoadables(s, t, l, v);
    forall n | n in t.ownership.up
      ensures Heads(t, t.ownership.up[n]) && (n in t.attached <==> t.ownership.up[n] in t.attached)
      ensures t.IsLoadable(n) ==> Heads(t, n)
    {
      RemnantOwned(s, t, l, v, n);
    }
  }

  lemma RemnantBinding(s: State, t: State, l: Node, v: seq<Node>)
    requires Binding(s) && Owning(s) && Remnant(s, t, l, v)
    ensures Binding(t)
  {
    NoneAmong(s, l, v);
    forall n | n in t.binding.up ensures n in t.attached && Fits(t, n, t.binding.up[n]) {
      assert Fits(s, n, s.binding.up[n]);
    }
  }

  lemma RemnantAtHome(s: State, t: State, l: Node, v: seq<Node>, n: Node, p: Node)
    requires Rooted(s) && Owning(s) && Remnant(s, t, l, v) && n in s.attached
    requires AtHome(s, n, p) || Moved(s, n, p)
    ensures AtHome(t, n, p) || Moved(t, n, p)
  {
    NoneAmong(s, l, v);
    OwnedBy(s, l);
  }

  lemma RemnantPlaced(s: State, t: State, l: Node, v: seq<Node>)
    requires Placed(s) && Rooted(s) && Owning(s) && Remnant(s, t, l, v)
    ensures Placed(t)
  {
    forall n | n in t.attached && n in t.tree.up ensures AtHome(t, n, t.tree.up[n]) || Moved(t, n, t.tree.up[n]) {
      RemnantAtHome(s, t, l, v, n, s.tree.up[n]);
    }
  }

  lemma RemnantParked(s: State, t: State, l: Node, v: seq<Node>, k: Node)
    requires Rooted(s) && Owning(s) && Remnant(s, t, l, v) && Parked(s, k) && k != l
    ensures Parked(t, k)
  {
    OwnedBy(s, l);
    OwnedBy(s, k);
    ParkedStays(s, t, k);
  }

  lemma RemnantOwner(s: State, t: State, l: Node, v: seq<Node>, n: Node)
    requires Owning(s) && Pending(s) && Remnant(s, t, l, v)
    requires (n in s.ownership.up || n in s.tree.up) && n !in s.attached && n !in v
    ensures n in t.ownership.up && t.ownership.up[n] in t.containerPosition
  {
    OwnedBy(s, l);
    var k := s.ownership.up[n];
    LoadableOwnsItself(s, k);
  }

  lemma RemnantPending(s: State, t: State, l: Node, v: seq<Node>)
    requires Rooted(s) && Owning(s) && Pending(s) && Remnant(s, t, l, v)
    ensures Pending(t)
  {
    LoadableOwnsItself(s, l);
    forall k | k in t.containerPosition ensures Parked(t, k) {
      RemnantParked(s, t, l, v, k);
    }
    forall n | (n in t.ownership.up || n in t.tree.up) && n !in t.attached
      ensures n in t.ownership.up && t.ownership.up[n] in t.containerPosition
    {
      RemnantOwner(s, t, l, v, n);
    }
  }

  lemma RemnantIsValid(s: State, t: State, l: Node)
    requires Valid(s) && Remnant(s, t, l, Get(s.ownership.down, l))
    ensures Valid(t)
  {
    var v := Get(s.ownership.down, l);
    Parts(s);
    RemnantTree(s, t, l, v);
    RemnantNamed(s, t, l, v);
    RemnantOwning(s, t, l, v);
    RemnantBinding(s, t, l, v);
    RemnantPlaced(s, t, l, v);
    RemnantRooted(s, t, l, v);
    RemnantPending(s, t, l, v);
    forall a ensures Holds(t, a) {
    }
  }

  /** The second stage, when the transaction is committed. */
  lemma CommitKeepsValid(s: State, l: Node) returns (t: State)
    requires Valid(s) && l in s.containerPosition
    ensures t == Commit(s, l)
    ensures Valid(t)
    ensures t.containerPosition.Keys == s.containerPosition.Keys - {l}
  {
    var v := Get(s.ownership.down, l);
    t := Commit(s, l);
    assert Parked(s, l) && Survivors(s, t, l, v) by {
      Parts(s);
      OwnedBy(s, l);
      DeleteAllLeaves(s, l, v);
    }
    RemnantIsValid(s, t, l);
    OnlyItsPosition(s, l);
  }

  lemma OnlyItsPosition(s: State, l: Node)
    requires Valid(s) && l in s.containerPosition
    ensures s.containerPosition.Keys - Members(Get(s.ownership.down, l)) == s.containerPosition.Keys - {l}
  {
    Parts(s);
    assert Parked(s, l);
    LoadableOwnsItself(s, l);
    forall k | k in s.containerPosition && k != l ensures k !in Get(s.ownership.down, l) {
      assert Parked(s, k);
      LoadableOwnsItself(s, k);
      OwnedBy(s, l);
    }
  }
}
