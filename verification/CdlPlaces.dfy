/** Where each operation puts a node: below which other node, and at which place of its contents. */
module CdlPlaces {
  import opened Vectors
  import opened CdlState
  import opened CdlUpdate
  import opened CdlBind
  import opened CdlUnbind
  import opened CdlDetach
  import opened CdlCancel
  import opened CdlReverse
  import opened Forest

  /** A vector without one node, the others in their order. */
  function Except(v: seq<Node>, n: Node): seq<Node> {
    if v == [] then [] else (if v[0] == n then [] else [v[0]]) + Except(v[1..], n)
  }

  lemma {:induction false} ExceptOther(v: seq<Node>, n: Node)
    requires n !in v
    ensures Except(v, n) == v
    decreases |v|
  {
    if v != [] {
      ExceptOther(v[1..], n);
    }
  }

  lemma RemoveAtLater(v: seq<Node>, i: nat)
    requires v != [] && i < |v|
    ensures RemoveAt(v, i + 1) == [v[0]] + RemoveAt(v[1..], i)
  {
  }

  lemma {:induction false} RemovalIsExcept(v: seq<Node>, n: Node)
    requires Distinct(v)
    ensures RemoveAt(v, IndexOf(v, n)) == Except(v, n)
    decreases |v|
  {
    if v != [] {
      if v[0] == n {
        ExceptOther(v[1..], n);
      } else {
        RemovalIsExcept(v[1..], n);
        RemoveAtLater(v, IndexOf(v[1..], n));
      }
    }
  }

  lemma UnlinkedVector(l: Links, n: Node, q: Node)
    requires Mirrored(l) && n in l.up
    ensures Get(Unlink(l, n).down, q) == Except(Get(l.down, q), n)
  {
    var v := Get(l.down, q);
    assert Lists(l.up, v, q);
    if q == l.up[n] {
      RemovalIsExcept(v, n);
    } else {
      ExceptOther(v, n);
    }
  }

  /** `n` has been taken out of its vector and put into that of `p` at place `pos`, or at the end for -1; nothing else
      has moved. */
  ghost predicate Reparents(before: Links, after: Links, n: Node, p: Node, pos: int) {
    var v := Except(Get(before.down, p), n);
    && after.up == before.up[n := p]
    && (pos < 0 ==> Get(after.down, p) == v + [n])
    && (0 <= pos <= |v| ==> Get(after.down, p) == v[..pos] + [n] + v[pos..])
    && forall q | q != p :: Get(after.down, q) == Except(Get(before.down, q), n)
  }

  lemma MoveReparents(l: Links, n: Node, p: Node, pos: int)
    requires Mirrored(l) && n in l.up
    ensures Reparents(l, Move(l, n, p, pos), n, p, pos)
  {
    forall q ensures Get(Unlink(l, n).down, q) == Except(Get(l.down, q), n) {
      UnlinkedVector(l, n, q);
    }
    assert (l.up - {n})[n := p] == l.up[n := p];
  }

  // The update handler

  lemma {:induction false} RootPlaceCounts(s: State, v: seq<Node>)
    ensures var i := RootPlace(s, v);
            && (forall j | 0 <= j < i :: s.HasProperty(v[j]))
            && (i < |v| ==> !s.HasProperty(v[i]))
    decreases |v|
  {
    if v != [] && s.HasProperty(v[0]) {
      RootPlaceCounts(s, v[1..]);
    }
  }

  lemma CanMove(s: State, n: Node)
    requires Valid(s) && n in s.attached
    ensures Mirrored(s.tree) && n in s.tree.up && n in s.info
  {
    Parts(s);
  }

  lemma HandledAt(s: State, n: Node, d: Node)
    requires n in s.info && d in s.info
    ensures Handle(s, n, At(d)) ==
            if s.info[d].kind == Plain || (s.info[n].kind != Plain && Below(s.tree.up, d, n)) then s.tree
            else Move(s.tree, n, d, -1)
  {
  }

  /** A destination: below it, as the last of its contents, unless it is a plain node or stands below the node. */
  lemma HandlerAtPlaces(s: State, n: Node, d: Node)
    requires Valid(s) && n in s.attached && d in s.attached
    ensures d in s.info && n in s.info && n in s.tree.up
    ensures var t := Handle(s, n, At(d));
            if s.info[d].kind == Plain || (s.info[n].kind != Plain && Below(s.tree.up, d, n)) then t == s.tree
            else Reparents(s.tree, t, n, d, -1)
  {
    CanMove(s, n);
    CanMove(s, d);
    HandledAt(s, n, d);
    MoveReparents(s.tree, n, d, -1);
  }

  lemma RootFits(s: State, n: Node)
    requires Valid(s) && n in s.attached && n != s.orphans
    ensures RootPlace(s, Get(s.tree.down, s.top)) <= |Except(Get(s.tree.down, s.top), n)|
  {
    CanMove(s, n);
    UnlinkedVector(s.tree, n, s.top);
    Parts(s);
    RootPlaceFits(s, n);
  }

  lemma HandledNowhere(s: State, n: Node)
    requires n in s.info
    ensures Handle(s, n, Nowhere) ==
            if s.info[n].property == Parent("") then Move(s.tree, n, s.top, RootPlace(s, Get(s.tree.down, s.top)))
            else Move(s.tree, n, s.orphans, -1)
  {
  }

  /** No destination: a property that names the root puts the node below the toplevel, where `i` children with parent
      properties stand in front; any other leaves it with the orphans, at the end. */
  lemma HandlerNowherePlaces(s: State, n: Node) returns (i: nat)
    requires Valid(s) && n in s.attached
    ensures n in s.info && n in s.tree.up
    ensures var v := Get(s.tree.down, s.top);
            && i <= |v| && (forall j | 0 <= j < i :: v[j] in s.info && s.info[v[j]].property != NoProperty)
            && (i < |v| ==> v[i] !in s.info || s.info[v[i]].property == NoProperty)
            && (n != s.orphans ==> i <= |Except(v, n)|)
    ensures var t := Handle(s, n, Nowhere);
            if s.info[n].property == Parent("") then Reparents(s.tree, t, n, s.top, i)
            else Reparents(s.tree, t, n, s.orphans, -1)
  {
    i := RootPlace(s, Get(s.tree.down, s.top));
    RootPlaceCounts(s, Get(s.tree.down, s.top));
    CanMove(s, n);
    if n != s.orphans {
      RootFits(s, n);
    }
    HandledNowhere(s, n);
    MoveReparents(s.tree, n, s.top, i);
    MoveReparents(s.tree, n, s.orphans, -1);
  }

  // Unbinding

  lemma ReturnOneMoves(s: State, l: Node, n: Node, m: Node)
    requires Valid(s) && Owner(s, l) && n in s.ownership.up && s.ownership.up[n] == l && m in s.tree.up
    requires n != l ==> l in s.tree.up && s.tree.up[l] == s.top
    ensures m in ReturnOne(s, n).tree.up
    ensures ReturnOne(s, n).tree.up[m] ==
            if m == n && s.HasProperty(n) then (if n == l then s.top else l) else s.tree.up[m]
  {
    if s.HasProperty(n) {
      assert Unloading(s, n).tree.up == s.tree.up[n := if n == l then s.top else l] by {
        Parts(s);
        HomeIsHome(s, l, n);
        UnloadingKeepsTree(s, l, n);
      }
    }
  }

  lemma {:induction false} ReturnAllMoves(s: State, l: Node, ns: seq<Node>, m: Node)
    requires Valid(s) && Owner(s, l) && ns <= Get(s.ownership.down, l) && m in s.tree.up
    ensures m in ReturnAll(s, ns).tree.up
    ensures ReturnAll(s, ns).tree.up[m] ==
            if m in ns && s.HasProperty(m) then (if m == l then s.top else l) else s.tree.up[m]
    decreases |ns|
  {
    if ns != [] {
      var n, rest := ns[|ns| - 1], ns[..|ns| - 1];
      assert ns == rest + [n];
      ReturnAllMoves(s, l, rest, m);
      var u := ReturnAllWorks(s, l, rest);
      ReturnTurn(s, u, l, rest, n);
      ReturnOneMoves(u, l, n, m);
    }
  }

  lemma ReturnTurn(s: State, u: State, l: Node, rest: seq<Node>, n: Node)
    requires Valid(s) && Owner(s, l) && rest + [n] <= Get(s.ownership.down, l)
    requires FewerBindings(s, u) && Returned(u, rest)
    ensures n in u.ownership.up && u.ownership.up[n] == l && n !in rest
    ensures n != l ==> l in u.tree.up && u.tree.up[l] == u.top
  {
    Parts(s);
    OwnedOnce(s, l, rest + [n]);
    assert (rest + [n])[|rest|] == n;
    forall i | 0 <= i < |rest| ensures rest[i] != n {
      assert (rest + [n])[i] == rest[i];
    }
    LoadableOwnsItself(s, l);
    if n != l {
      assert rest[0] == (rest + [n])[0] == l && AtHome(u, l, u.tree.up[l]);
    }
  }

  lemma PropertyOrNotBound(s: State, n: Node)
    requires Valid(s) && n in s.binding.up
    ensures s.HasProperty(n)
  {
    Parts(s);
    assert Fits(s, n, s.binding.up[n]);
  }

  /** `unbind` puts every node of the loadable that has a parent property directly below the loadable, the loadable
      itself below the toplevel, and what was bound to one of its nodes below the orphans. All other nodes stay. */
  lemma UnbindPlaces(s: State, l: Node, n: Node)
    requires Valid(s) && Owner(s, l) && n in s.tree.up
    ensures n in UnbindLoadable(s, l).tree.up
    ensures UnbindLoadable(s, l).tree.up[n] ==
            if n in Get(s.ownership.down, l) then
              (if !s.HasProperty(n) then s.tree.up[n] else if n == l then s.top else l)
            else if BoundTo(s, n, Get(s.ownership.down, l)) then s.orphans else s.tree.up[n]
  {
    var v := Get(s.ownership.down, l);
    var e := EvictedHasNoGuests(s, l);
    EvictAllSendsAway(s, v);
    ReturnAllMoves(e, l, v, n);
    assert n in Sources(s, v) <==> BoundTo(s, n, v);
    if n in s.binding.up {
      PropertyOrNotBound(s, n);
    }
  }

  // Taking a loadable out and putting it back

  /** Taken out of the toplevel, a loadable is missing from the two vectors, at the places that are remembered. */
  lemma DetachPlaces(u: State, l: Node) returns (t: State)
    requires Valid(u) && Owner(u, l) && Isolated(u, l)
    ensures t == RemoveFromToplevel(u, Get(u.ownership.down, l))
    ensures t.tree.up == u.tree.up - {l} && forall q :: Get(t.tree.down, q) == Except(Get(u.tree.down, q), l)
    ensures t.loadables == Except(u.loadables, l)
    ensures l in t.containerPosition && l in t.loadablesPosition
    ensures var i, v := t.containerPosition[l], Get(u.tree.down, u.top); i < |v| && v[i] == l
    ensures var j := t.loadablesPosition[l]; j < |u.loadables| && u.loadables[j] == l
    ensures t.ownership == u.ownership && t.binding == u.binding && t.info == u.info
  {
    t := Detached(u, l, Get(u.ownership.down, l));
    assert RemoveFromToplevel(u, Get(u.ownership.down, l)) == t by {
      Parts(u);
      IsolatedDetaches(u, l, Get(u.ownership.down, l));
    }
    InVectors(u, l);
    forall q ensures Get(t.tree.down, q) == Except(Get(u.tree.down, q), l) {
      UnlinkedVector(u.tree, l, q);
    }
    RemovalIsExcept(u.loadables, l);
  }

  lemma InVectors(u: State, l: Node)
    requires Valid(u) && Owner(u, l) && Isolated(u, l)
    ensures Mirrored(u.tree) && l in u.tree.up && l in Get(u.tree.down, u.top) && l in u.loadables && Distinct(u.loadables)
  {
    Parts(u);
    AtTop(u, l);
    assert Lists(u.tree.up, Get(u.tree.down, u.top), u.top);
  }

  /** Attached again, a loadable is at the places that were remembered, which are then forgotten. */
  lemma AttachPlaces(s: State, l: Node) returns (t: State)
    requires Valid(s) && Returnable(s, l)
    ensures t == Cancel(s, l) && t.tree.up == s.tree.up[l := s.top]
    ensures var i, v := s.containerPosition[l], Get(s.tree.down, s.top);
            Get(t.tree.down, s.top) == v[..i] + [l] + v[i..]
    ensures forall q | q != s.top :: Get(t.tree.down, q) == Get(s.tree.down, q)
    ensures var j := s.loadablesPosition[l]; t.loadables == s.loadables[..j] + [l] + s.loadables[j..]
    ensures t.containerPosition == s.containerPosition - {l} && t.loadablesPosition == s.loadablesPosition - {l}
    ensures t.ownership == s.ownership && t.binding == s.binding && t.info == s.info
  {
    t := Attached(s, l, Get(s.ownership.down, l));
    assert Cancel(s, l) == t by {
      Parts(s);
      CancelAttaches(s, l);
    }
  }

  // The order of the loops over the owned nodes

  /** The first owned node is loaded first. */
  lemma {:induction false} LoadsInOrder(s: State, n: Node, rest: seq<Node>)
    ensures LoadAll(s, [n] + rest) == LoadAll(LoadOne(s, n), rest)
    decreases |rest|
  {
    var all := [n] + rest;
    if rest == [] {
      assert all[..0] == [];
      assert LoadAll(s, []) == s && LoadAll(LoadOne(s, n), []) == LoadOne(s, n);
    } else {
      assert all[..|all| - 1] == [n] + rest[..|rest| - 1];
      LoadsInOrder(s, n, rest[..|rest| - 1]);
    }
  }

  /** The first waiting node is resolved first. */
  lemma {:induction false} ResolvesInOrder(s: State, n: Node, rest: seq<Node>)
    ensures ResolveAll(s, [n] + rest) == ResolveAll(ResolveOne(s, n), rest)
    decreases |rest|
  {
    var all := [n] + rest;
    if rest == [] {
      assert all[..0] == [];
      assert ResolveAll(s, []) == s && ResolveAll(ResolveOne(s, n), []) == ResolveOne(s, n);
    } else {
      assert all[..|all| - 1] == [n] + rest[..|rest| - 1];
      ResolvesInOrder(s, n, rest[..|rest| - 1]);
    }
  }

  /** What refers to the first owned node is evicted first. */
  lemma {:induction false} EvictsInOrder(s: State, m: Node, rest: seq<Node>)
    ensures EvictAll(s, [m] + rest) == EvictAll(EvictEach(s, Get(s.binding.down, m)), rest)
    decreases |rest|
  {
    var all, t := [m] + rest, EvictEach(s, Get(s.binding.down, m));
    if rest == [] {
      assert all[..0] == [];
      assert EvictAll(s, []) == s && EvictAll(t, []) == t;
    } else {
      assert all[..|all| - 1] == [m] + rest[..|rest| - 1];
      EvictsInOrder(s, m, rest[..|rest| - 1]);
    }
  }

  /** The first owned node returns first. */
  lemma {:induction false} ReturnsInOrder(s: State, n: Node, rest: seq<Node>)
    ensures ReturnAll(s, [n] + rest) == ReturnAll(ReturnOne(s, n), rest)
    decreases |rest|
  {
    var all := [n] + rest;
    if rest == [] {
      assert all[..0] == [];
      assert ReturnAll(s, []) == s && ReturnAll(ReturnOne(s, n), []) == ReturnOne(s, n);
    } else {
      assert all[..|all| - 1] == [n] + rest[..|rest| - 1];
      ReturnsInOrder(s, n, rest[..|rest| - 1]);
    }
  }
}
