/** Unbinding a loadable isolates its nodes: foreign children are evicted, strayed nodes return. */
module CdlUnbind {
  import opened Vectors
  import opened CdlState
  import opened CdlUpdate
  import opened Forest

  // First loop of `unbind`: Destroyed updates for everything that refers to an owned node

  /** Destroyed updates for the given sources, the last one first. */
  ghost function EvictEach(s: State, ns: seq<Node>): State
    decreases |ns|
  {
    if ns == [] then s else EvictEach(Destroyed(s, ns[|ns| - 1]), ns[..|ns| - 1])
  }

  ghost function EvictAll(s: State, ms: seq<Node>): State
    decreases |ms|
  {
    if ms == [] then s else
    var t := EvictAll(s, ms[..|ms| - 1]);
    EvictEach(t, Get(t.binding.down, ms[|ms| - 1]))
  }

  // Second loop of `unbind`: Unloading updates, in the order of `owned`

  function Unloading(s: State, n: Node): State {
    s.(binding := Unlink(s.binding, n), tree := Move(s.tree, n, Home(s, n), -1))
  }

  function ReturnAll(s: State, ns: seq<Node>): State
    decreases |ns|
  {
    if ns == [] then s else
    ReturnOne(ReturnAll(s, ns[..|ns| - 1]), ns[|ns| - 1])
  }

  function ReturnOne(s: State, n: Node): State {
    if s.HasProperty(n) then Unloading(s, n) else s
  }

  ghost function UnbindLoadable(s: State, l: Node): State {
    var ns := Get(s.ownership.down, l);
    ReturnAll(EvictAll(s, ns), ns)
  }

  // Eviction

  /** Only the tree and the bindings differ, and `t` has no bindings that `s` did not have. */
  ghost predicate FewerBindings(s: State, t: State) {
    t == s.(tree := t.tree, binding := t.binding) && forall n | n in t.binding.up :: n in s.binding.up && t.binding.up[n] == s.binding.up[n]
  }

  lemma FewerIsTransitive(s: State, t: State, u: State)
    requires FewerBindings(s, t) && FewerBindings(t, u)
    ensures FewerBindings(s, u)
  {
  }

  lemma DestroyedFewer(s: State, n: Node)
    ensures FewerBindings(s, Destroyed(s, n)) && n !in Destroyed(s, n).binding.up
    ensures forall k | k != n && k in s.binding.up :: k in Destroyed(s, n).binding.up
  {
  }

  lemma {:induction false} EvictEachFewer(s: State, ns: seq<Node>)
    ensures FewerBindings(s, EvictEach(s, ns))
    ensures forall n | n in ns :: n !in EvictEach(s, ns).binding.up
    decreases |ns|
  {
    if ns != [] {
      var n, rest := ns[|ns| - 1], ns[..|ns| - 1];
      var t := Destroyed(s, n);
      DestroyedFewer(s, n);
      EvictEachFewer(t, rest);
      FewerIsTransitive(s, t, EvictEach(t, rest));
      assert forall k | k in ns :: k == n || k in rest;
    }
  }

  lemma {:induction false} EvictEachKeepsValid(s: State, ns: seq<Node>)
    requires Valid(s) && Distinct(ns) && forall n | n in ns :: n in s.binding.up
    ensures Valid(EvictEach(s, ns))
    decreases |ns|
  {
    if ns != [] {
      var n := ns[|ns| - 1];
      DestroyedKeepsValid(s, n);
      DestroyedFewer(s, n);
      EvictEachKeepsValid(Destroyed(s, n), ns[..|ns| - 1]);
    }
  }

  lemma {:induction false} EvictAllWorks(s: State, ms: seq<Node>)
    requires Valid(s)
    ensures Valid(EvictAll(s, ms))
    ensures FewerBindings(s, EvictAll(s, ms))
    ensures forall n | n in EvictAll(s, ms).binding.up :: EvictAll(s, ms).binding.up[n] !in ms
    decreases |ms|
  {
    if ms != [] {
      var m, t := ms[|ms| - 1], EvictAll(s, ms[..|ms| - 1]);
      var r := Get(t.binding.down, m);
      EvictAllWorks(s, ms[..|ms| - 1]);
      Parts(t);
      assert Lists(t.binding.up, r, m);
      EvictEachKeepsValid(t, r);
      EvictEachFewer(t, r);
      FewerIsTransitive(s, t, EvictEach(t, r));
    }
  }

  /** No node of another loadable sits below a node of `l`. */
  ghost predicate NoGuests(s: State, l: Node) {
    forall n | n in s.tree.up && n !in Get(s.ownership.down, l) :: s.tree.up[n] !in Get(s.ownership.down, l)
  }

  /** A node at home is below a node of its own loadable. */
  lemma HomeIsOwn(s: State, n: Node, p: Node)
    requires Mirrored(s.ownership) && AtHome(s, n, p) && n in s.ownership.up && s.ownership.up[n] != n
    ensures p in s.ownership.up && s.ownership.up[p] == s.ownership.up[n]
  {
    OwnedBy(s, s.ownership.up[n]);
  }

  lemma NotAGuest(s: State, l: Node, n: Node)
    requires Rooted(s) && Owning(s) && Placed(s) && Pending(s) && l in s.attached && n in s.tree.up
    requires forall m | m in s.binding.up :: s.binding.up[m] !in Get(s.ownership.down, l)
    requires n !in Get(s.ownership.down, l)
    ensures s.tree.up[n] !in Get(s.ownership.down, l)
  {
    var p := s.tree.up[n];
    OwnedBy(s, l);
    if n !in s.attached {
      DetachedParent(s, n);
    } else if AtHome(s, n, p) {
      if n in s.ownership.up && s.ownership.up[n] != n {
        HomeIsOwn(s, n, p);
      }
    } else {
      assert Moved(s, n, p);
    }
  }

  lemma UnboundMeansNoGuests(s: State, l: Node)
    requires Rooted(s) && Owning(s) && Placed(s) && Pending(s) && l in s.attached
    requires forall n | n in s.binding.up :: s.binding.up[n] !in Get(s.ownership.down, l)
    ensures NoGuests(s, l)
  {
    forall n | n in s.tree.up && n !in Get(s.ownership.down, l) ensures s.tree.up[n] !in Get(s.ownership.down, l) {
      NotAGuest(s, l, n);
    }
  }

  // Return

  lemma OwnerComesFirst(s: State, l: Node, n: Node)
    requires Heads(s, l) && Mirrored(s.ownership) && n in s.ownership.up && s.ownership.up[n] == l && n != l
    ensures Before(Get(s.ownership.down, l), l, n)
  {
    var v := Get(s.ownership.down, l);
    OwnedBy(s, l);
    var j :| 0 <= j < |v| && v[j] == n;
  }

  lemma LoadableOwnsItself(s: State, l: Node)
    requires Mirrored(s.ownership) && Heads(s, l)
    ensures l in s.ownership.up && s.ownership.up[l] == l && l in Get(s.ownership.down, l)
  {
    OwnedBy(s, l);
    assert l in Get(s.ownership.down, l);
  }

  /** Among the nodes of a loadable only the loadable is one. */
  lemma OnlyLoadable(s: State, l: Node, n: Node)
    requires Owning(s) && n in Get(s.ownership.down, l) && s.IsLoadable(n)
    ensures n == l
  {
    OwnedTogether(s, l, n);
    LoadableOwnsItself(s, n);
  }

  /** Where an unloaded node goes: the loadable below the toplevel, its nodes below the loadable. */
  function Home(s: State, n: Node): Node {
    if s.IsLoadable(n) || n !in s.ownership.up then s.top else s.ownership.up[n]
  }

  lemma HomeIsHome(s: State, l: Node, n: Node)
    requires Owning(s) && Owner(s, l) && n in s.ownership.up && s.ownership.up[n] == l
    ensures AtHome(s, n, Home(s, n)) && Home(s, n) == (if n == l then s.top else l)
  {
    LoadableOwnsItself(s, l);
    OwnedBy(s, l);
    if n != l {
      OwnerComesFirst(s, l, n);
      if s.IsLoadable(n) {
        OnlyLoadable(s, l, n);
      }
    }
  }

  lemma UnloadingKeepsTree(s: State, l: Node, n: Node)
    requires Hierarchy(s) && n in s.attached && l in s.attached && s.IsLoadable(l)
    requires Home(s, n) == (if n == l then s.top else l) && (n != l ==> s.tree.up[l] == s.top)
    ensures TreeOf(Unloading(s, n).tree, s.top, s.attached, Holders(s))
    ensures Unloading(s, n).tree.up == s.tree.up[n := Home(s, n)]
  {
    if n != l {
      BelowStep(s.tree.up, l, n);
    }
    MoveKeepsTree(s.tree, s.top, s.attached, Holders(s), n, Home(s, n), -1);
  }

  lemma UnlinkKeepsBinding(s: State, n: Node)
    requires Binding(s)
    ensures Binding(s.(binding := Unlink(s.binding, n)))
  {
    if n in s.binding.up {
      UnbindKeepsBinding(s, n);
    } else {
      assert s.(binding := s.binding) == s;
    }
  }

  lemma UnloadingIsUpdate(s: State, l: Node, n: Node)
    requires Hierarchy(s) && Binding(s) && l in s.attached && s.IsLoadable(l)
    requires n in s.attached && n != s.orphans && AtHome(s, n, Home(s, n))
    requires Home(s, n) == (if n == l then s.top else l) && (n != l ==> s.tree.up[l] == s.top)
    ensures Update(s, Unloading(s, n).tree, Unloading(s, n).binding, n, Home(s, n))
  {
    UnloadingKeepsTree(s, l, n);
    UnlinkKeepsBinding(s, n);
  }

  lemma UnloadingKeepsValid(s: State, l: Node, n: Node)
    requires Valid(s) && Owner(s, l) && n in s.ownership.up && s.ownership.up[n] == l
    requires n != l ==> l in s.tree.up && s.tree.up[l] == s.top
    ensures Valid(Unloading(s, n))
  {
    Parts(s);
    HomeIsHome(s, l, n);
    UnloadingIsUpdate(s, l, n);
    UpdateKeepsValid(s, Unloading(s, n).tree, Unloading(s, n).binding, n, Home(s, n));
  }

  /** The given nodes are unbound and back where they were loaded. */
  ghost predicate Returned(s: State, ns: seq<Node>) {
    forall n | n in ns :: n in s.tree.up && AtHome(s, n, s.tree.up[n]) && n !in s.binding.up
  }

  lemma ReturnedStays(s: State, ns: seq<Node>, n: Node)
    requires Returned(s, ns) && n !in ns && Unloading(s, n).tree.up == s.tree.up[n := Home(s, n)]
    ensures Returned(Unloading(s, n), ns)
  {
    var t := Unloading(s, n);
    forall m | m in ns ensures m in t.tree.up && AtHome(t, m, t.tree.up[m]) && m !in t.binding.up {
      assert AtHome(s, m, s.tree.up[m]);
    }
  }

  /** A node without a parent property never left. */
  lemma NeverLeft(s: State, n: Node)
    requires Placed(s) && Binding(s) && n in s.attached && n in s.tree.up && !s.HasProperty(n)
    ensures AtHome(s, n, s.tree.up[n]) && n !in s.binding.up
  {
    assert n in s.binding.up ==> Fits(s, n, s.binding.up[n]);
  }

  lemma ReturnOneKeepsValid(s: State, l: Node, n: Node)
    requires Valid(s) && Owner(s, l) && n in s.ownership.up && s.ownership.up[n] == l
    requires n != l ==> l in s.tree.up && s.tree.up[l] == s.top
    ensures Valid(ReturnOne(s, n))
  {
    if s.HasProperty(n) {
      UnloadingKeepsValid(s, l, n);
    }
  }

  lemma UnloadingReturns(s: State, l: Node, ns: seq<Node>, n: Node)
    requires Hierarchy(s) && Owning(s) && Returned(s, ns) && n !in ns
    requires Owner(s, l) && n in s.ownership.up && s.ownership.up[n] == l
    requires n != l ==> l in s.tree.up && s.tree.up[l] == s.top
    ensures Returned(Unloading(s, n), ns + [n])
    ensures Unloading(s, n).tree.up == s.tree.up[n := Home(s, n)]
  {
    HomeIsHome(s, l, n);
    UnloadingKeepsTree(s, l, n);
    ReturnedStays(s, ns, n);
  }

  lemma ReturnOneReturns(s: State, l: Node, ns: seq<Node>, n: Node)
    requires Hierarchy(s) && Owning(s) && Binding(s) && Placed(s) && Returned(s, ns) && n !in ns
    requires Owner(s, l) && n in s.ownership.up && s.ownership.up[n] == l
    requires n != l ==> l in s.tree.up && s.tree.up[l] == s.top
    ensures Returned(ReturnOne(s, n), ns + [n]) && OthersStay(s, ReturnOne(s, n), [n])
  {
    if s.HasProperty(n) {
      UnloadingReturns(s, l, ns, n);
    } else {
      NeverLeft(s, n);
    }
  }

  lemma ReturnOneFewer(s: State, n: Node)
    ensures FewerBindings(s, ReturnOne(s, n))
  {
  }

  lemma {:induction false} ReturnAllFewer(s: State, ns: seq<Node>)
    ensures FewerBindings(s, ReturnAll(s, ns))
    decreases |ns|
  {
    if ns != [] {
      ReturnAllFewer(s, ns[..|ns| - 1]);
      ReturnOneFewer(ReturnAll(s, ns[..|ns| - 1]), ns[|ns| - 1]);
      FewerIsTransitive(s, ReturnAll(s, ns[..|ns| - 1]), ReturnAll(s, ns));
    }
  }

  lemma OwnedOnce(s: State, l: Node, ns: seq<Node>)
    requires Mirrored(s.ownership) && ns <= Get(s.ownership.down, l)
    ensures Distinct(ns) && forall n | n in ns :: n in s.ownership.up && s.ownership.up[n] == l
  {
    OwnedBy(s, l);
  }

  /** The nodes not listed keep their parents. */
  ghost predicate OthersStay(s: State, t: State, ns: seq<Node>) {
    && s.tree.up.Keys == t.tree.up.Keys
    && forall m | m in s.tree.up && m !in ns :: t.tree.up[m] == s.tree.up[m]
  }

  lemma ReturnNext(s: State, l: Node, ns: seq<Node>, n: Node) returns (t: State)
    requires Valid(s) && Owner(s, l) && Returned(s, ns) && n !in ns
    requires n in s.ownership.up && s.ownership.up[n] == l && (n != l ==> l in ns)
    ensures t == ReturnOne(s, n) && FewerBindings(s, t)
    ensures Valid(t)
    ensures Returned(t, ns + [n]) && OthersStay(s, t, [n])
  {
    Parts(s);
    t := ReturnOne(s, n);
    ReturnOneFewer(s, n);
    LoadableOwnsItself(s, l);
    assert n != l ==> AtHome(s, l, s.tree.up[l]);
    ReturnOneKeepsValid(s, l, n);
    ReturnOneReturns(s, l, ns, n);
  }

  lemma {:induction false} ReturnAllWorks(s: State, l: Node, ns: seq<Node>) returns (t: State)
    requires Valid(s) && Owner(s, l) && ns <= Get(s.ownership.down, l)
    ensures t == ReturnAll(s, ns) && FewerBindings(s, t)
    ensures Valid(t)
    ensures Returned(t, ns) && OthersStay(s, t, ns)
    decreases |ns|
  {
    if ns == [] {
      t := s;
    } else {
      var n, rest := ns[|ns| - 1], ns[..|ns| - 1];
      var u := ReturnAllWorks(s, l, rest);
      assert Distinct(ns) && forall k | k in ns :: k in s.ownership.up && s.ownership.up[k] == l by {
        Parts(s);
        OwnedOnce(s, l, ns);
      }
      assert n in ns && rest + [n] == ns && (n != l ==> rest[0] == l);
      t := ReturnNext(u, l, rest, n);
    }
  }

  /** `l` and its nodes hang together below the toplevel and nothing else refers to them. */
  ghost predicate Isolated(s: State, l: Node) {
    var v := Get(s.ownership.down, l);
    Returned(s, v) && NoGuests(s, l) && forall n | n in s.binding.up :: s.binding.up[n] !in v
  }

  lemma StillNoGuests(s: State, t: State, l: Node)
    requires NoGuests(s, l) && t.ownership == s.ownership && OthersStay(s, t, Get(s.ownership.down, l))
    ensures NoGuests(t, l)
  {
  }

  lemma EvictedHasNoGuests(s: State, l: Node) returns (e: State)
    requires Valid(s) && Owner(s, l)
    ensures e == EvictAll(s, Get(s.ownership.down, l)) && FewerBindings(s, e)
    ensures Valid(e)
    ensures NoGuests(e, l)
    ensures forall n | n in e.binding.up :: e.binding.up[n] !in Get(s.ownership.down, l)
  {
    e := EvictAll(s, Get(s.ownership.down, l));
    EvictAllWorks(s, Get(s.ownership.down, l));
    Parts(e);
    UnboundMeansNoGuests(e, l);
  }

  /** `unbind` isolates a loadable and keeps the invariant, whatever other unloads are pending. */
  lemma UnbindIsolates(s: State, l: Node) returns (t: State)
    requires Valid(s) && Owner(s, l)
    ensures t == UnbindLoadable(s, l) && FewerBindings(s, t)
    ensures Valid(t)
    ensures Isolated(t, l)
  {
    var v := Get(s.ownership.down, l);
    var e := EvictedHasNoGuests(s, l);
    t := ReturnAllWorks(e, l, v);
    FewerIsTransitive(s, e, t);
    StillNoGuests(e, t, l);
  }
}
