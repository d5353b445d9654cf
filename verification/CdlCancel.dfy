/** The second stage of an unload when the transaction is cancelled: the loadable is attached and bound again. */
module CdlCancel {
  import opened Vectors
  import opened CdlState
  import opened CdlUpdate
  import opened CdlUnbind
  import opened CdlDetach
  import opened CdlUndo
  import opened Forest

  /** The first half of `transaction_cancel_unload`. */
  function Cancel(s: State, l: Node): State {
    AddToToplevel(s, Get(s.ownership.down, l))
  }

  /** What `add_node_to_toplevel` relies on for the nodes of `l`; it asserts all but the second place. */
  ghost predicate Returnable(s: State, l: Node) {
    && l in s.containerPosition && l in s.loadablesPosition
    && s.containerPosition[l] <= |Get(s.tree.down, s.top)| && s.loadablesPosition[l] <= |s.loadables|
    && forall n | n in Get(s.ownership.down, l) :: s.NameOf(n) !in s.lookupTable
  }

  // The loop of `add_loadable_to_toplevel` in one step

  function Enter(s: State, ns: seq<Node>): map<string, Node>
    decreases |ns|
  {
    if ns == [] then s.lookupTable else Enter(s, ns[..|ns| - 1])[s.NameOf(ns[|ns| - 1]) := ns[|ns| - 1]]
  }

  lemma {:induction false} EnterKeys(s: State, ns: seq<Node>)
    ensures forall k :: k in Enter(s, ns) <==> k in s.lookupTable || k in Names(s, ns)
    ensures forall k | k in Enter(s, ns) ::
              if k in Names(s, ns) then Enter(s, ns)[k] in ns && s.NameOf(Enter(s, ns)[k]) == k
              else Enter(s, ns)[k] == s.lookupTable[k]
    decreases |ns|
  {
    if ns != [] {
      var n, rest := ns[|ns| - 1], ns[..|ns| - 1];
      EnterKeys(s, rest);
      assert ns == rest + [n];
      assert Names(s, ns) == Names(s, rest) + {s.NameOf(n)};
    }
  }

  /** The effect of `add_loadable_to_toplevel`. */
  function Attached(s: State, l: Node, ns: seq<Node>): State
    requires l in s.containerPosition && l in s.loadablesPosition
  {
    s.(attached := s.attached + Members(ns), lookupTable := Enter(s, ns),
       tree := LinkAt(s.tree, l, s.top, s.containerPosition[l]), containerPosition := s.containerPosition - {l},
       loadables := InsertAt(s.loadables, s.loadablesPosition[l], l), loadablesPosition := s.loadablesPosition - {l})
  }

  lemma AttachFirst(s: State, l: Node, ns: seq<Node>)
    requires ns == [l] && s.IsLoadable(l) && l in s.containerPosition && l in s.loadablesPosition
    ensures AddToToplevel(s, ns) == Attached(s, l, ns)
  {
    assert ns[..0] == [];
    assert AddToToplevel(s, ns[..0]) == s && Enter(s, ns[..0]) == s.lookupTable;
    assert s.attached + Members(ns) == s.attached + {l};
  }

  lemma AttachNext(s: State, l: Node, rest: seq<Node>, n: Node, ns: seq<Node>)
    requires ns == rest + [n] && !s.IsLoadable(n) && l in s.containerPosition && l in s.loadablesPosition
    ensures AddNodeToToplevel(Attached(s, l, rest), n) == Attached(s, l, ns)
  {
    assert ns[..|ns| - 1] == rest;
    assert Members(ns) == Members(rest) + {n};
    assert s.attached + Members(ns) == s.attached + Members(rest) + {n};
  }

  lemma {:induction false} AdditionAttaches(s: State, l: Node, ns: seq<Node>)
    requires ns != [] && ns[0] == l && s.IsLoadable(l) && l in s.containerPosition && l in s.loadablesPosition
    requires Distinct(ns) && forall n | n in ns :: n != l ==> !s.IsLoadable(n)
    ensures AddToToplevel(s, ns) == Attached(s, l, ns)
    decreases |ns|
  {
    var n, rest := ns[|ns| - 1], ns[..|ns| - 1];
    if rest == [] {
      AttachFirst(s, l, ns);
    } else {
      assert ns == rest + [n] && n in ns && n != ns[0];
      forall m | m in rest ensures m != l ==> !s.IsLoadable(m) {
        assert m in ns;
      }
      AdditionAttaches(s, l, rest);
      AttachNext(s, l, rest, n, ns);
    }
  }

  lemma CancelAttaches(s: State, l: Node)
    requires Owning(s) && Pending(s) && l in s.containerPosition
    ensures Cancel(s, l) == Attached(s, l, Get(s.ownership.down, l))
  {
    assert Parked(s, l);
    OwnedBy(s, l);
    forall n | n in Get(s.ownership.down, l) ensures n != l ==> !s.IsLoadable(n) {
      if s.IsLoadable(n) {
        OnlyLoadable(s, l, n);
      }
    }
    AdditionAttaches(s, l, Get(s.ownership.down, l));
  }

  // A returnable loadable keeps the invariant

  /** `t` is `s` with `l` and its nodes `v` attached again. */
  ghost predicate Return(s: State, t: State, l: Node, v: seq<Node>) {
    Returnable(s, l) && Parked(s, l) && v == Get(s.ownership.down, l) && t == Attached(s, l, v)
  }

  lemma ReturnTreeMirror(s: State, t: State, l: Node, v: seq<Node>)
    requires Mirrored(s.tree) && Return(s, t, l, v)
    ensures Mirrored(t.tree) && t.tree.up == s.tree.up[l := s.top]
  {
    LinkKeepsMirror(s.tree, l, s.top, s.containerPosition[l]);
  }

  lemma HoldersWith(s: State, t: State, l: Node, v: seq<Node>, p: Node)
    requires Return(s, t, l, v)
    ensures p in Holders(t) <==> p in Holders(s) || (p in v && s.IsContainer(p))
  {
  }

  /** Nodes of other pending loadables stay apart. */
  lemma StaysApart(s: State, l: Node, v: seq<Node>, n: Node)
    requires Owning(s) && Pending(s) && v == Get(s.ownership.down, l)
    requires n in s.tree.up && n !in s.attached && n !in v
    ensures s.tree.up[n] !in v
  {
    OwnedBy(s, l);
    DetachedParent(s, n);
  }

  lemma ReturnHung(s: State, t: State, l: Node, v: seq<Node>, n: Node)
    requires Hierarchy(s) && Owning(s) && Pending(s) && Return(s, t, l, v) && n in s.tree.up
    ensures n in s.attached || n in v <==> s.tree.up[n] in Holders(t)
  {
    HoldersWith(s, t, l, v, s.tree.up[n]);
    if n in v {
      assert InPlace(s, l, n);
    } else if n !in s.attached {
      StaysApart(s, l, v, n);
    }
  }

  lemma {:induction false} OwnedClimb(s: State, t: State, l: Node, v: seq<Node>, i: nat)
    requires Return(s, t, l, v) && Distinct(v) && t.tree.up == s.tree.up[l := s.top] && i < |v|
    requires Climbs(t.tree.up, t.top, l)
    ensures v[i] in t.tree.up && Climbs(t.tree.up, t.top, v[i])
    decreases i
  {
    if i > 0 {
      assert v[i] in v && v[i] != v[0];
      assert InPlace(s, l, v[i]);
      var a, b :| 0 <= a < b < |v| && v[a] == s.tree.up[v[i]] && v[b] == v[i];
      OwnedClimb(s, t, l, v, a);
      ClimbsFromParent(t.tree.up, t.top, v[i]);
    }
  }

  lemma AllHung(s: State, t: State, l: Node, v: seq<Node>)
    requires Hierarchy(s) && Owning(s) && Pending(s) && Return(s, t, l, v)
    requires t.tree.up == s.tree.up[l := s.top] && l in v && l !in s.tree.up
    ensures forall n | n in t.tree.up :: n in t.attached <==> t.tree.up[n] in Holders(t)
  {
    forall n | n in t.tree.up ensures n in t.attached <==> t.tree.up[n] in Holders(t) {
      if n != l {
        ReturnHung(s, t, l, v, n);
      }
    }
  }

  lemma AllClimb(s: State, t: State, l: Node, v: seq<Node>)
    requires Hierarchy(s) && Return(s, t, l, v) && Distinct(v) && l != s.top
    requires t.tree.up == s.tree.up[l := s.top] && l in v
    ensures Tree(t.tree.up, t.top, t.attached)
  {
    LeafKeepsTree(s.tree.up, s.top, s.attached, l, s.top);
    forall n | n in t.attached ensures n in t.tree.up && Climbs(t.tree.up, t.top, n) {
      if n in v {
        var i :| 0 <= i < |v| && v[i] == n;
        OwnedClimb(s, t, l, v, i);
      }
    }
  }

  lemma ReturnHierarchy(s: State, t: State, l: Node, v: seq<Node>)
    requires Rooted(s) && Hierarchy(s) && Owning(s) && Pending(s) && Return(s, t, l, v)
    ensures Hierarchy(t)
  {
    OwnedBy(s, l);
    LoadableOwnsItself(s, l);
    ReturnTreeMirror(s, t, l, v);
    AllHung(s, t, l, v);
    AllClimb(s, t, l, v);
  }

  lemma ReturnNames(s: State, t: State, l: Node, v: seq<Node>, n: Node)
    requires Named(s) && Return(s, t, l, v) && n in t.attached
    ensures t.NameOf(n) in t.lookupTable && t.lookupTable[t.NameOf(n)] == n
  {
    EnterKeys(s, v);
    if n in v {
      assert s.NameOf(n) in Names(s, v);
    }
  }

  lemma ReturnNamed(s: State, t: State, l: Node, v: seq<Node>)
    requires Named(s) && Return(s, t, l, v)
    ensures Named(t)
  {
    EnterKeys(s, v);
    forall n | n in t.attached ensures t.NameOf(n) in t.lookupTable && t.lookupTable[t.NameOf(n)] == n {
      ReturnNames(s, t, l, v, n);
    }
  }

  lemma ReturnLoadables(s: State, t: State, l: Node, v: seq<Node>)
    requires Owning(s) && Return(s, t, l, v)
    ensures Distinct(t.loadables) && forall n :: n in t.loadables <==> n in t.attached && t.IsLoadable(n)
  {
    InsertAtMembers(s.loadables, s.loadablesPosition[l], l);
    LoadableOwnsItself(s, l);
    forall n | n in v && s.IsLoadable(n) ensures n == l {
      OnlyLoadable(s, l, n);
    }
  }

  lemma ReturnOwning(s: State, t: State, l: Node, v: seq<Node>)
    requires Owning(s) && Return(s, t, l, v)
    ensures Owning(t)
  {
    ReturnLoadables(s, t, l, v);
    OwnedBy(s, l);
    LoadableOwnsItself(s, l);
    forall k ensures Heads(t, k) == Heads(s, k) && t.IsLoadable(k) == s.IsLoadable(k) {
    }
    forall n | n in t.ownership.up
      ensures Heads(t, t.ownership.up[n]) && (n in t.attached <==> t.ownership.up[n] in t.attached)
    {
      LoadableOwnsItself(s, s.ownership.up[n]);
    }
  }

  lemma ReturnBinding(s: State, t: State, l: Node, v: seq<Node>)
    requires Binding(s) && Return(s, t, l, v)
    ensures Binding(t)
  {
    forall n | n in t.binding.up ensures n in t.attached && Fits(t, n, t.binding.up[n]) {
      assert Fits(s, n, s.binding.up[n]);
    }
  }

  lemma ReturnPlacedNode(s: State, t: State, l: Node, v: seq<Node>, n: Node)
    requires Placed(s) && Owning(s) && Return(s, t, l, v) && n in t.attached && n in t.tree.up
    ensures AtHome(t, n, t.tree.up[n]) || Moved(t, n, t.tree.up[n])
  {
    OwnedBy(s, l);
    LoadableOwnsItself(s, l);
    if n in v {
      if n != l {
        assert InPlace(s, l, n);
      }
    } else {
      assert AtHome(s, n, s.tree.up[n]) || Moved(s, n, s.tree.up[n]);
    }
  }

  lemma ReturnParked(s: State, t: State, l: Node, v: seq<Node>, k: Node)
    requires Rooted(s) && Owning(s) && Return(s, t, l, v) && Parked(s, k) && k != l
    ensures Parked(t, k)
  {
    OwnedBy(s, k);
    OwnedBy(s, l);
    LoadableOwnsItself(s, k);
    LoadableOwnsItself(s, l);
    ParkedStays(s, t, k);
  }

  lemma ReturnPending(s: State, t: State, l: Node, v: seq<Node>)
    requires Rooted(s) && Owning(s) && Pending(s) && Return(s, t, l, v)
    ensures Pending(t)
  {
    forall k | k in t.containerPosition ensures Parked(t, k) {
      ReturnParked(s, t, l, v, k);
    }
    OwnedBy(s, l);
    LoadableOwnsItself(s, l);
  }

  lemma ReturnRooted(s: State, t: State, l: Node, v: seq<Node>)
    requires Rooted(s) && Owning(s) && Return(s, t, l, v)
    ensures Rooted(t)
  {
    LoadableOwnsItself(s, l);
    OwnedBy(s, l);
  }

  lemma ReturnIsValid(s: State, t: State, l: Node, v: seq<Node>)
    requires Valid(s) && Return(s, t, l, v)
    ensures Valid(t)
  {
    Parts(s);
    ReturnRooted(s, t, l, v);
    ReturnHierarchy(s, t, l, v);
    ReturnNamed(s, t, l, v);
    ReturnOwning(s, t, l, v);
    ReturnBinding(s, t, l, v);
    ReturnPending(s, t, l, v);
    forall n | n in t.attached && n in t.tree.up ensures AtHome(t, n, t.tree.up[n]) || Moved(t, n, t.tree.up[n]) {
      ReturnPlacedNode(s, t, l, v, n);
    }
    assert Placed(t);
    forall a ensures Holds(t, a) {
    }
  }

  // Otherwise it breaks it

  lemma MisplacedBreaksTree(s: State, l: Node)
    requires Rooted(s) && Hierarchy(s) && Parked(s, l) && l in s.containerPosition && l in s.loadablesPosition
    requires s.containerPosition[l] > |Get(s.tree.down, s.top)|
    ensures !Hierarchy(Attached(s, l, Get(s.ownership.down, l)))
  {
    var t := Attached(s, l, Get(s.ownership.down, l));
    assert Lists(s.tree.up, Get(s.tree.down, s.top), s.top);
    assert Get(t.tree.down, s.top) == Get(s.tree.down, s.top) && t.tree.up[l] == s.top;
    assert !Lists(t.tree.up, Get(t.tree.down, s.top), s.top);
  }

  lemma MisplacedBreaksLoadables(s: State, l: Node)
    requires Owning(s) && Parked(s, l) && l in s.containerPosition && l in s.loadablesPosition
    requires s.loadablesPosition[l] > |s.loadables|
    ensures !Owning(Attached(s, l, Get(s.ownership.down, l)))
  {
    LoadableOwnsItself(s, l);
    assert l !in s.loadables;
  }

  lemma ClashBreaksNames(s: State, l: Node, n: Node)
    requires Named(s) && Owning(s) && Parked(s, l) && l in s.containerPosition && l in s.loadablesPosition
    requires n in Get(s.ownership.down, l) && s.NameOf(n) in s.lookupTable
    ensures !Named(Attached(s, l, Get(s.ownership.down, l)))
  {
    var v := Get(s.ownership.down, l);
    var t := Attached(s, l, v);
    var m := s.lookupTable[s.NameOf(n)];
    EnterKeys(s, v);
    assert s.NameOf(n) in Names(s, v);
    OwnedBy(s, l);
    assert m in s.attached && m !in v;
    assert t.NameOf(m) == s.NameOf(n) && t.lookupTable[t.NameOf(m)] in v;
  }

  lemma BreaksOtherwise(s: State, l: Node)
    requires Rooted(s) && Hierarchy(s) && Named(s) && Owning(s) && Pending(s)
    requires l in s.containerPosition && !Returnable(s, l)
    ensures var t := Attached(s, l, Get(s.ownership.down, l)); !Hierarchy(t) || !Owning(t) || !Named(t)
  {
    assert Parked(s, l);
    if s.containerPosition[l] > |Get(s.tree.down, s.top)| {
      MisplacedBreaksTree(s, l);
    } else if s.loadablesPosition[l] > |s.loadables| {
      MisplacedBreaksLoadables(s, l);
    } else {
      var n :| n in Get(s.ownership.down, l) && s.NameOf(n) in s.lookupTable;
      ClashBreaksNames(s, l, n);
    }
  }

  /** Attaching a pending loadable again keeps the invariant if and only if its remembered places still
      exist and none of its names has been taken. */
  lemma CancelKeepsValid(s: State, l: Node)
    requires Valid(s) && l in s.containerPosition
    ensures Valid(Cancel(s, l)) <==> Returnable(s, l)
  {
    var v := Get(s.ownership.down, l);
    Parts(s);
    CancelAttaches(s, l);
    var t := Attached(s, l, v);
    if Returnable(s, l) {
      assert Parked(s, l);
      ReturnIsValid(s, t, l, v);
    } else {
      BreaksOtherwise(s, l);
      if Valid(t) {
        Parts(t);
      }
    }
  }

  // Cancelling at once

  lemma ValidMeansRemovable(s: State, n: Node)
    requires Rooted(s) && Hierarchy(s) && Named(s) && Owning(s) && Pending(s)
    requires n in s.attached && (s.IsLoadable(n) ==> n in s.tree.up && s.tree.up[n] == s.top)
    ensures Removable(s, n)
  {
    assert Lists(s.tree.up, Get(s.tree.down, s.top), s.top);
    assert n in s.containerPosition ==> Parked(s, n);
  }

  lemma IsolatedIsRemovable(u: State, l: Node)
    requires Rooted(u) && Hierarchy(u) && Named(u) && Owning(u) && Pending(u) && Owner(u, l) && Isolated(u, l)
    ensures forall n | n in Get(u.ownership.down, l) :: Removable(u, n)
  {
    OwnedTogetherAll(u, l);
    AtTop(u, l);
    forall n | n in Get(u.ownership.down, l) ensures Removable(u, n) {
      ValidMeansRemovable(u, n);
    }
  }

  /** An unload that is cancelled before anything else happens leaves the configuration as `unbind`
      made it, in every field. */
  lemma CancelRestores(s: State, l: Node)
    requires Valid(s) && Owner(s, l)
    ensures Cancel(Begin(s, l), l) == UnbindLoadable(s, l)
  {
    var u := UnbindIsolates(s, l);
    var v := Get(s.ownership.down, l);
    Parts(u);
    IsolatedIsRemovable(u, l);
    OwnedBy(u, l);
    IsolatedDetaches(u, l, v);
    UndoIsExact(u, v);
  }
}
