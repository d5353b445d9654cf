/** Adding nodes while a loadable is read in. */
module CdlLoad {
  import opened Vectors
  import opened CdlState
  import opened CdlUpdate
  import opened Forest

  /** What the loaders check before they add a node. */
  ghost predicate Addable(s: State, owner: Node, p: Node, n: Node, data: Info) {
    && n !in s.info && data.name !in s.lookupTable && !data.kind.Toplevel?
    && (if data.kind.Loadable? then owner == n && p == s.top
        else owner != n && Owner(s, owner) && p in Get(s.ownership.down, owner) && s.IsContainer(p))
  }

  lemma NobodysParent(s: State, n: Node, m: Node)
    requires Rooted(s) && Hierarchy(s) && Owning(s) && Pending(s) && n !in s.info && m in s.tree.up
    ensures s.tree.up[m] != n
  {
    if m !in s.attached {
      DetachedParent(s, m);
    }
  }

  lemma HoldersWith(s: State, owner: Node, p: Node, n: Node, data: Info, q: Node)
    requires n !in s.info && q != n
    ensures q in Holders(AddNode(s, owner, p, n, data)) <==> q in Holders(s)
  {
  }

  lemma AddKeepsTree(s: State, owner: Node, p: Node, n: Node, data: Info)
    requires Rooted(s) && Hierarchy(s) && Owning(s) && Pending(s) && n !in s.info && p in Holders(s)
    ensures Hierarchy(AddNode(s, owner, p, n, data))
  {
    var t := AddNode(s, owner, p, n, data);
    LinkKeepsMirror(s.tree, n, p, -1);
    LeafKeepsTree(s.tree.up, s.top, s.attached, n, p);
    forall m | m in t.tree.up ensures m in t.attached <==> t.tree.up[m] in Holders(t) {
      if m != n {
        NobodysParent(s, n, m);
      }
      HoldersWith(s, owner, p, n, data, t.tree.up[m]);
    }
  }

  lemma HeadsStay(s: State, owner: Node, p: Node, n: Node, data: Info, l: Node)
    requires Heads(s, l) && n !in s.info
    ensures Heads(AddNode(s, owner, p, n, data), l)
  {
  }

  lemma NewLoadableOwnsItself(s: State, p: Node, n: Node, data: Info)
    requires Owning(s) && n !in s.info && data.kind.Loadable?
    ensures Heads(AddNode(s, n, p, n, data), n)
  {
    var v := Get(s.ownership.down, n);
    OwnedBy(s, n);
    forall m: Node ensures m !in v {
      assert m in s.ownership.up ==> Heads(s, s.ownership.up[m]);
    }
    SomeMember(v);
  }

  lemma AddKeepsLoadables(s: State, owner: Node, p: Node, n: Node, data: Info)
    requires Distinct(s.loadables) && (forall m :: m in s.loadables <==> m in s.attached && s.IsLoadable(m))
    requires n !in s.info && s.attached <= s.info.Keys
    ensures var t := AddNode(s, owner, p, n, data);
            Distinct(t.loadables) && (forall m :: m in t.loadables <==> m in t.attached && t.IsLoadable(m))
  {
  }

  lemma NewOwnerHeads(s: State, owner: Node, p: Node, n: Node, data: Info)
    requires Owning(s) && Addable(s, owner, p, n, data)
    ensures Heads(AddNode(s, owner, p, n, data), owner)
  {
    if data.kind.Loadable? {
      NewLoadableOwnsItself(s, p, n, data);
    } else {
      HeadsStay(s, owner, p, n, data, owner);
    }
  }

  lemma AddKeepsOwning(s: State, owner: Node, p: Node, n: Node, data: Info)
    requires Rooted(s) && Owning(s) && Addable(s, owner, p, n, data)
    ensures Owning(AddNode(s, owner, p, n, data))
  {
    var t := AddNode(s, owner, p, n, data);
    LinkKeepsMirror(s.ownership, n, owner, -1);
    AddKeepsLoadables(s, owner, p, n, data);
    NewOwnerHeads(s, owner, p, n, data);
    assert t.ownership.up == s.ownership.up[n := owner];
    forall m | m in t.ownership.up
      ensures Heads(t, t.ownership.up[m]) && (m in t.attached <==> t.ownership.up[m] in t.attached)
    {
      if m != n {
        HeadsStay(s, owner, p, n, data, s.ownership.up[m]);
      }
    }
    forall l | l in t.ownership.up && t.IsLoadable(l) ensures Heads(t, l) {
      if l != n {
        HeadsStay(s, owner, p, n, data, l);
      }
    }
  }

  lemma AddKeepsNamed(s: State, owner: Node, p: Node, n: Node, data: Info)
    requires Named(s) && n !in s.info && s.attached <= s.info.Keys && data.name !in s.lookupTable
    ensures Named(AddNode(s, owner, p, n, data))
  {
  }

  lemma AddKeepsBinding(s: State, owner: Node, p: Node, n: Node, data: Info)
    requires Binding(s) && n !in s.info && s.attached <= s.info.Keys
    ensures Binding(AddNode(s, owner, p, n, data))
  {
    var t := AddNode(s, owner, p, n, data);
    forall m | m in t.binding.up ensures m in t.attached && Fits(t, m, t.binding.up[m]) {
      assert Fits(s, m, s.binding.up[m]);
    }
  }

  lemma BeforeInLonger(v: seq<Node>, a: Node, b: Node, x: Node)
    requires Before(v, a, b)
    ensures Before(InsertAt(v, |v|, x), a, b)
  {
    var i, j :| 0 <= i < j < |v| && v[i] == a && v[j] == b;
    assert InsertAt(v, |v|, x)[i] == a && InsertAt(v, |v|, x)[j] == b;
  }

  lemma OthersStayPlaced(s: State, owner: Node, p: Node, n: Node, data: Info, m: Node, q: Node)
    requires (AtHome(s, m, q) || Moved(s, m, q)) && m != n && n !in s.info && n !in s.ownership.up
    ensures var t := AddNode(s, owner, p, n, data); AtHome(t, m, q) || Moved(t, m, q)
  {
    if AtHome(s, m, q) && m in s.ownership.up && s.ownership.up[m] == owner != m {
      BeforeInLonger(Get(s.ownership.down, owner), q, m, n);
    }
  }

  lemma NewIsPlaced(s: State, owner: Node, p: Node, n: Node, data: Info)
    requires Addable(s, owner, p, n, data)
    ensures AtHome(AddNode(s, owner, p, n, data), n, p)
  {
    if owner != n {
      var v := Get(s.ownership.down, owner);
      var w := InsertAt(v, |v|, n);
      var i :| 0 <= i < |v| && v[i] == p;
      assert w[i] == p && w[|v|] == n;
    }
  }

  lemma AddKeepsPlaced(s: State, owner: Node, p: Node, n: Node, data: Info)
    requires Placed(s) && Addable(s, owner, p, n, data)
    requires n !in s.tree.up && n !in s.ownership.up
    ensures Placed(AddNode(s, owner, p, n, data))
  {
    var t := AddNode(s, owner, p, n, data);
    forall m | m in t.attached && m in t.tree.up ensures AtHome(t, m, t.tree.up[m]) || Moved(t, m, t.tree.up[m]) {
      if m != n {
        OthersStayPlaced(s, owner, p, n, data, m, s.tree.up[m]);
      } else {
        NewIsPlaced(s, owner, p, n, data);
      }
    }
  }

  lemma OwnedHolds(s: State, owner: Node, p: Node)
    requires Owning(s) && Owner(s, owner) && p in Get(s.ownership.down, owner) && s.IsContainer(p)
    ensures p in Holders(s)
  {
    OwnedTogether(s, owner, p);
  }

  lemma StaysParked(s: State, owner: Node, p: Node, n: Node, data: Info, l: Node)
    requires Rooted(s) && Owning(s) && Parked(s, l) && Addable(s, owner, p, n, data)
    ensures Parked(AddNode(s, owner, p, n, data), l)
  {
    OwnedBy(s, l);
    assert l in Get(s.ownership.down, l);
    ParkedStays(s, AddNode(s, owner, p, n, data), l);
  }

  lemma AddKeepsPending(s: State, owner: Node, p: Node, n: Node, data: Info)
    requires Rooted(s) && Owning(s) && Pending(s) && Addable(s, owner, p, n, data)
    ensures Pending(AddNode(s, owner, p, n, data))
  {
    var t := AddNode(s, owner, p, n, data);
    forall l | l in t.containerPosition ensures Parked(t, l) {
      StaysParked(s, owner, p, n, data, l);
    }
  }

  lemma AddKeepsRooted(s: State, owner: Node, p: Node, n: Node, data: Info)
    requires Rooted(s) && n !in s.info
    ensures Rooted(AddNode(s, owner, p, n, data))
  {
  }

  /** Adding a node as the loaders do keeps the invariant. */
  lemma AddKeepsValid(s: State, owner: Node, p: Node, n: Node, data: Info)
    requires Valid(s) && Addable(s, owner, p, n, data)
    ensures Valid(AddNode(s, owner, p, n, data))
  {
    Parts(s);
    if !data.kind.Loadable? {
      OwnedHolds(s, owner, p);
    }
    AddKeepsTree(s, owner, p, n, data);
    AddKeepsOwning(s, owner, p, n, data);
    AddKeepsNamed(s, owner, p, n, data);
    AddKeepsBinding(s, owner, p, n, data);
    AddKeepsPlaced(s, owner, p, n, data);
    AddKeepsPending(s, owner, p, n, data);
    AddKeepsRooted(s, owner, p, n, data);
    forall a ensures Holds(AddNode(s, owner, p, n, data), a) {
    }
  }

  /** A vector of the node `p` has got `n` as its last entry, and nothing else is different. */
  ghost predicate PutLast(before: Links, after: Links, p: Node, n: Node) {
    && after.up == before.up[n := p]
    && Get(after.down, p) == Get(before.down, p) + [n]
    && forall q | q != p :: Get(after.down, q) == Get(before.down, q)
  }

  lemma LinkPutsLast(l: Links, n: Node, p: Node)
    ensures PutLast(l, Link(l, n, p, -1), p, n)
  {
    var v := Get(l.down, p);
    assert InsertAt(v, |v|, n) == v + [n];
  }

  /** The new node is the last one in the contents of its container and among the nodes of its owner, its name leads to
      it, a loadable is the last one in the vector of loadables; no other node is touched. */
  lemma AddPutsLast(s: State, owner: Node, p: Node, n: Node, data: Info) returns (t: State)
    requires Addable(s, owner, p, n, data)
    ensures t == AddNode(s, owner, p, n, data)
    ensures PutLast(s.tree, t.tree, p, n) && PutLast(s.ownership, t.ownership, owner, n)
    ensures t.lookupTable == s.lookupTable[data.name := n] && t.info == s.info[n := data] && t.attached == s.attached + {n}
    ensures t.loadables == s.loadables + if data.kind == Loadable then [n] else []
    ensures t.top == s.top && t.orphans == s.orphans && t.binding == s.binding
    ensures t.containerPosition == s.containerPosition && t.loadablesPosition == s.loadablesPosition
  {
    t := AddNode(s, owner, p, n, data);
    LinkPutsLast(s.tree, n, p);
    LinkPutsLast(s.ownership, n, owner);
  }
}
