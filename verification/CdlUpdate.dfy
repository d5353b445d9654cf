/** Parent-property updates and the invariant that every one of them keeps. */
module CdlUpdate {
  import opened Vectors
  import opened CdlState
  import opened Forest

  // The invariant

  /** `up` makes a tree of `nodes` below `root`; they and only they hang from holders; `down` agrees. */
  ghost predicate TreeOf(l: Links, root: Node, nodes: set<Node>, holders: set<Node>) {
    && Mirrored(l) && Tree(l.up, root, nodes)
    && (forall n | n in l.up :: n in nodes <==> l.up[n] in holders)
  }

  /** The nodes that can have contents. */
  function Holders(s: State): set<Node> {
    {s.top} + set n | n in s.attached && s.IsContainer(n)
  }

  ghost predicate Rooted(s: State) {
    && s.top != s.orphans && s.top in s.info && s.orphans in s.info
    && s.attached <= s.info.Keys && s.tree.up.Keys <= s.info.Keys && s.ownership.up.Keys <= s.info.Keys
    && s.info[s.top] == Info(s.NameOf(s.top), Toplevel, NoProperty)
    && s.info[s.orphans] == Info(s.NameOf(s.orphans), Container, NoProperty)
    && s.orphans in s.tree.up && s.tree.up[s.orphans] == s.top
    && s.top !in s.ownership.up && s.orphans !in s.ownership.up
  }

  ghost predicate Hierarchy(s: State) {
    TreeOf(s.tree, s.top, s.attached, Holders(s))
  }

  ghost predicate Named(s: State) {
    && (forall k | k in s.lookupTable :: s.lookupTable[k] in s.attached && s.NameOf(s.lookupTable[k]) == k)
    && (forall n | n in s.attached :: s.NameOf(n) in s.lookupTable && s.lookupTable[s.NameOf(n)] == n)
  }

  /** Nodes are attached together with their owners, and every loadable owns itself. */
  ghost predicate Owning(s: State) {
    && Mirrored(s.ownership)
    && (forall n | n in s.attached && n != s.orphans :: n in s.ownership.up)
    && (forall n | n in s.ownership.up ::
          Heads(s, s.ownership.up[n]) && (n in s.attached <==> s.ownership.up[n] in s.attached))
    && (forall l | l in s.ownership.up && s.IsLoadable(l) :: Heads(s, l))
    && Distinct(s.loadables) && (forall n :: n in s.loadables <==> n in s.attached && s.IsLoadable(n))
  }

  /** A loadable that owns itself, before anything else. */
  ghost predicate Heads(s: State, l: Node) {
    s.IsLoadable(l) && Get(s.ownership.down, l) != [] && Get(s.ownership.down, l)[0] == l
  }

  ghost predicate Owner(s: State, l: Node) {
    l in s.attached && Heads(s, l)
  }

  ghost predicate Binding(s: State) {
    && Mirrored(s.binding)
    && (forall n | n in s.binding.up :: n in s.attached && Fits(s, n, s.binding.up[n]))
  }

  /** The parent property of `n` asks for `d`. */
  ghost predicate Fits(s: State, n: Node, d: Node) {
    s.HasProperty(n) && d in s.attached && s.info[n].property == Parent(s.NameOf(d)) && s.NameOf(d) != ""
  }

  ghost predicate Before(v: seq<Node>, a: Node, b: Node) {
    exists i, j | 0 <= i < j < |v| :: v[i] == a && v[j] == b
  }

  /** `n` sits where it was loaded: below a node that its loadable owned earlier. */
  ghost predicate AtHome(s: State, n: Node, p: Node) {
    if n !in s.ownership.up || s.ownership.up[n] == n then p == s.top
    else Before(Get(s.ownership.down, s.ownership.up[n]), p, n)
  }

  /** Only a parent property moves a node: to its destination, the root or the orphans. */
  ghost predicate Moved(s: State, n: Node, p: Node) {
    s.HasProperty(n) && (p == s.top || p == s.orphans || (n in s.binding.up && p == s.binding.up[n]))
  }

  ghost predicate Placed(s: State) {
    forall n | n in s.attached && n in s.tree.up :: AtHome(s, n, s.tree.up[n]) || Moved(s, n, s.tree.up[n])
  }

  ghost predicate NamedApart(s: State, v: seq<Node>) {
    forall m, n | m in v && n in v && s.NameOf(m) == s.NameOf(n) :: m == n
  }

  /** `l` has been taken out of the hierarchy; its nodes still hang together below it. */
  ghost predicate Parked(s: State, l: Node) {
    && Heads(s, l) && l !in s.attached && l !in s.tree.up && NamedApart(s, Get(s.ownership.down, l))
    && forall n | n in Get(s.ownership.down, l) && n != l :: InPlace(s, l, n)
  }

  ghost predicate InPlace(s: State, l: Node, n: Node) {
    n in s.tree.up && Before(Get(s.ownership.down, l), s.tree.up[n], n) && s.IsContainer(s.tree.up[n])
  }

  /** Whatever is not attached belongs to a loadable whose unload can still be cancelled. */
  ghost predicate Pending(s: State) {
    && s.containerPosition.Keys == s.loadablesPosition.Keys
    && (forall l | l in s.containerPosition :: Parked(s, l))
    && (forall n | (n in s.ownership.up || n in s.tree.up) && n !in s.attached ::
          n in s.ownership.up && s.ownership.up[n] in s.containerPosition)
  }

  datatype Aspect = ToplevelAspect | TreeAspect | NameAspect | OwnerAspect | BindingAspect | PlaceAspect | PendingAspect

  ghost predicate Holds(s: State, a: Aspect) {
    match a
    case ToplevelAspect => Rooted(s)
    case TreeAspect => Hierarchy(s)
    case NameAspect => Named(s)
    case OwnerAspect => Owning(s)
    case BindingAspect => Binding(s)
    case PlaceAspect => Placed(s)
    case PendingAspect => Pending(s)
  }

  /** The invariant of a configuration, with any number of unloads waiting to be committed or cancelled. */
  ghost predicate Valid(s: State) {
    forall a :: Holds(s, a)
  }

  lemma Parts(s: State)
    requires Valid(s)
    ensures Rooted(s) && Hierarchy(s) && Named(s) && Owning(s) && Binding(s) && Placed(s) && Pending(s)
  {
    assert Holds(s, ToplevelAspect) && Holds(s, TreeAspect) && Holds(s, NameAspect) && Holds(s, OwnerAspect);
    assert Holds(s, BindingAspect) && Holds(s, PlaceAspect) && Holds(s, PendingAspect);
  }

  lemma OwnedBy(s: State, l: Node)
    requires Mirrored(s.ownership)
    ensures Distinct(Get(s.ownership.down, l))
    ensures forall n :: n in Get(s.ownership.down, l) <==> n in s.ownership.up && s.ownership.up[n] == l
  {
    assert Lists(s.ownership.up, Get(s.ownership.down, l), l);
  }

  // The update handler

  /** The first place in `v` held by a node without a parent property. */
  function RootPlace(s: State, v: seq<Node>): (i: nat)
    ensures i <= |v|
    ensures forall j | 0 <= j < |v| && !s.HasProperty(v[j]) :: i <= j
  {
    if v == [] || !s.HasProperty(v[0]) then 0 else 1 + RootPlace(s, v[1..])
  }

  lemma {:induction false} SameRootPlace(s: State, t: State, v: seq<Node>)
    requires s.info == t.info
    ensures RootPlace(s, v) == RootPlace(t, v)
    decreases |v|
  {
    if v != [] {
      SameRootPlace(s, t, v[1..]);
    }
  }

  datatype Destination = Nowhere | At(node: Node)
  datatype Outcome = Reparented | NotAContainer | WouldCycle

  ghost function Decide(s: State, n: Node, d: Destination): Outcome {
    if d.Nowhere? then Reparented
    else if !s.IsContainer(d.node) then NotAContainer
    else if s.IsContainer(n) && Below(s.tree.up, d.node, n) then WouldCycle
    else Reparented
  }

  /** `update_handler` for the changes Loaded, Created and Destroyed: the new tree. */
  ghost function Handle(s: State, n: Node, d: Destination): Links {
    if !Decide(s, n, d).Reparented? then s.tree
    else if d.At? then Move(s.tree, n, d.node, -1)
    else if s.BelowRoot(n) then Move(s.tree, n, s.top, RootPlace(s, Get(s.tree.down, s.top)))
    else Move(s.tree, n, s.orphans, -1)
  }

  function Lookup(s: State, n: Node): Destination {
    if s.HasProperty(n) && !s.BelowRoot(n) && s.info[n].property.destination in s.lookupTable then
      At(s.lookupTable[s.info[n].property.destination])
    else Nowhere
  }

  ghost function Created(s: State, n: Node, d: Node): State {
    s.(binding := Link(s.binding, n, d, -1), tree := Handle(s, n, At(d)))
  }

  ghost function Loaded(s: State, n: Node): State {
    var d := Lookup(s, n);
    if d.At? then Created(s, n, d.node) else s.(tree := Handle(s, n, Nowhere))
  }

  ghost function Destroyed(s: State, n: Node): State {
    s.(binding := Unlink(s.binding, n), tree := Handle(s, n, Nowhere))
  }

  /** `n` has a parent property, not yet bound, that does not name `n` itself. */
  ghost predicate Unbound(s: State, n: Node) {
    && n in s.attached && s.HasProperty(n) && n !in s.binding.up
    && s.info[n].property.destination != s.NameOf(n)
  }

  // Preservation of the tree

  lemma MoveKeepsTree(l: Links, root: Node, nodes: set<Node>, holders: set<Node>, n: Node, p: Node, pos: int)
    requires TreeOf(l, root, nodes, holders) && n in nodes && p in holders
    requires p == root || p in nodes
    requires pos <= |Get(Unlink(l, n).down, p)|
    ensures TreeOf(Move(l, n, p, pos), root, nodes, holders) <==> p != n && !Below(l.up, p, n)
    ensures Move(l, n, p, pos).up == l.up[n := p]
  {
    MoveKeepsMirror(l, n, p, pos);
    ReparentKeepsTree(l.up, root, nodes, n, p);
    assert nodes + {n} == nodes;
  }

  lemma OnlyHoldersAbove(s: State, n: Node, d: Node)
    requires Hierarchy(s) && n !in Holders(s) && d in s.attached
    ensures !Below(s.tree.up, d, n)
  {
    if Below(s.tree.up, d, n) {
      var k: nat :| BelowIn(s.tree.up, d, n, k);
      AncestorsAmong(s.tree.up, Holders(s), s.attached, s.top, d, n, k);
    }
  }

  /** A bound property: the cycle check refuses exactly the moves that would break the tree. */
  lemma HandleAtKeepsTree(s: State, n: Node, d: Node)
    requires Hierarchy(s) && s.attached <= s.info.Keys && n in s.attached && d in s.attached && d != n
    ensures TreeOf(Handle(s, n, At(d)), s.top, s.attached, Holders(s))
    ensures Handle(s, n, At(d)).up == if Decide(s, n, At(d)).Reparented? then s.tree.up[n := d] else s.tree.up
    ensures s.IsContainer(d) ==>
              (Decide(s, n, At(d)).WouldCycle? <==> !TreeOf(Move(s.tree, n, d, -1), s.top, s.attached, Holders(s)))
  {
    if s.IsContainer(d) {
      MoveKeepsTree(s.tree, s.top, s.attached, Holders(s), n, d, -1);
      if !s.IsContainer(n) {
        OnlyHoldersAbove(s, n, d);
      }
    }
  }

  lemma RootPlaceFits(s: State, n: Node)
    requires Mirrored(s.tree) && Rooted(s) && n in s.tree.up && n != s.orphans
    ensures RootPlace(s, Get(s.tree.down, s.top)) <= |Get(Unlink(s.tree, n).down, s.top)|
  {
    var v := Get(s.tree.down, s.top);
    assert Lists(s.tree.up, v, s.top);
    var j :| 0 <= j < |v| && v[j] == s.orphans;
    UnlinkKeepsMirror(s.tree, n);
  }

  /** An unbound property: the root and the orphans container are never below the node. */
  lemma HandleNowhereKeepsTree(s: State, n: Node)
    requires Rooted(s) && Hierarchy(s) && n in s.attached && n != s.orphans
    ensures TreeOf(Handle(s, n, Nowhere), s.top, s.attached, Holders(s))
    ensures Handle(s, n, Nowhere).up == s.tree.up[n := if s.BelowRoot(n) then s.top else s.orphans]
  {
    BelowStep(s.tree.up, s.orphans, n);
    if s.BelowRoot(n) {
      RootPlaceFits(s, n);
      MoveKeepsTree(s.tree, s.top, s.attached, Holders(s), n, s.top, RootPlace(s, Get(s.tree.down, s.top)));
    } else {
      MoveKeepsTree(s.tree, s.top, s.attached, Holders(s), n, s.orphans, -1);
    }
  }

  // Preservation of the rest

  /** What an update of the parent property of `n` amounts to. */
  ghost predicate Update(s: State, tree: Links, binding: Links, n: Node, p: Node) {
    && n in s.attached && n in s.tree.up && n != s.orphans
    && TreeOf(tree, s.top, s.attached, Holders(s)) && tree.up == s.tree.up[n := p]
    && Binding(s.(binding := binding))
    && (forall m | m != n :: m in binding.up <==> m in s.binding.up)
    && (forall m | m != n && m in s.binding.up :: binding.up[m] == s.binding.up[m])
    && (AtHome(s, n, p) || Moved(s.(binding := binding), n, p))
  }

  lemma PlacedAfter(s: State, tree: Links, binding: Links, n: Node, p: Node)
    requires Placed(s) && Update(s, tree, binding, n, p)
    ensures Placed(s.(tree := tree, binding := binding))
  {
    var t := s.(tree := tree, binding := binding);
    forall m | m in t.attached && m in t.tree.up ensures AtHome(t, m, t.tree.up[m]) || Moved(t, m, t.tree.up[m]) {
      if m != n {
        OtherStaysPlaced(s, t, m, s.tree.up[m]);
      } else {
        OtherStaysPlaced(s.(binding := binding), t, n, p);
      }
    }
  }

  lemma OtherStaysPlaced(s: State, t: State, m: Node, p: Node)
    requires AtHome(s, m, p) || Moved(s, m, p)
    requires t == s.(tree := t.tree, binding := t.binding)
    requires m in s.binding.up ==> m in t.binding.up && t.binding.up[m] == s.binding.up[m]
    ensures AtHome(t, m, p) || Moved(t, m, p)
  {
  }

  /** The nodes of a loadable are attached together. */
  lemma OwnedTogether(s: State, l: Node, n: Node)
    requires Owning(s) && n in Get(s.ownership.down, l)
    ensures n in s.ownership.up && s.ownership.up[n] == l && (n in s.attached <==> l in s.attached)
  {
    OwnedBy(s, l);
  }

  /** A node that is not attached is below an earlier node of its loadable. */
  lemma DetachedParent(s: State, n: Node)
    requires Owning(s) && Pending(s) && n in s.tree.up && n !in s.attached
    ensures n in s.ownership.up && s.ownership.up[n] in s.containerPosition && InPlace(s, s.ownership.up[n], n)
    ensures s.tree.up[n] in s.ownership.up && s.ownership.up[s.tree.up[n]] == s.ownership.up[n]
    ensures s.tree.up[n] !in s.attached
  {
    var l := s.ownership.up[n];
    assert Parked(s, l);
    OwnedBy(s, l);
    assert InPlace(s, l, n);
    OwnedTogether(s, l, s.tree.up[n]);
  }

  /** The fields of the nodes of `l` that `Parked` speaks of are the same. */
  ghost predicate SameNodes(s: State, t: State, l: Node) {
    var v := Get(s.ownership.down, l);
    && Get(t.ownership.down, l) == v && l !in t.attached && l !in t.tree.up
    && (forall n | n in v :: n in t.info && n in s.info && t.info[n] == s.info[n])
    && (forall n | n in v && n in s.tree.up :: n in t.tree.up && t.tree.up[n] == s.tree.up[n])
  }

  lemma InPlaceStays(s: State, t: State, l: Node, n: Node)
    requires InPlace(s, l, n) && SameNodes(s, t, l) && n in Get(s.ownership.down, l)
    ensures InPlace(t, l, n)
  {
    assert s.tree.up[n] in Get(s.ownership.down, l);
  }

  lemma ParkedStays(s: State, t: State, l: Node)
    requires Parked(s, l) && SameNodes(s, t, l)
    ensures Parked(t, l)
  {
    forall n | n in Get(t.ownership.down, l) && n != l ensures InPlace(t, l, n) {
      InPlaceStays(s, t, l, n);
    }
    forall n | n in Get(s.ownership.down, l) ensures t.NameOf(n) == s.NameOf(n) {
    }
    assert l in Get(s.ownership.down, l);
  }

  lemma ParkedAfter(s: State, t: State, n: Node, p: Node, l: Node)
    requires Rooted(s) && Owning(s) && Parked(s, l) && n in s.attached
    requires t == s.(tree := t.tree, binding := t.binding) && t.tree.up == s.tree.up[n := p]
    ensures Parked(t, l)
  {
    forall m | m in Get(s.ownership.down, l) ensures m in s.info && m != n {
      OwnedTogether(s, l, m);
    }
    assert l in Get(s.ownership.down, l);
    ParkedStays(s, t, l);
  }

  lemma PendingAfter(s: State, tree: Links, binding: Links, n: Node, p: Node)
    requires Rooted(s) && Owning(s) && Pending(s) && n in s.attached && tree.up == s.tree.up[n := p]
    ensures Pending(s.(tree := tree, binding := binding))
  {
    var t := s.(tree := tree, binding := binding);
    forall l | l in t.containerPosition ensures Parked(t, l) {
      ParkedAfter(s, t, n, p, l);
    }
  }

  lemma UpdateKeepsValid(s: State, tree: Links, binding: Links, n: Node, p: Node)
    requires Valid(s) && Update(s, tree, binding, n, p)
    ensures Valid(s.(tree := tree, binding := binding))
  {
    var t := s.(tree := tree, binding := binding);
    Parts(s);
    PlacedAfter(s, tree, binding, n, p);
    NamedAfter(s, tree, binding);
    OwningAfter(s, tree, binding);
    RootedAfter(s, tree, binding, n, p);
    PendingAfter(s, tree, binding, n, p);
    assert Hierarchy(t) && Binding(t);
    forall a ensures Holds(t, a) {
    }
  }

  lemma NamedAfter(s: State, tree: Links, binding: Links)
    requires Named(s)
    ensures Named(s.(tree := tree, binding := binding))
  {
  }

  lemma OwningAfter(s: State, tree: Links, binding: Links)
    requires Owning(s)
    ensures Owning(s.(tree := tree, binding := binding))
  {
    var t := s.(tree := tree, binding := binding);
    forall l ensures Heads(t, l) == Heads(s, l) && t.IsLoadable(l) == s.IsLoadable(l) {
    }
  }

  lemma RootedAfter(s: State, tree: Links, binding: Links, n: Node, p: Node)
    requires Rooted(s) && Update(s, tree, binding, n, p)
    ensures Rooted(s.(tree := tree, binding := binding))
  {
  }

  lemma BindKeepsBinding(s: State, n: Node, d: Node)
    requires Binding(s) && n in s.attached && n !in s.binding.up && Fits(s, n, d)
    ensures Binding(s.(binding := Link(s.binding, n, d, -1)))
  {
    LinkKeepsMirror(s.binding, n, d, -1);
  }

  /** Where a Created update leaves the node: below its destination, or where it was. */
  ghost function CreatedParent(s: State, n: Node, d: Node): Node
    requires n in s.tree.up
  {
    if Decide(s, n, At(d)).Reparented? then d else s.tree.up[n]
  }

  lemma StillPlaced(s: State, n: Node, d: Node, b: Links)
    requires Placed(s) && n in s.attached && n in s.tree.up && n !in s.binding.up && s.HasProperty(n)
    requires n in b.up && b.up[n] == d
    ensures AtHome(s, n, CreatedParent(s, n, d)) || Moved(s.(binding := b), n, CreatedParent(s, n, d))
  {
    assert AtHome(s, n, s.tree.up[n]) || Moved(s, n, s.tree.up[n]);
  }

  /** Created, and Loaded when the destination exists. */
  lemma CreatedIsUpdate(s: State, n: Node, d: Node) returns (p: Node)
    requires Rooted(s) && Hierarchy(s) && Binding(s) && Placed(s) && Unbound(s, n) && Fits(s, n, d)
    ensures Update(s, Handle(s, n, At(d)), Link(s.binding, n, d, -1), n, p)
  {
    HandleAtKeepsTree(s, n, d);
    BindKeepsBinding(s, n, d);
    p := CreatedParent(s, n, d);
    StillPlaced(s, n, d, Link(s.binding, n, d, -1));
  }

  lemma CreatedKeepsValid(s: State, n: Node, d: Node)
    requires Valid(s) && Unbound(s, n) && Fits(s, n, d)
    ensures Valid(Created(s, n, d))
  {
    Parts(s);
    var p := CreatedIsUpdate(s, n, d);
    UpdateKeepsValid(s, Handle(s, n, At(d)), Link(s.binding, n, d, -1), n, p);
  }

  /** The destination is missing, unnamed, or about to go away. */
  lemma NowhereIsUpdate(s: State, n: Node, b: Links) returns (p: Node)
    requires Rooted(s) && Hierarchy(s) && n in s.attached && s.HasProperty(n)
    requires Binding(s.(binding := b)) && b.up == s.binding.up - {n}
    ensures Update(s, Handle(s, n, Nowhere), b, n, p)
  {
    p := if s.BelowRoot(n) then s.top else s.orphans;
    HandleNowhereKeepsTree(s, n);
  }

  lemma NowhereKeepsValid(s: State, n: Node, b: Links)
    requires Valid(s) && n in s.attached && s.HasProperty(n)
    requires Binding(s.(binding := b)) && b.up == s.binding.up - {n}
    ensures Valid(s.(binding := b, tree := Handle(s, n, Nowhere)))
  {
    Parts(s);
    var p := NowhereIsUpdate(s, n, b);
    UpdateKeepsValid(s, Handle(s, n, Nowhere), b, n, p);
  }

  lemma LookupFits(s: State, n: Node)
    requires Named(s) && Lookup(s, n).At?
    ensures Fits(s, n, Lookup(s, n).node)
  {
  }

  lemma MissingKeepsValid(s: State, n: Node)
    requires Valid(s) && n in s.attached && s.HasProperty(n) && n !in s.binding.up
    ensures Valid(s.(tree := Handle(s, n, Nowhere)))
  {
    assert s.(binding := s.binding) == s && s.binding.up - {n} == s.binding.up;
    assert Binding(s) by { Parts(s); }
    NowhereKeepsValid(s, n, s.binding);
  }

  lemma LoadedKeepsValid(s: State, n: Node)
    requires Valid(s) && Unbound(s, n)
    ensures Valid(Loaded(s, n))
  {
    var d := Lookup(s, n);
    if d.At? {
      assert Named(s) by { Parts(s); }
      LookupFits(s, n);
      CreatedKeepsValid(s, n, d.node);
    } else {
      MissingKeepsValid(s, n);
    }
  }

  lemma UnbindKeepsBinding(s: State, n: Node)
    requires Binding(s) && n in s.binding.up
    ensures Binding(s.(binding := Unlink(s.binding, n)))
  {
    UnlinkKeepsMirror(s.binding, n);
  }

  lemma DestroyedKeepsValid(s: State, n: Node)
    requires Valid(s) && n in s.binding.up
    ensures Valid(Destroyed(s, n))
  {
    Parts(s);
    UnbindKeepsBinding(s, n);
    NowhereKeepsValid(s, n, Unlink(s.binding, n));
  }
}
