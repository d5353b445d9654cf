/** The toplevel and the operations that change its hierarchy in place. */
module CdlToplevel {
  import opened Vectors
  import opened CdlState
  import opened CdlUpdate
  import opened CdlUnbind
  import opened CdlBind
  import opened CdlDetach
  import opened CdlTearDown
  import opened CdlSurvivors
  import opened CdlCancel
  import opened CdlReturn
  import opened CdlRuns
  import opened Forest

  datatype Change = Loaded | Init | Unloading | Created | Destroyed | ValueChange | ActiveChange

  class Toplevel {
    const top: Node
    const orphans: Node
    var info: map<Node, Info>
    var attached: set<Node>
    var tree: Links          // parents and contents
    var ownership: Links     // owners and owned vectors
    var binding: Links       // bound parent properties and referrers
    var lookupTable: map<string, Node>
    var loadables: seq<Node>
    var containerPosition: map<Node, nat>
    var loadablesPosition: map<Node, nat>

    function View(): State
      reads this
    {
      State(top, orphans, info, attached, tree, ownership, binding, lookupTable, loadables, containerPosition, loadablesPosition)
    }

    constructor (top: Node, orphans: Node, name: string)
      ensures View() == Initial(top, orphans, name)
    {
      this.top, this.orphans := top, orphans;
      info := map[top := Info(name, Kind.Toplevel, NoProperty), orphans := Info("orphans", Container, NoProperty)];
      attached := {orphans};
      tree := Links(map[orphans := top], map[top := [orphans]]);
      ownership, binding := Links(map[], map[]), Links(map[], map[]);
      lookupTable := map["orphans" := orphans];
      loadables, containerPosition, loadablesPosition := [], map[], map[];
    }

    /** Whether `node` is in the contents of `container`, or anywhere below it. */
    method Contains(container: Node, node: Node, recurse: bool) returns (result: bool)
      requires Hierarchy(View()) && container in Holders(View()) && node in attached
      ensures result <==> if recurse then Below(tree.up, node, container) else node in tree.up && tree.up[node] == container
      decreases Subtree(tree.up, container)
    {
      var contents := Get(tree.down, container);
      assert Lists(tree.up, contents, container);
      result := false;
      var i := 0;
      while i < |contents|
        invariant i <= |contents|
        invariant forall j | 0 <= j < i :: contents[j] != node && (recurse ==> !Below(tree.up, node, contents[j]))
      {
        var child := contents[i];
        assert child in contents;
        if node == child {
          BelowParent(tree.up, node);
          return true;
        }
        if recurse {
          SubtreeShrinks(tree.up, top, attached, child);
          if View().IsContainer(child) {
            var found := Contains(child, node, true);
            if found {
              BelowParent(tree.up, child);
              BelowTransitive(tree.up, node, child, container);
              return true;
            }
          } else {
            OnlyHoldersAbove(View(), child, node);
          }
        }
        i := i + 1;
      }
      if Below(tree.up, node, container) {
        var k: nat :| BelowIn(tree.up, node, container, k);
        var c := BelowViaChild(tree.up, node, container, k);
        assert c in contents;
      }
    }

    method AddNode(owner: Node, container: Node, n: Node, data: Info)
      modifies this
      ensures View() == CdlState.AddNode(old(View()), owner, container, n, data)
    {
      info, attached := info[n := data], attached + {n};
      lookupTable := lookupTable[data.name := n];
      ownership := Link(ownership, n, owner, -1);
      if data.kind.Loadable? {
        loadables := loadables + [n];
      }
      tree := Link(tree, n, container, -1);
    }

    method Find(v: seq<Node>, n: Node) returns (i: nat)
      ensures i == IndexOf(v, n)
    {
      i := 0;
      while i < |v| && v[i] != n
        invariant i <= |v| && IndexOf(v, n) == i + IndexOf(v[i..], n)
      {
        assert v[i..][0] == v[i] && v[i..][1..] == v[i + 1..];
        i := i + 1;
      }
    }

    method RemoveNodeFromToplevel(n: Node)
      modifies this
      ensures View() == CdlState.RemoveNodeFromToplevel(old(View()), n)
    {
      attached := attached - {n};
      lookupTable := lookupTable - {if n in info then info[n].name else ""};
      assert View() == Unregister(old(View()), n);
      if View().IsLoadable(n) {
        RemoveFromVectors(n);
      }
    }

    /** The part of `remove_node_from_toplevel` for loadables. */
    method RemoveFromVectors(n: Node)
      modifies this`tree, this`loadables, this`containerPosition, this`loadablesPosition
      ensures View() == DetachAt(old(View()), n, IndexOf(old(Get(tree.down, top)), n), IndexOf(old(loadables), n))
    {
      var i := Find(Get(tree.down, top), n);
      containerPosition := containerPosition[n := i];
      tree := Links(tree.up - {n}, tree.down[top := RemoveAt(Get(tree.down, top), i)]);
      i := Find(loadables, n);
      loadablesPosition := loadablesPosition[n := i];
      loadables := RemoveAt(loadables, i);
    }

    method RemoveLoadableFromToplevel(l: Node)
      modifies this
      ensures View() == RemoveFromToplevel(old(View()), old(Get(ownership.down, l)))
    {
      var v := Get(ownership.down, l);
      var i: int := |v| - 1;
      assert v[..|v|] == v;
      while i >= 0
        invariant -1 <= i < |v|
        invariant RemoveFromToplevel(View(), v[..i + 1]) == RemoveFromToplevel(old(View()), v)
      {
        assert v[..i + 1][..i] == v[..i];
        if v[i] in attached {
          RemoveNodeFromToplevel(v[i]);
        }
        i := i - 1;
      }
    }

    method AddNodeToToplevel(n: Node)
      requires View().IsLoadable(n) ==> n in containerPosition && n in loadablesPosition
      modifies this
      ensures View() == CdlState.AddNodeToToplevel(old(View()), n)
    {
      attached := attached + {n};
      lookupTable := lookupTable[if n in info then info[n].name else "" := n];
      if View().IsLoadable(n) {
        tree := LinkAt(tree, n, top, containerPosition[n]);
        containerPosition := containerPosition - {n};
        loadables := InsertAt(loadables, loadablesPosition[n], n);
        loadablesPosition := loadablesPosition - {n};
      }
    }

    method AddLoadableToToplevel(l: Node)
      requires forall n | n in Get(ownership.down, l) && View().IsLoadable(n) :: n in containerPosition && n in loadablesPosition
      requires Distinct(Get(ownership.down, l))
      modifies this
      ensures View() == AddToToplevel(old(View()), old(Get(ownership.down, l)))
    {
      var v := Get(ownership.down, l);
      var i := 0;
      while i < |v|
        invariant i <= |v| && info == old(info)
        invariant View() == AddToToplevel(old(View()), v[..i])
        invariant forall n | n in v[i..] && View().IsLoadable(n) :: n in containerPosition && n in loadablesPosition
      {
        assert v[..i + 1][..i] == v[..i];
        AddNodeToToplevel(v[i]);
        i := i + 1;
      }
      assert v[..i] == v;
    }

    method ChangeParent(n: Node, p: Node, pos: int)
      modifies this`tree
      ensures tree == Move(old(tree), n, p, pos)
    {
      tree := Unlink(tree, n);
      tree := Link(tree, n, p, pos);
    }

    /** The part of the update handler for a node without a destination. */
    method MoveAway(n: Node)
      modifies this`tree
      ensures tree == Handle(old(View()), n, Nowhere)
    {
      if n in info && info[n].property == Parent("") {
        var contents := Get(tree.down, top);
        var index := 0;
        while index < |contents| && View().HasProperty(contents[index])
          invariant index <= |contents|
          invariant RootPlace(View(), contents) == index + RootPlace(View(), contents[index..])
        {
          assert contents[index..][0] == contents[index] && contents[index..][1..] == contents[index + 1..];
          index := index + 1;
        }
        ChangeParent(n, top, index);
      } else {
        ChangeParent(n, orphans, -1);
      }
    }

    /** The update handler of the parent property. */
    method UpdateHandler(n: Node, d: Destination, change: Change) returns (outcome: Outcome)
      requires Hierarchy(View()) && n in attached && (d.At? ==> d.node in attached)
      modifies this`tree
      ensures tree == Handled(old(View()), n, d, change)
      ensures change in {Loaded, Created, Destroyed} ==>
                outcome == Decide(old(View()), n, if change.Destroyed? then Nowhere else d)
    {
      outcome := Reparented;
      if change in {ValueChange, ActiveChange, Init} {
        return;
      }
      if change == Unloading {
        if View().IsLoadable(n) || n !in ownership.up {
          ChangeParent(n, top, -1);
        } else {
          ChangeParent(n, ownership.up[n], -1);
        }
        return;
      }
      var destination := if change == Destroyed then Nowhere else d;
      if destination == Nowhere {
        MoveAway(n);
      } else if !View().IsContainer(destination.node) {
        outcome := NotAContainer;
      } else {
        var cyclic := false;
        if View().IsContainer(n) {
          cyclic := Contains(n, destination.node, true);
        }
        if cyclic {
          outcome := WouldCycle;
        } else {
          ChangeParent(n, destination.node, -1);
        }
      }
    }

    /** The bookkeeping of references. */
    method UpdateBinding(n: Node, destination: Destination, change: Change)
      requires change.Created? ==> destination.At?
      modifies this`binding
      ensures binding == Rebound(old(binding), n, destination, change)
    {
      if (change == Loaded && destination.At?) || change == Created {
        binding := Link(binding, n, destination.node, -1);
      } else if change == Destroyed || change == Unloading {
        binding := Unlink(binding, n);
      }
    }

    /** `CdlProperty_Reference::update` for the parent property of `n`. */
    method UpdateProperty(n: Node, d: Destination, change: Change) returns (outcome: Outcome)
      requires Hierarchy(View()) && Named(View()) && n in attached && View().HasProperty(n)
      requires (change.Created? ==> d.At?) && (d.At? ==> d.node in attached)
      modifies this`tree, this`binding
      ensures View() == Updated(old(View()), n, d, change)
    {
      ghost var s := View();
      var destination := d;
      if change == Loaded {
        destination := Lookup(View(), n);
      }
      UpdateBinding(n, destination, change);
      HandleIgnoresBinding(s, binding, n, destination, change);
      outcome := UpdateHandler(n, destination, change);
      UpdatedIs(s, n, d, destination, change);
    }

    static lemma UpdatedIs(s: State, n: Node, d: Destination, destination: Destination, change: Change)
      requires destination == (if change.Loaded? then Lookup(s, n) else d) && (change.Created? ==> d.At?)
      ensures s.(binding := Rebound(s.binding, n, destination, change), tree := Handled(s, n, destination, change))
           == Updated(s, n, d, change)
    {
    }

    static lemma HandleIgnoresBinding(s: State, b: Links, n: Node, d: Destination, change: Change)
      ensures Handled(s.(binding := b), n, d, change) == Handled(s, n, d, change)
    {
      SameRootPlace(s, s.(binding := b), Get(s.tree.down, s.top));
    }

    /** `unbind`: evicts whatever refers to nodes of `l`, then returns the nodes of `l` to their place. */
    method Unbind(l: Node)
      requires Valid(View()) && Owner(View(), l)
      modifies this`tree, this`binding
      ensures View() == UnbindLoadable(old(View()), l)
    {
      EvictForeigners(Get(ownership.down, l));
      ReturnNodes(l);
    }

    method EvictForeigners(v: seq<Node>)
      requires Valid(View())
      modifies this`tree, this`binding
      ensures Valid(View()) && View() == EvictAll(old(View()), v)
    {
      var i := 0;
      while i < |v|
        invariant i <= |v| && Valid(View()) && View() == EvictAll(old(View()), v[..i])
      {
        assert v[..i + 1][..i] == v[..i];
        EvictReferrers(v[i]);
        i := i + 1;
      }
      assert v[..i] == v;
    }

    method ReturnNodes(l: Node)
      requires Valid(View()) && Owner(View(), l)
      modifies this`tree, this`binding
      ensures View() == ReturnAll(old(View()), Get(ownership.down, l))
    {
      var v := Get(ownership.down, l);
      assert Distinct(v) && forall n | n in v :: n in ownership.up && ownership.up[n] == l by {
        Parts(View());
        OwnedOnce(View(), l, v);
      }
      var i := 0;
      while i < |v|
        invariant i <= |v| && Valid(View()) && Returned(View(), v[..i])
        invariant View() == ReturnAll(old(View()), v[..i])
      {
        assert v[..i + 1][..i] == v[..i] && v[..i] + [v[i]] == v[..i + 1] && v[i] in v;
        assert i > 0 ==> v[..i][0] == l;
        ReturnNode(v[i], l, v[..i]);
        i := i + 1;
      }
      assert v[..i] == v;
    }

    method ReturnNode(n: Node, ghost l: Node, ghost ns: seq<Node>)
      requires Valid(View()) && Owner(View(), l) && Returned(View(), ns) && n !in ns
      requires n in ownership.up && ownership.up[n] == l && (n != l ==> l in ns)
      modifies this`tree, this`binding
      ensures View() == ReturnOne(old(View()), n) && Valid(View()) && Returned(View(), ns + [n])
    {
      ghost var next := ReturnNext(View(), l, ns, n);
      assert Hierarchy(View()) && Named(View()) && n in attached by { Parts(View()); }
      if View().HasProperty(n) {
        var _ := UpdateProperty(n, Nowhere, Unloading);
      }
    }

    /** The inner loop of `unbind`: the last referrer goes first. */
    method EvictReferrers(m: Node)
      requires Valid(View())
      modifies this`tree, this`binding
      ensures Valid(View())
      ensures View() == EvictEach(old(View()), old(Get(binding.down, m)))
    {
      ghost var s, r := View(), Get(binding.down, m);
      while |Get(binding.down, m)| > 0
        invariant Valid(View()) && EvictEach(View(), Get(binding.down, m)) == EvictEach(s, r)
        decreases |Get(binding.down, m)|
      {
        EvictReferrer(m);
      }
    }

    method EvictReferrer(m: Node)
      requires Valid(View()) && Get(binding.down, m) != []
      modifies this`tree, this`binding
      ensures Valid(View())
      ensures var r := old(Get(binding.down, m));
              Get(binding.down, m) == r[..|r| - 1] && View() == CdlUpdate.Destroyed(old(View()), r[|r| - 1])
    {
      var r := Get(binding.down, m);
      var source := r[|r| - 1];
      ReferrerIsProper(View(), m, source);
      LastReferrer(View(), m, r);
      DestroyedKeepsValid(View(), source);
      var _ := UpdateProperty(source, Nowhere, Destroyed);
    }

    static lemma LastReferrer(s: State, m: Node, r: seq<Node>)
      requires Valid(s) && r != [] && r == Get(s.binding.down, m)
      ensures Get(CdlUpdate.Destroyed(s, r[|r| - 1]).binding.down, m) == r[..|r| - 1]
    {
      Parts(s);
      assert Lists(s.binding.up, r, m) && r[..|r|] == r;
      OwnedShrinks(s.binding, m, r, |r|);
    }

    static lemma ReferrerIsProper(s: State, m: Node, n: Node)
      requires Valid(s) && n in Get(s.binding.down, m)
      ensures Hierarchy(s) && Named(s) && n in s.attached && s.HasProperty(n)
      ensures n in s.binding.up && s.binding.up[n] == m
    {
      Parts(s);
      assert Lists(s.binding.up, Get(s.binding.down, m), m);
      assert Fits(s, n, m);
    }

    /** The destructor of a loadable: deletes what it owns from the back, itself last. */
    method Destroy(l: Node)
      requires SafeToDelete(View(), l, Get(ownership.down, l))
      requires Get(ownership.down, l) != [] && Get(ownership.down, l)[0] == l && Distinct(Get(ownership.down, l))
      modifies this
      ensures View() == DeleteAll(old(View()), old(Get(ownership.down, l)))
    {
      var v := Get(ownership.down, l);
      var i: int := |v| - 1;
      assert v[..|v|] == v;
      while i > 0
        invariant 0 <= i < |v| && SafeToDelete(View(), l, v[..i + 1])
        invariant DeleteAll(View(), v[..i + 1]) == DeleteAll(old(View()), v)
      {
        assert v[..i + 1][..i] == v[..i];
        assert Get(tree.down, v[i]) == [];
        Delete(v[i]);
        i := i - 1;
      }
      assert v[..1] == [l] && [l][..0] == [];
      assert Get(ownership.down, l) == [l] && Get(tree.down, l) == [];
      Delete(l);
    }

    /** `remove_node` and the end of the node. */
    method Delete(n: Node)
      modifies this
      ensures View() == DeleteNode(old(View()), n)
    {
      ownership := Unlink(ownership, n);
      tree := Unlink(tree, n);
      info := info - {n};
      containerPosition, loadablesPosition := containerPosition - {n}, loadablesPosition - {n};
    }

    /** `bind`: Loaded updates for the nodes of `l`, then Created updates for whatever waited for their names. */
    method BindLoadable(l: Node, unresolved: seq<Node>)
      requires Valid(View()) && Bindable(View(), l)
      modifies this`tree, this`binding
      ensures View() == Bind(old(View()), l, unresolved) && Valid(View())
    {
      LoadNodes(Get(ownership.down, l), l);
      Resolve(unresolved);
    }

    method LoadNodes(v: seq<Node>, ghost l: Node)
      requires Valid(View()) && Bindable(View(), l) && v == Get(ownership.down, l)
      modifies this`tree, this`binding
      ensures View() == LoadAll(old(View()), v) && Valid(View())
    {
      ghost var s := View();
      assert Distinct(v) by {
        Parts(s);
        OwnedBy(s, l);
      }
      var i := 0;
      while i < |v|
        invariant i <= |v| && Valid(View()) && View() == LoadAll(s, v[..i])
      {
        assert v[..i + 1][..i] == v[..i] && v[i] in v;
        NextIsUnbound(s, v, i);
        LoadNode(v[i]);
        i := i + 1;
      }
      assert v[..i] == v;
    }

    static lemma NextIsUnbound(s: State, v: seq<Node>, i: nat)
      requires Valid(s) && Distinct(v) && i < |v| && forall n | n in v && s.HasProperty(n) :: Unbound(s, n)
      ensures var u := LoadAll(s, v[..i]); u.HasProperty(v[i]) ==> Unbound(u, v[i])
    {
      var u := LoadAllWorks(s, v[..i]);
      if s.HasProperty(v[i]) {
        assert v[i] in v && v[i] !in v[..i];
        StaysUnbound(s, u, v[..i], v[i]);
      }
    }

    method LoadNode(n: Node)
      requires Valid(View()) && (View().HasProperty(n) ==> Unbound(View(), n))
      modifies this`tree, this`binding
      ensures View() == LoadOne(old(View()), n) && Valid(View())
    {
      LoadOneKeepsValid(View(), n);
      if View().HasProperty(n) {
        assert Hierarchy(View()) && Named(View()) by { Parts(View()); }
        var _ := UpdateProperty(n, Nowhere, Loaded);
      }
    }

    method Resolve(unresolved: seq<Node>)
      requires Valid(View())
      modifies this`tree, this`binding
      ensures View() == ResolveAll(old(View()), unresolved) && Valid(View())
    {
      var i := 0;
      while i < |unresolved|
        invariant i <= |unresolved| && Valid(View()) && View() == ResolveAll(old(View()), unresolved[..i])
      {
        assert unresolved[..i + 1][..i] == unresolved[..i];
        ResolveNode(unresolved[i]);
        i := i + 1;
      }
      assert unresolved[..i] == unresolved;
    }

    method ResolveNode(n: Node)
      requires Valid(View())
      modifies this`tree, this`binding
      ensures View() == ResolveOne(old(View()), n) && Valid(View())
    {
      ResolveOneKeepsValid(View(), n);
      var d := Lookup(View(), n);
      if n in attached && View().HasProperty(n) && n !in binding.up && info[n].property.destination != info[n].name && d.At? {
        assert Hierarchy(View()) && Named(View()) by { Parts(View()); }
        LookupFits(View(), n);
        var _ := UpdateProperty(n, d, Created);
      }
    }

    /** The part of `unload_package` that changes the hierarchy. */
    method UnloadPackage(l: Node)
      requires Valid(View()) && Owner(View(), l)
      modifies this
      ensures View() == Begin(old(View()), l) && Valid(View())
    {
      ghost var t := BeginKeepsValid(View(), l);
      ghost var u := UnbindIsolates(View(), l);
      Unbind(l);
      RemoveLoadableFromToplevel(l);
    }

    /** The transaction is committed: the loadable is deleted. */
    method CommitUnload(l: Node)
      requires Valid(View()) && l in containerPosition
      modifies this
      ensures View() == Commit(old(View()), l) && Valid(View())
    {
      ghost var t := CommitKeepsValid(View(), l);
      TearDownIsSafe(View(), l);
      PendingOwns(View(), l);
      Destroy(l);
    }

    /** The transaction is cancelled: the loadable is attached and bound again. */
    method CancelUnload(l: Node, unresolved: seq<Node>)
      requires Valid(View()) && Returnable(View(), l) && SelfFree(View(), [l])
      modifies this
      ensures View() == CancelAndBind(old(View()), l, unresolved) && Valid(View())
    {
      ghost var s := View();
      ghost var t := CancelStep(s, l);
      PendingOwns(s, l);
      PendingIsBindable(s, t, l);
      AddLoadableToToplevel(l);
      BindLoadable(l, unresolved);
    }

    static lemma PendingOwns(s: State, l: Node)
      requires Valid(s) && l in s.containerPosition
      ensures var v := Get(s.ownership.down, l); v != [] && v[0] == l && Distinct(v)
      ensures forall n | n in Get(s.ownership.down, l) && s.IsLoadable(n) :: n == l
      ensures l in s.loadablesPosition
    {
      Parts(s);
      assert Parked(s, l);
      OwnedBy(s, l);
      forall n | n in Get(s.ownership.down, l) && s.IsLoadable(n) ensures n == l {
        OnlyLoadable(s, l, n);
      }
    }

    static lemma PendingIsBindable(s: State, t: State, l: Node)
      requires Valid(s) && l in s.containerPosition && SelfFree(s, [l]) && Back(s, t, l) && t.binding == s.binding
      ensures Bindable(t, l)
    {
      Parts(s);
      assert Parked(s, l);
      BackIsBindable(s, t, l);
    }
  }

  /** The binding of `n` after an update. */
  function Rebound(b: Links, n: Node, d: Destination, change: Change): Links {
    match change
    case Loaded => if d.At? then Link(b, n, d.node, -1) else b
    case Created => if d.At? then Link(b, n, d.node, -1) else b
    case Destroyed => Unlink(b, n)
    case Unloading => Unlink(b, n)
    case _ => b
  }

  /** The tree after the update handler has run. */
  ghost function Handled(s: State, n: Node, d: Destination, change: Change): Links {
    match change
    case Loaded => Handle(s, n, d)
    case Created => Handle(s, n, d)
    case Destroyed => Handle(s, n, Nowhere)
    case Unloading => CdlUnbind.Unloading(s, n).tree
    case _ => s.tree
  }

  ghost function Updated(s: State, n: Node, d: Destination, change: Change): State {
    match change
    case Loaded => CdlUpdate.Loaded(s, n)
    case Created => if d.At? then CdlUpdate.Created(s, n, d.node) else s
    case Destroyed => CdlUpdate.Destroyed(s, n)
    case Unloading => CdlUnbind.Unloading(s, n)
    case _ => s
  }
}
