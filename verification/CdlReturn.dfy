/** The cancellation of one unload, with the `bind` that ends it: what it brings back below the toplevel. */
module CdlReturn {
  import opened Vectors
  import opened CdlState
  import opened CdlUpdate
  import opened CdlBind
  import opened CdlUnbind
  import opened CdlDetach
  import opened CdlCancel
  import opened CdlReverse
  import opened CdlUnloads
  import opened CdlRebind

  // One cancellation

  /** What attaching a loadable again changes apart from the tree and the bindings. */
  ghost predicate Back(s: State, t: State, l: Node) {
    && t.top == s.top && t.info == s.info && t.ownership == s.ownership
    && l in t.attached && t.attached == s.attached + Members(Get(s.ownership.down, l))
    && (forall k | k in t.lookupTable :: k in s.lookupTable || k in Names(s, Get(s.ownership.down, l)))
    && |t.loadables| == |s.loadables| + 1
    && t.containerPosition == s.containerPosition - {l} && t.loadablesPosition == s.loadablesPosition - {l}
  }

  lemma AttachedIsBack(s: State, t: State, l: Node, v: seq<Node>)
    requires Returnable(s, l) && v == Get(s.ownership.down, l) && l in v && t == Attached(s, l, v)
    ensures Back(s, t, l) && t.binding == s.binding
    ensures |Get(t.tree.down, t.top)| == |Get(s.tree.down, s.top)| + 1
  {
    EnterKeys(s, v);
  }

  lemma CancelStep(s: State, l: Node) returns (t: State)
    requires Valid(s) && Returnable(s, l)
    ensures t == Cancel(s, l) && Back(s, t, l) && t.binding == s.binding
    ensures Valid(t)
    ensures |Get(t.tree.down, t.top)| == |Get(s.tree.down, s.top)| + 1
  {
    CancelKeepsValid(s, l);
    t := Cancel(s, l);
    assert l in Get(s.ownership.down, l) && t == Attached(s, l, Get(s.ownership.down, l)) by {
      Parts(s);
      CancelAttaches(s, l);
      assert Parked(s, l);
    }
    AttachedIsBack(s, t, l, Get(s.ownership.down, l));
  }

  lemma ReturnableIff(s: State, l: Node, ls: seq<Node>)
    requires Waiting(s, ls) && ls != [] && l == ls[|ls| - 1]
    ensures Returnable(s, l) <==> s.containerPosition[l] <= |Get(s.tree.down, s.top)|
  {
    assert l in ls && NamesFree(s, l);
  }

  lemma StillFree(s: State, t: State, l: Node, ls: seq<Node>, k: Node)
    requires Waiting(s, ls) && l in ls && k in ls && k != l && Back(s, t, l)
    ensures NamesFree(t, k)
  {
    assert NamesFree(s, k);
    forall n | n in Get(t.ownership.down, k) ensures t.NameOf(n) !in t.lookupTable {
      forall m | m in Get(s.ownership.down, l) ensures s.NameOf(m) != s.NameOf(n) {
      }
      assert s.NameOf(n) !in Names(s, Get(s.ownership.down, l));
    }
  }

  /** The others go on waiting. */
  lemma StillWaiting(s: State, t: State, l: Node, ls: seq<Node>, rest: seq<Node>)
    requires Waiting(s, ls) && ls != [] && l == ls[|ls| - 1] && rest == ls[..|ls| - 1] && Back(s, t, l)
    ensures Waiting(t, rest)
  {
    assert ls == rest + [l];
    forall k | k in rest ensures k in t.containerPosition && k in t.loadablesPosition && NamesFree(t, k) {
      StillFree(s, t, l, ls, k);
    }
    forall i | 0 <= i < |rest| ensures t.loadablesPosition[rest[i]] <= |t.loadables| + |rest| - 1 - i {
      assert rest[i] == ls[i];
    }
  }

  // A loadable that found no place

  /** `l` has the toplevel as its parent but does not stand in its contents. */
  ghost predicate Lost(s: State, l: Node) {
    AtRoot(s, l) && l !in Get(s.tree.down, s.top)
  }

  lemma AttachedIsLost(s: State, l: Node)
    requires l in s.containerPosition && l in s.loadablesPosition
    requires s.containerPosition[l] > |Get(s.tree.down, s.top)| && l !in Get(s.tree.down, s.top)
    ensures var t := Attached(s, l, Get(s.ownership.down, l)); Lost(t, l) && t.ownership == s.ownership
  {
  }

  lemma MisplacedIsLost(s: State, l: Node)
    requires Valid(s) && l in s.containerPosition && l in s.loadablesPosition
    requires s.containerPosition[l] > |Get(s.tree.down, s.top)|
    ensures Lost(Cancel(s, l), l) && Cancel(s, l).ownership == s.ownership
    ensures Mirrored(s.ownership) && l in s.ownership.up && s.ownership.up[l] == l
  {
    assert Heads(s, l) && l !in s.tree.up && Owning(s) && Cancel(s, l) == Attached(s, l, Get(s.ownership.down, l)) by {
      Parts(s);
      CancelAttaches(s, l);
      assert Parked(s, l);
    }
    LoadableOwnsItself(s, l);
    RootContents(s, l);
    AttachedIsLost(s, l);
  }

  // Cancellation with its final `bind`

  /** `transaction_cancel_unload`. */
  ghost function CancelAndBind(s: State, l: Node, unresolved: seq<Node>): State {
    Bind(Cancel(s, l), l, unresolved)
  }

  /** Every parent property of these loadables passed the check that it does not name its own node. */
  ghost predicate SelfFree(s: State, ls: seq<Node>) {
    forall l, n | l in ls && n in Get(s.ownership.down, l) && s.HasProperty(n) ::
      s.info[n].property.destination != s.NameOf(n)
  }

  lemma BackIsBindable(s: State, t: State, l: Node)
    requires Binding(s) && Owning(s) && Back(s, t, l) && t.binding == s.binding && Parked(s, l) && SelfFree(s, [l])
    ensures Bindable(t, l)
  {
    assert l in [l];
    forall n | n in Get(t.ownership.down, l) && t.HasProperty(n) ensures Unbound(t, n) {
      OwnedTogether(s, l, n);
    }
  }

  lemma ReadyToBind(s: State, l: Node) returns (t: State)
    requires Valid(s) && Returnable(s, l) && SelfFree(s, [l])
    ensures t == Cancel(s, l) && Back(s, t, l) && t.binding == s.binding
    ensures Valid(t)
    ensures Bindable(t, l)
  {
    t := CancelStep(s, l);
    assert Binding(s) && Owning(s) && Parked(s, l) by { Parts(s); }
    BackIsBindable(s, t, l);
  }

  lemma CancelAndBindStep(s: State, l: Node, unresolved: seq<Node>) returns (t: State)
    requires Valid(s) && Returnable(s, l) && SelfFree(s, [l])
    ensures t == CancelAndBind(s, l, unresolved) && Back(s, t, l)
    ensures Valid(t)
  {
    var c := ReadyToBind(s, l);
    t := BindResolves(c, l, unresolved);
  }

  lemma SelfFreeRest(s: State, t: State, ls: seq<Node>, rest: seq<Node>, l: Node)
    requires SelfFree(s, ls) && ls == rest + [l] && t.info == s.info && t.ownership == s.ownership
    ensures SelfFree(s, [l]) && SelfFree(t, rest)
  {
    forall k | k in rest || k in [l] ensures k in ls {
    }
  }

  // What a cancellation brings back below the toplevel

  /** The nodes of `l` other than itself whose properties name the root. */
  ghost function RootNodes(s: State, l: Node): set<Node> {
    set n | n in Get(s.ownership.down, l) && n != l && s.BelowRoot(n)
  }

  /** The pending loadable `l` will remain below the toplevel when it is attached and bound again: it names no parent or
      the root, or one of its own nodes, or an attached node that is no container. */
  ghost predicate RemainsBack(s: State, l: Node) {
    !s.HasProperty(l) || s.BelowRoot(l) || s.info[l].property.destination in Names(s, Get(s.ownership.down, l)) ||
    (Lookup(s, l).At? && !s.IsContainer(Lookup(s, l).node))
  }

  ghost function Brings(s: State, l: Node): set<Node> {
    RootNodes(s, l) + if RemainsBack(s, l) then {l} else {}
  }

  lemma LookupBack(s: State, t: State, l: Node, v: seq<Node>)
    requires Returnable(s, l) && v == Get(s.ownership.down, l) && t == Attached(s, l, v)
    requires s.HasProperty(l) && !s.BelowRoot(l)
    ensures var name := s.info[l].property.destination;
            && (name in Names(s, v) ==> Lookup(t, l).At? && Lookup(t, l).node in v)
            && (name !in Names(s, v) ==> Lookup(t, l) == Lookup(s, l))
  {
    EnterKeys(s, v);
  }

  lemma RemainsIff(s: State, t: State, l: Node)
    requires Valid(s) && Returnable(s, l) && t == Cancel(s, l)
    ensures Remains(t, l) <==> RemainsBack(s, l)
  {
    var v := Get(s.ownership.down, l);
    assert t == Attached(s, l, v) && (Lookup(s, l).At? ==> Lookup(s, l).node !in v) by {
      Parts(s);
      CancelAttaches(s, l);
      assert Parked(s, l);
      OwnedBy(s, l);
    }
    if s.HasProperty(l) && !s.BelowRoot(l) {
      LookupBack(s, t, l, v);
    }
  }

  lemma PendingNode(s: State, l: Node, n: Node)
    requires Rooted(s) && Owning(s) && Parked(s, l) && n in Get(s.ownership.down, l)
    ensures n !in s.attached && n != s.top && n !in Holders(s)
  {
    OwnedTogether(s, l, n);
  }

  lemma OutsideStaysOut(s: State, l: Node, v: seq<Node>, n: Node)
    requires Rooted(s) && Hierarchy(s) && Owning(s) && Pending(s) && Parked(s, l) && v == Get(s.ownership.down, l)
    requires n in s.tree.up && n !in v
    ensures s.tree.up[n] !in v
  {
    if n in s.attached {
      assert s.tree.up[n] in Holders(s);
      forall m | m in v ensures m !in Holders(s) {
        PendingNode(s, l, m);
      }
    } else {
      StaysApart(s, l, v, n);
    }
  }

  lemma OwnBack(s: State, t: State, l: Node, v: seq<Node>, n: Node)
    requires Return(s, t, l, v) && Rooted(s) && Owning(s) && Binding(s) && n in v
    ensures n in t.tree.up && AtHome(t, n, t.tree.up[n]) && n !in t.binding.up
  {
    PendingNode(s, l, n);
    OwnedTogether(s, l, n);
    assert n != l ==> InPlace(s, l, n);
  }

  lemma NoGuestsBack(s: State, t: State, l: Node, v: seq<Node>)
    requires Return(s, t, l, v) && Rooted(s) && Hierarchy(s) && Owning(s) && Pending(s)
    ensures NoGuests(t, l)
  {
    LoadableOwnsItself(s, l);
    forall n | n in t.tree.up && n !in v ensures t.tree.up[n] !in v {
      OutsideStaysOut(s, l, v, n);
    }
  }

  lemma NotBoundThere(s: State, t: State, l: Node, v: seq<Node>)
    requires Return(s, t, l, v) && Rooted(s) && Owning(s) && Binding(s)
    ensures forall n | n in t.binding.up :: t.binding.up[n] !in v
  {
    forall n | n in s.binding.up ensures s.binding.up[n] !in v {
      assert Fits(s, n, s.binding.up[n]);
      forall m | m in v ensures m !in s.attached {
        PendingNode(s, l, m);
      }
    }
  }

  lemma AllBack(s: State, t: State, l: Node, v: seq<Node>)
    requires Return(s, t, l, v) && Rooted(s) && Owning(s) && Binding(s)
    ensures Returned(t, v)
  {
    forall n | n in v ensures n in t.tree.up && AtHome(t, n, t.tree.up[n]) && n !in t.binding.up {
      OwnBack(s, t, l, v, n);
    }
  }

  /** Attached again, a loadable is isolated as it was when it was taken out. */
  lemma CancelIsolates(s: State, l: Node)
    requires Valid(s) && Returnable(s, l)
    ensures Isolated(Cancel(s, l), l)
  {
    Parts(s);
    CancelAttaches(s, l);
    assert Parked(s, l);
    var t, v := Cancel(s, l), Get(s.ownership.down, l);
    NoGuestsBack(s, t, l, v);
    AllBack(s, t, l, v);
    NotBoundThere(s, t, l, v);
  }

  lemma TopAgain(s: State, l: Node)
    requires Valid(s) && Returnable(s, l)
    ensures Cancel(s, l).tree.up == s.tree.up[l := s.top] && l in Get(s.ownership.down, l)
  {
    Parts(s);
    CancelAttaches(s, l);
    assert Parked(s, l);
  }

  lemma PendingNotAtRoot(s: State, l: Node, n: Node)
    requires Valid(s) && Returnable(s, l) && n in Get(s.ownership.down, l)
    ensures !AtRoot(s, n)
  {
    Parts(s);
    assert Parked(s, l);
    if n != l {
      assert InPlace(s, l, n);
      PendingNode(s, l, s.tree.up[n]);
    }
  }

  lemma WaitsAfterCancel(s: State, l: Node, n: Node)
    requires Valid(s) && Returnable(s, l) && SelfFree(s, [l]) && !WaitsAtRoot(s, n) && n !in Get(s.ownership.down, l)
    ensures !WaitsAtRoot(Cancel(s, l), n)
  {
    TopAgain(s, l);
    var t := ReadyToBind(s, l);
  }

  /** Below the toplevel a cancellation leaves what was there and what the loadable brings. */
  lemma ReturnAtRoot(s: State, l: Node, unresolved: seq<Node>, m: Node)
    requires Valid(s) && Returnable(s, l) && SelfFree(s, [l]) && forall n | n in unresolved :: !WaitsAtRoot(s, n)
    ensures AtRoot(CancelAndBind(s, l, unresolved), m) <==> AtRoot(s, m) || m in Brings(s, l)
    ensures m in Brings(s, l) ==> !AtRoot(s, m)
  {
    var t := ReadyToBind(s, l);
    forall n | n in unresolved && n !in Get(t.ownership.down, l) ensures !WaitsAtRoot(t, n) {
      WaitsAfterCancel(s, l, n);
    }
    CancelIsolates(s, l);
    BindAtRoot(t, l, unresolved, m);
    RemainsIff(s, t, l);
    TopAgain(s, l);
    if m in Get(s.ownership.down, l) {
      PendingNotAtRoot(s, l, m);
    }
  }

  lemma ReturnCount(s: State, l: Node, unresolved: seq<Node>) returns (t: State)
    requires Valid(s) && Returnable(s, l) && SelfFree(s, [l]) && forall n | n in unresolved :: !WaitsAtRoot(s, n)
    ensures t == CancelAndBind(s, l, unresolved) && Back(s, t, l)
    ensures Valid(t)
    ensures |Get(t.tree.down, t.top)| ==
            |Get(s.tree.down, s.top)| + |RootNodes(s, l)| + if RemainsBack(s, l) then 1 else 0
  {
    t := CancelAndBindStep(s, l, unresolved);
    var v, w := Get(s.tree.down, s.top), Get(t.tree.down, t.top);
    RootContents(s, l);
    RootContents(t, l);
    forall m ensures m in w <==> m in v || m in Brings(s, l) {
      RootContents(s, m);
      RootContents(t, m);
      ReturnAtRoot(s, l, unresolved, m);
    }
    forall m | m in Brings(s, l) ensures m !in v {
      RootContents(s, m);
      ReturnAtRoot(s, l, unresolved, m);
    }
    SizeOfVector(v);
    SizeOfVector(w);
    assert Members(w) == Members(v) + Brings(s, l) && Members(v) !! Brings(s, l);
    assert l !in RootNodes(s, l);
  }

  /** No cancellation makes a node wait directly below the toplevel. */
  lemma ReturnWaits(s: State, l: Node, unresolved: seq<Node>, n: Node)
    requires Valid(s) && Returnable(s, l) && SelfFree(s, [l]) && forall k | k in unresolved :: !WaitsAtRoot(s, k)
    ensures WaitsAtRoot(CancelAndBind(s, l, unresolved), n) ==> WaitsAtRoot(s, n)
  {
    var t := ReadyToBind(s, l);
    var r := BindResolves(t, l, unresolved);
    ReturnAtRoot(s, l, unresolved, n);
    RemainsIff(s, t, l);
    TopAgain(s, l);
    if n == l && RemainsBack(s, l) {
      assert Resolved(r, l);
    }
  }
}
