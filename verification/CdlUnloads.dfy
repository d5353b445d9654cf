/** Several unloads in one transaction: what is left directly below the toplevel. */
module CdlUnloads {
  import opened Vectors
  import opened CdlState
  import opened CdlUpdate
  import opened CdlUnbind
  import opened CdlDetach
  import opened CdlReverse

  /** `unload_package` for the given loadables in turn. */
  ghost function BeginAll(s: State, ls: seq<Node>): State
    decreases |ls|
  {
    if ls == [] then s else BeginAll(Begin(s, ls[0]), ls[1..])
  }

  /** The contents of the toplevel that are neither nodes of the given loadables nor bound to such nodes. */
  ghost function Staying(s: State, ls: seq<Node>): set<Node> {
    set n | n in Get(s.tree.down, s.top) && StaysFor(s, n, ls)
  }

  ghost predicate StaysFor(s: State, n: Node, ls: seq<Node>) {
    forall l | l in ls :: !Leaves(s, n, Get(s.ownership.down, l))
  }

  // One unload

  /** What the first stage of an unload changes apart from the tree and the bindings. */
  ghost predicate Begun(s: State, t: State, l: Node) {
    var v := Get(s.ownership.down, l);
    && t.top == s.top && t.info == s.info && t.ownership == s.ownership
    && t.attached == s.attached - Members(v) && t.lookupTable == s.lookupTable - Names(s, v)
    && |t.loadables| + 1 == |s.loadables|
    && l in t.containerPosition && l in t.loadablesPosition && t.loadablesPosition[l] <= |t.loadables|
    && (forall k | k in s.containerPosition :: k == l || (k in t.containerPosition && t.containerPosition[k] == s.containerPosition[k]))
    && (forall k | k in s.loadablesPosition :: k == l || (k in t.loadablesPosition && t.loadablesPosition[k] == s.loadablesPosition[k]))
  }

  lemma DetachedBegun(s: State, u: State, l: Node)
    requires FewerBindings(s, u) && Owning(s) && Owner(s, l)
    ensures Begun(s, Detached(u, l, Get(s.ownership.down, l)), l)
  {
    var j := IndexOf(u.loadables, l);
    RemoveAtMembers(u.loadables, j);
    assert Names(u, Get(s.ownership.down, l)) == Names(s, Get(s.ownership.down, l));
  }

  lemma BeginStep(s: State, l: Node) returns (t: State)
    requires Valid(s) && Owner(s, l)
    ensures t == Begin(s, l) && Begun(s, t, l)
    ensures Valid(t)
  {
    t := BeginKeepsValid(s, l);
    var u := UnbindIsolates(s, l);
    assert Owning(s) by { Parts(s); }
    DetachedBegun(s, u, l);
  }

  lemma BeginAtRoot(s: State, l: Node, n: Node)
    requires Valid(s) && Owner(s, l)
    ensures AtRoot(Begin(s, l), n) <==> AtRoot(s, n) && !Leaves(s, n, Get(s.ownership.down, l))
  {
    var t := BeginKeepsValid(s, l);
    UnbindAtRoot(s, l, n);
    assert l in Get(s.ownership.down, l);
  }

  lemma BeginKeeps(s: State, l: Node)
    requires Valid(s) && Owner(s, l)
    ensures Kept(s, Begin(s, l), Get(s.ownership.down, l))
  {
    var t := BeginKeepsValid(s, l);
    var u := UnbindKeeps(s, l);
  }

  lemma LeavesLater(s: State, t: State, n: Node, v: seq<Node>, w: seq<Node>)
    requires Kept(s, t, v) && !Leaves(s, n, v)
    ensures Leaves(t, n, w) <==> Leaves(s, n, w)
  {
  }

  lemma StaysOwner(s: State, t: State, l: Node, k: Node)
    requires Owning(s) && Begun(s, t, l) && Owner(s, k) && k != l
    ensures Owner(t, k)
  {
    OwnedBy(s, l);
    LoadableOwnsItself(s, k);
  }

  // All unloads

  /** What all first stages change apart from the tree and the bindings. */
  ghost predicate AllBegun(s: State, t: State, ls: seq<Node>) {
    && t.top == s.top && t.info == s.info && t.ownership == s.ownership
    && t.lookupTable.Keys <= s.lookupTable.Keys && |t.loadables| + |ls| == |s.loadables|
    && (forall k | k in s.containerPosition && k !in ls :: k in t.containerPosition && t.containerPosition[k] == s.containerPosition[k])
    && (forall k | k in s.loadablesPosition && k !in ls :: k in t.loadablesPosition && t.loadablesPosition[k] == s.loadablesPosition[k])
  }

  /** The names of the nodes of `l` are free. */
  ghost predicate NamesFree(t: State, l: Node) {
    forall n | n in Get(t.ownership.down, l) :: t.NameOf(n) !in t.lookupTable
  }

  /** The loadables are pending, their names are free and different, and each still has its place in
      the vector of loadables when those behind it in `ls` have returned. */
  ghost predicate Waiting(t: State, ls: seq<Node>) {
    && Distinct(ls)
    && (forall l | l in ls :: l in t.containerPosition && l in t.loadablesPosition && NamesFree(t, l))
    && (forall i | 0 <= i < |ls| :: t.loadablesPosition[ls[i]] <= |t.loadables| + |ls| - 1 - i)
    && (forall l, k, m, n | l in ls && k in ls && l != k && m in Get(t.ownership.down, l) && n in Get(t.ownership.down, k)
          :: t.NameOf(m) != t.NameOf(n))
  }

  ghost predicate AllOwners(s: State, ls: seq<Node>) {
    Distinct(ls) && forall l | l in ls :: Owner(s, l)
  }

  lemma RestLoaded(s: State, t: State, ls: seq<Node>)
    requires Owning(s) && AllOwners(s, ls) && ls != [] && Begun(s, t, ls[0])
    ensures AllOwners(t, ls[1..]) && ls[0] !in ls[1..] && ls == [ls[0]] + ls[1..]
  {
    forall k | k in ls[1..] ensures Owner(t, k) {
      StaysOwner(s, t, ls[0], k);
    }
  }

  lemma AllBegunStep(s: State, t: State, u: State, l: Node, rest: seq<Node>)
    requires Begun(s, t, l) && AllBegun(t, u, rest) && l !in rest
    ensures AllBegun(s, u, [l] + rest)
    ensures l in u.containerPosition && l in u.loadablesPosition
    ensures u.loadablesPosition[l] <= |u.loadables| + |rest| && u.containerPosition[l] == t.containerPosition[l]
  {
  }

  lemma {:induction false} BeginAllWorks(s: State, ls: seq<Node>) returns (t: State)
    requires Valid(s) && AllOwners(s, ls)
    ensures t == BeginAll(s, ls) && AllBegun(s, t, ls)
    ensures Valid(t)
    ensures forall l | l in ls :: l in t.containerPosition && l in t.loadablesPosition && NamesFree(t, l)
    ensures forall i | 0 <= i < |ls| :: t.loadablesPosition[ls[i]] <= |t.loadables| + |ls| - 1 - i
    decreases |ls|
  {
    if ls == [] {
      t := s;
    } else {
      var l, rest := ls[0], ls[1..];
      var u := BeginStep(s, l);
      assert Owning(s) by { Parts(s); }
      RestLoaded(s, u, ls);
      t := BeginAllWorks(u, rest);
      AllBegunStep(s, u, t, l, rest);
      assert NamesFree(t, l) by { NamesGone(s, u, t, l, rest); }
      forall i | 0 <= i < |ls| ensures t.loadablesPosition[ls[i]] <= |t.loadables| + |ls| - 1 - i {
        assert i > 0 ==> ls[i] == rest[i - 1];
      }
    }
  }

  lemma NamesGone(s: State, t: State, u: State, l: Node, rest: seq<Node>)
    requires Begun(s, t, l) && AllBegun(t, u, rest)
    ensures NamesFree(u, l)
  {
    forall n | n in Get(u.ownership.down, l) ensures u.NameOf(n) !in u.lookupTable {
      assert s.NameOf(n) in Names(s, Get(s.ownership.down, l));
    }
  }

  lemma BeginAllWaits(s: State, ls: seq<Node>) returns (t: State)
    requires Valid(s) && AllOwners(s, ls)
    ensures t == BeginAll(s, ls) && AllBegun(s, t, ls)
    ensures Valid(t)
    ensures Waiting(t, ls)
  {
    t := BeginAllWorks(s, ls);
    forall l, k, m, n | l in ls && k in ls && l != k && m in Get(t.ownership.down, l) && n in Get(t.ownership.down, k)
      ensures t.NameOf(m) != t.NameOf(n)
    {
      NamesDiffer(s, l, k, m, n);
    }
  }

  lemma NamesDiffer(s: State, l: Node, k: Node, m: Node, n: Node)
    requires Valid(s) && Owner(s, l) && Owner(s, k) && l != k
    requires m in Get(s.ownership.down, l) && n in Get(s.ownership.down, k)
    ensures s.NameOf(m) != s.NameOf(n)
  {
    Parts(s);
    OwnedTogether(s, l, m);
    OwnedTogether(s, k, n);
    assert s.lookupTable[s.NameOf(m)] == m && s.lookupTable[s.NameOf(n)] == n;
  }

  lemma {:induction false} BeginAllAtRoot(s: State, ls: seq<Node>, n: Node)
    requires Valid(s) && AllOwners(s, ls)
    ensures AtRoot(BeginAll(s, ls), n) <==> AtRoot(s, n) && StaysFor(s, n, ls)
    decreases |ls|
  {
    if ls != [] {
      var l, rest := ls[0], ls[1..];
      var v := Get(s.ownership.down, l);
      var t := BeginStep(s, l);
      assert Owning(s) by { Parts(s); }
      RestLoaded(s, t, ls);
      BeginAtRoot(s, l, n);
      BeginKeeps(s, l);
      BeginAllAtRoot(t, rest, n);
      if !Leaves(s, n, v) {
        forall k | k in rest ensures Leaves(t, n, Get(t.ownership.down, k)) <==> Leaves(s, n, Get(s.ownership.down, k)) {
          LeavesLater(s, t, n, v, Get(s.ownership.down, k));
        }
      }
    }
  }

  lemma {:induction false} SizeOfVector(v: seq<Node>)
    requires Distinct(v)
    ensures |Members(v)| == |v|
    decreases |v|
  {
    if v != [] {
      SizeOfVector(v[1..]);
      assert Members(v) == {v[0]} + Members(v[1..]);
    } else {
      assert Members(v) == {};
    }
  }

  lemma RootContents(s: State, n: Node)
    requires Valid(s)
    ensures n in Get(s.tree.down, s.top) <==> AtRoot(s, n)
    ensures Distinct(Get(s.tree.down, s.top))
  {
    assert Mirrored(s.tree) by { Parts(s); }
    assert Lists(s.tree.up, Get(s.tree.down, s.top), s.top);
  }

  /** After all unloads the toplevel holds exactly the nodes that stay. */
  lemma RootAfterAll(s: State, ls: seq<Node>)
    requires Valid(s) && AllOwners(s, ls)
    ensures |Get(BeginAll(s, ls).tree.down, s.top)| == |Staying(s, ls)|
  {
    var t := BeginAllWorks(s, ls);
    var v := Get(t.tree.down, s.top);
    forall n ensures n in v <==> n in Staying(s, ls) {
      RootContents(s, n);
      RootContents(t, n);
      BeginAllAtRoot(s, ls, n);
    }
    assert Members(v) == Staying(s, ls);
    RootContents(t, 0);
    SizeOfVector(v);
  }
}
