/** A loadable that does not find its place again, although its unload is cancelled in reverse order. */
module CdlStray {
  import opened Vectors
  import opened CdlState
  import opened CdlUpdate
  import opened CdlUnbind
  import opened CdlDetach
  import opened CdlCancel
  import opened CdlReverse
  import opened CdlUnloads
  import opened CdlRebind
  import opened CdlReturn
  import opened CdlBackwards
  import opened CdlRuns

  const TOP: Node := 0
  const ORPHANS: Node := 1
  const P: Node := 2    // a package
  const X: Node := 3    // its option, which is no container
  const F: Node := 4    // a package that wants to be below the option
  const L: Node := 5    // the package that is loaded last

  function Data(n: Node): Info {
    if n == P then Info("P", Loadable, NoProperty)
    else if n == X then Info("X", Plain, NoProperty)
    else if n == F then Info("F", Loadable, Parent("X"))
    else Info("L", Loadable, NoProperty)
  }

  function Load(owner: Node, p: Node, n: Node): Step {
    Add(owner, p, n, Data(n))
  }

  /** Linking at the end, with the new vector written out. */
  function Listed(l: Links, n: Node, p: Node, v: seq<Node>): Links {
    Links(l.up[n := p], l.down[p := v])
  }

  lemma LinkLists(l: Links, n: Node, p: Node, v: seq<Node>)
    requires v == Get(l.down, p) + [n]
    ensures Link(l, n, p, -1) == Listed(l, n, p, v)
  {
    assert InsertAt(Get(l.down, p), |Get(l.down, p)|, n) == v;
  }

  /** A state after one more load. */
  function Loading(s: State, owner: Node, p: Node, n: Node, owned: seq<Node>, contents: seq<Node>): State {
    s.(info := s.info[n := Data(n)], attached := s.attached + {n}, lookupTable := s.lookupTable[Data(n).name := n],
       ownership := Listed(s.ownership, n, owner, owned), tree := Listed(s.tree, n, p, contents),
       loadables := if Data(n).kind.Loadable? then s.loadables + [n] else s.loadables)
  }

  lemma AddLoads(s: State, owner: Node, p: Node, n: Node, owned: seq<Node>, contents: seq<Node>)
    requires owned == Get(s.ownership.down, owner) + [n] && contents == Get(s.tree.down, p) + [n]
    ensures AddNode(s, owner, p, n, Data(n)) == Loading(s, owner, p, n, owned, contents)
  {
    LinkLists(s.ownership, n, owner, owned);
    LinkLists(s.tree, n, p, contents);
  }

  // The states after each step

  function Zero(): State {
    Initial(TOP, ORPHANS, "top")
  }

  function One(): State {
    Loading(Zero(), P, TOP, P, [P], [ORPHANS, P])
  }

  function Two(): State {
    Loading(One(), P, P, X, [P, X], [X])
  }

  function Three(): State {
    Loading(Two(), F, TOP, F, [F], [ORPHANS, P, F])
  }

  function Four(): State {
    Three().(binding := Links(map[F := X], map[X := [F]]))
  }

  function Five(): State {
    Loading(Four(), L, TOP, L, [L], [ORPHANS, P, F, L])
  }

  ghost predicate Leads(s: State, step: Step, t: State) {
    Enabled(s, step) && t == Next(s, step)
  }

  lemma LoadPackage(s: State, n: Node, contents: seq<Node>)
    requires s.top == TOP && n !in s.info && Data(n).kind.Loadable? && Data(n).name !in s.lookupTable
    requires Get(s.ownership.down, n) == [] && contents == Get(s.tree.down, TOP) + [n]
    ensures Leads(s, Load(n, TOP, n), Loading(s, n, TOP, n, [n], contents))
  {
    AddLoads(s, n, TOP, n, [n], contents);
  }

  lemma LoadP()
    ensures Leads(Zero(), Load(P, TOP, P), One())
  {
    LoadPackage(Zero(), P, [ORPHANS, P]);
  }

  lemma LoadX()
    ensures Leads(One(), Load(P, P, X), Two())
  {
    AddLoads(One(), P, P, X, [P, X], [X]);
  }

  lemma LoadF()
    ensures Leads(Two(), Load(F, TOP, F), Three())
  {
    LoadPackage(Two(), F, [ORPHANS, P, F]);
  }

  lemma BindF()
    ensures Leads(Three(), UpdateLoaded(F), Four())
  {
    assert Lookup(Three(), F) == At(X) && !Three().IsContainer(X);
    LinkLists(Three().binding, F, X, [F]);
  }

  lemma LoadL()
    ensures Leads(Four(), Load(L, TOP, L), Five())
  {
    LoadPackage(Four(), L, [ORPHANS, P, F, L]);
  }

  lemma RunGrows(states: seq<State>, steps: seq<Step>, step: Step, t: State)
    requires IsRun(states, steps) && Leads(states[|steps|], step, t)
    ensures IsRun(states + [t], steps + [step])
  {
    var longer, more := states + [t], steps + [step];
    forall i | 0 <= i < |more| ensures Leads(longer[i], more[i], longer[i + 1]) {
      assert i < |steps| ==> Leads(states[i], steps[i], states[i + 1]);
    }
  }

  lemma FourIsReached() returns (states: seq<State>, steps: seq<Step>)
    ensures IsRun(states, steps) && |steps| == 4 && states[0] == Zero() && states[4] == Four()
  {
    states, steps := [Zero()], [];
    LoadP();
    RunGrows(states, steps, Load(P, TOP, P), One());
    states, steps := states + [One()], steps + [Load(P, TOP, P)];
    LoadX();
    RunGrows(states, steps, Load(P, P, X), Two());
    states, steps := states + [Two()], steps + [Load(P, P, X)];
    LoadF();
    RunGrows(states, steps, Load(F, TOP, F), Three());
    states, steps := states + [Three()], steps + [Load(F, TOP, F)];
    BindF();
    RunGrows(states, steps, UpdateLoaded(F), Four());
    states, steps := states + [Four()], steps + [UpdateLoaded(F)];
  }

  lemma FiveIsReached() returns (states: seq<State>, steps: seq<Step>)
    ensures IsRun(states, steps) && |steps| == 5 && states[0] == Zero() && states[5] == Five()
    ensures Valid(Five())
  {
    states, steps := FourIsReached();
    LoadL();
    RunGrows(states, steps, Load(L, TOP, L), Five());
    states, steps := states + [Five()], steps + [Load(L, TOP, L)];
    EveryRunKeepsTheTree(states, steps, |steps|);
  }

  // The two unloads

  /** What matters about the state reached. */
  ghost predicate Loads(s: State) {
    && s.top == TOP && Get(s.tree.down, TOP) == [ORPHANS, P, F, L]
    && Get(s.ownership.down, L) == [L] && Get(s.ownership.down, P) == [P, X]
    && s.binding == Links(map[F := X], map[X := [F]])
    && L in s.info && s.info[L] == Data(L) && P in s.info && s.info[P] == Data(P)
    && X in s.info && s.info[X] == Data(X) && F in s.info && s.info[F] == Data(F)
    && L in s.attached && P in s.attached
  }

  lemma FiveLoads()
    ensures Loads(Five())
  {
    var s := Five();
    assert s.tree.down[TOP] == [ORPHANS, P, F, L];
    assert s.ownership.down[L] == [L] && s.ownership.down[P] == [P, X];
  }

  /** `unbind` does nothing to a loadable that is alone, without properties and referrers. */
  lemma NothingToUnbind(s: State, l: Node)
    requires Get(s.ownership.down, l) == [l] && Get(s.binding.down, l) == [] && !s.HasProperty(l)
    ensures UnbindLoadable(s, l) == s
  {
    var v := Get(s.ownership.down, l);
    assert v[..0] == [];
    assert EvictAll(s, v[..0]) == s && EvictEach(s, []) == s;
    assert ReturnAll(s, v[..0]) == s;
  }

  lemma LastOfFour(a: Node, b: Node, c: Node, d: Node)
    requires a != d && b != d && c != d
    ensures IndexOf([a, b, c, d], d) == 3 && RemoveAt([a, b, c, d], 3) == [a, b, c]
  {
    var v := [a, b, c, d];
    assert v[1..] == [b, c, d] && v[1..][1..] == [c, d] && v[1..][1..][1..] == [d];
  }

  lemma FirstUnload(s: State) returns (t: State)
    requires Valid(s) && Loads(s)
    ensures t == Begin(s, L) && L in t.containerPosition && t.containerPosition[L] == 3
    ensures Get(t.tree.down, t.top) == [ORPHANS, P, F] && t.binding == s.binding && t.ownership == s.ownership
    ensures t.top == TOP && t.info == s.info
  {
    t := BeginKeepsValid(s, L);
    NothingToUnbind(s, L);
    RootContents(s, L);
    LastOfFour(ORPHANS, P, F, L);
  }

  lemma OrphansStay(t: State)
    requires t.top == TOP && Get(t.tree.down, TOP) == [ORPHANS, P, F] && t.binding == Links(map[F := X], map[X := [F]])
    requires Get(t.ownership.down, P) == [P, X]
    ensures |Staying(t, [P])| == 1
  {
    assert P in [P];
    forall n ensures n in Staying(t, [P]) <==> n in {ORPHANS} {
      assert n in [ORPHANS, P, F] <==> n == ORPHANS || n == P || n == F;
    }
    assert Staying(t, [P]) == {ORPHANS};
  }

  lemma OnlyPComesBack(t: State)
    requires Get(t.ownership.down, P) == [P, X]
    requires P in t.info && t.info[P] == Data(P) && X in t.info && t.info[X] == Data(X)
    ensures RootNodes(t, P) == {} && Remains(t, P)
  {
  }

  lemma NothingIsOdd(s: State)
    requires Loads(s)
    ensures Owner(s, L) && Owner(s, P) && SelfFree(s, [P]) && forall n | n in [F] :: !WaitsAtRoot(s, n)
  {
  }

  /** L remembers place 3. Unloading P evicts F, and when P has returned F is bound to its option X again, but not
      moved, because X is no container. So only two nodes are below the toplevel: L has it as its parent again, but
      stands in nobody's contents. */
  lemma LastIsLost(s: State) returns (b: State, r: State)
    requires Valid(s) && Loads(s)
    ensures b == CancelAndBind(Begin(Begin(s, L), P), P, [F]) && r == Cancel(b, L)
    ensures !Returnable(b, L) && AtRoot(r, L) && L !in Get(r.tree.down, r.top) && !Mirrored(r.tree)
  {
    var t := FirstUnload(s);
    OrphansStay(t);
    OnlyPComesBack(t);
    NothingIsOdd(s);
    t, b, r := FirstReturnsIff(s, L, P, [F]);
    assert !Lists(r.tree.up, Get(r.tree.down, r.top), r.top);
  }

  /** After five steps of a run L and then P are unloaded and the unloads cancelled in reverse order: L is lost. */
  lemma ReverseCancelCanFail() returns (states: seq<State>, steps: seq<Step>, b: State, r: State)
    ensures IsRun(states, steps) && |steps| == 5 && states[0] == Initial(TOP, ORPHANS, "top")
    ensures b == CancelAndBind(Begin(Begin(states[5], L), P), P, [F]) && r == Cancel(b, L)
    ensures !Returnable(b, L) && AtRoot(r, L) && L !in Get(r.tree.down, r.top) && !Mirrored(r.tree)
  {
    states, steps := FiveIsReached();
    FiveLoads();
    b, r := LastIsLost(Five());
  }
}
