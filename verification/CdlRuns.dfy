/** Every run of loads, bindings, parent updates and the two stages of any number of unloads keeps the
    configuration valid. */
module CdlRuns {
  import opened Vectors
  import opened CdlState
  import opened CdlUpdate
  import opened CdlLoad
  import opened CdlBind
  import opened CdlDetach
  import opened CdlTearDown
  import opened CdlSurvivors
  import opened CdlCancel
  import opened Forest

  datatype Step =
    | Add(owner: Node, p: Node, n: Node, data: Info)
    | BindLoadable(l: Node, unresolved: seq<Node>)
    | UpdateLoaded(n: Node)
    | UpdateCreated(n: Node, d: Node)
    | UpdateDestroyed(n: Node)
    | BeginUnload(l: Node)
    | CommitUnload(l: Node)
    | CancelUnload(l: Node)

  ghost predicate Enabled(s: State, step: Step) {
    match step
    case Add(owner, p, n, data) => Addable(s, owner, p, n, data)
    case BindLoadable(l, _) => Bindable(s, l)
    case UpdateLoaded(n) => Unbound(s, n)
    case UpdateCreated(n, d) => Unbound(s, n) && Fits(s, n, d)
    case UpdateDestroyed(n) => n in s.binding.up
    case BeginUnload(l) => Owner(s, l)
    case CommitUnload(l) => l in s.containerPosition
    case CancelUnload(l) => Returnable(s, l)
  }

  ghost function Next(s: State, step: Step): State {
    match step
    case Add(owner, p, n, data) => AddNode(s, owner, p, n, data)
    case BindLoadable(l, unresolved) => Bind(s, l, unresolved)
    case UpdateLoaded(n) => Loaded(s, n)
    case UpdateCreated(n, d) => Created(s, n, d)
    case UpdateDestroyed(n) => Destroyed(s, n)
    case BeginUnload(l) => Begin(s, l)
    case CommitUnload(l) => Commit(s, l)
    case CancelUnload(l) => Cancel(s, l)
  }

  lemma StepKeepsValid(s: State, step: Step)
    requires Valid(s) && Enabled(s, step)
    ensures Valid(Next(s, step))
  {
    match step
    case Add(owner, p, n, data) => AddKeepsValid(s, owner, p, n, data);
    case BindLoadable(l, unresolved) => var t := BindResolves(s, l, unresolved);
    case UpdateLoaded(n) => LoadedKeepsValid(s, n);
    case UpdateCreated(n, d) => CreatedKeepsValid(s, n, d);
    case UpdateDestroyed(n) => DestroyedKeepsValid(s, n);
    case BeginUnload(l) => var t := BeginKeepsValid(s, l);
    case CommitUnload(l) => var t := CommitKeepsValid(s, l);
    case CancelUnload(l) => CancelKeepsValid(s, l);
  }

  /** `states` is a run of enabled steps. */
  ghost predicate IsRun(states: seq<State>, steps: seq<Step>) {
    && |states| == |steps| + 1
    && forall i | 0 <= i < |steps| :: Enabled(states[i], steps[i]) && states[i + 1] == Next(states[i], steps[i])
  }

  /** What the constructor of the toplevel builds. */
  function Initial(top: Node, orphans: Node, name: string): State {
    State(top, orphans, map[top := Info(name, Toplevel, NoProperty), orphans := Info("orphans", Container, NoProperty)],
          {orphans}, Links(map[orphans := top], map[top := [orphans]]), Links(map[], map[]), Links(map[], map[]),
          map["orphans" := orphans], [], map[], map[])
  }

  lemma InitialIsValid(top: Node, orphans: Node, name: string)
    requires top != orphans
    ensures Valid(Initial(top, orphans, name))
  {
    var s := Initial(top, orphans, name);
    assert Reaches(s.tree.up, top, orphans, 1);
    forall p ensures Lists(s.tree.up, Get(s.tree.down, p), p) {
    }
    assert Hierarchy(s);
    forall a ensures Holds(s, a) {
    }
  }

  /** In every reachable state the attached nodes form a tree below the toplevel: each has a finite chain of
      parents that ends there. Every node that has a parent, attached or not, stands in the contents of that
      parent, and of nothing else, exactly once. Every loadable whose unload is pending can be deleted safely,
      whatever else has been loaded, bound, unloaded, deleted or put back since it was taken out. */
  lemma {:induction false} EveryRunKeepsTheTree(states: seq<State>, steps: seq<Step>, i: nat)
    requires IsRun(states, steps) && i < |states|
    requires states[0].top != states[0].orphans && states[0] == Initial(states[0].top, states[0].orphans, states[0].NameOf(states[0].top))
    ensures Valid(states[i])
    ensures forall n | n in states[i].attached :: Climbs(states[i].tree.up, states[i].top, n)
    ensures forall p, n :: multiset(Get(states[i].tree.down, p))[n] ==
                           if n in states[i].tree.up && states[i].tree.up[n] == p then 1 else 0
    ensures forall l | l in states[i].containerPosition :: SafeToDelete(states[i], l, Get(states[i].ownership.down, l))
  {
    if i == 0 {
      InitialIsValid(states[0].top, states[0].orphans, states[0].NameOf(states[0].top));
    } else {
      EveryRunKeepsTheTree(states, steps, i - 1);
      StepKeepsValid(states[i - 1], steps[i - 1]);
    }
    ValidMeansTree(states[i]);
  }

  lemma ValidMeansTree(s: State)
    requires Valid(s)
    ensures forall n | n in s.attached :: Climbs(s.tree.up, s.top, n)
    ensures forall p, n :: multiset(Get(s.tree.down, p))[n] == if n in s.tree.up && s.tree.up[n] == p then 1 else 0
    ensures forall l | l in s.containerPosition :: SafeToDelete(s, l, Get(s.ownership.down, l))
  {
    assert Hierarchy(s) by { Parts(s); }
    forall p, n ensures multiset(Get(s.tree.down, p))[n] == if n in s.tree.up && s.tree.up[n] == p then 1 else 0 {
      assert Lists(s.tree.up, Get(s.tree.down, p), p);
      OccursOnce(Get(s.tree.down, p), n);
    }
    forall l | l in s.containerPosition ensures SafeToDelete(s, l, Get(s.ownership.down, l)) {
      TearDownIsSafe(s, l);
    }
  }

  lemma {:induction false} OccursOnce(v: seq<Node>, n: Node)
    requires Distinct(v)
    ensures multiset(v)[n] == if n in v then 1 else 0
    decreases |v|
  {
    if v != [] {
      OccursOnce(v[1..], n);
      assert v == [v[0]] + v[1..];
    }
  }
}
