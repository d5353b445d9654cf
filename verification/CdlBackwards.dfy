/** Several unloads in one transaction, cancelled in reverse order: exactly when every loadable finds its place. */
module CdlBackwards {
  import opened Vectors
  import opened CdlState
  import opened CdlUpdate
  import opened CdlUnbind
  import opened CdlDetach
  import opened CdlCancel
  import opened CdlReverse
  import opened CdlUnloads
  import opened CdlRebind
  import opened CdlReturn

  // What is known about a configuration in which some unloads are pending

  ghost predicate Outside(s: State, n: Node, ls: seq<Node>) {
    forall l | l in ls :: n !in Get(s.ownership.down, l)
  }

  /** `w` is `s` with exactly the loadables `ls` pending, whatever has been bound and moved in between. */
  ghost predicate Without(s: State, w: State, ls: seq<Node>) {
    && w.top == s.top && w.info == s.info && w.ownership == s.ownership
    && (forall n :: n in w.attached <==> n in s.attached && Outside(s, n, ls))
    && (forall n :: WaitsAtRoot(w, n) ==> WaitsAtRoot(s, n))
  }

  lemma BeginWaits(s: State, l: Node, n: Node)
    requires Valid(s) && Owner(s, l) && WaitsAtRoot(Begin(s, l), n)
    ensures WaitsAtRoot(s, n)
  {
    BeginAtRoot(s, l, n);
    BeginKeeps(s, l);
    var t := BeginStep(s, l);
  }

  lemma NoneWaits(s: State, l: Node, ns: seq<Node>)
    requires Valid(s) && Owner(s, l) && forall n | n in ns :: !WaitsAtRoot(s, n)
    ensures forall n | n in ns :: !WaitsAtRoot(Begin(s, l), n)
  {
    forall n | n in ns ensures !WaitsAtRoot(Begin(s, l), n) {
      if WaitsAtRoot(Begin(s, l), n) {
        BeginWaits(s, l, n);
      }
    }
  }

  lemma {:induction false} BeginAllWithout(s: State, ls: seq<Node>)
    requires Valid(s) && AllOwners(s, ls)
    ensures Without(s, BeginAll(s, ls), ls)
    decreases |ls|
  {
    if ls != [] {
      var l, rest := ls[0], ls[1..];
      var t := BeginStep(s, l);
      assert Owning(s) by { Parts(s); }
      RestLoaded(s, t, ls);
      BeginAllWithout(t, rest);
      forall n | WaitsAtRoot(BeginAll(t, rest), n) ensures WaitsAtRoot(s, n) {
        BeginWaits(s, l, n);
      }
      OneMoreOutside(s, t, l, rest, ls);
    }
  }

  lemma OneMoreOutside(s: State, t: State, l: Node, rest: seq<Node>, ls: seq<Node>)
    requires ls == [l] + rest && t.ownership == s.ownership
    ensures forall n :: Outside(s, n, ls) <==> n !in Get(s.ownership.down, l) && Outside(t, n, rest)
  {
  }

  lemma ReturnsFromOutside(s: State, w: State, u: State, l: Node, rest: seq<Node>, ls: seq<Node>)
    requires Owning(s) && AllOwners(s, ls) && ls == rest + [l] && l !in rest && Without(s, w, ls) && Back(w, u, l)
    requires forall n :: WaitsAtRoot(u, n) ==> WaitsAtRoot(w, n)
    ensures Without(s, u, rest)
  {
    forall n ensures n in u.attached <==> n in s.attached && Outside(s, n, rest) {
      assert Outside(s, n, ls) <==> n !in Get(s.ownership.down, l) && Outside(s, n, rest);
      assert l in ls;
      if n in Get(s.ownership.down, l) {
        OwnedTogether(s, l, n);
        forall k | k in rest ensures n !in Get(s.ownership.down, k) {
          OwnedBy(s, k);
        }
      }
    }
  }

  // What a loadable brings back, seen from the configuration before the unloads

  /** When its turn comes the loadable `ls[j]` remains below the toplevel: it names no parent or the root, or a node of
      its own, or a node that is no container and does not belong to a loadable that is still pending. */
  ghost predicate RemainsIn(s: State, ls: seq<Node>, j: nat)
    requires j < |ls|
  {
    var l, d := ls[j], Lookup(s, ls[j]);
    !s.HasProperty(l) || s.BelowRoot(l) ||
    (d.At? && (d.node in Get(s.ownership.down, l) || (!s.IsContainer(d.node) && Outside(s, d.node, ls[..j]))))
  }

  lemma KnownAgain(s: State, w: State, ls: seq<Node>, name: string)
    requires Named(s) && Named(w) && Without(s, w, ls)
    ensures name in w.lookupTable <==> name in s.lookupTable && Outside(s, s.lookupTable[name], ls)
    ensures name in w.lookupTable ==> w.lookupTable[name] == s.lookupTable[name]
  {
    if name in w.lookupTable {
      assert s.lookupTable[s.NameOf(w.lookupTable[name])] == w.lookupTable[name];
    }
    if name in s.lookupTable && Outside(s, s.lookupTable[name], ls) {
      assert w.lookupTable[w.NameOf(s.lookupTable[name])] == s.lookupTable[name];
    }
  }

  lemma NameOwned(s: State, l: Node, name: string)
    requires Named(s) && Owning(s) && Owner(s, l)
    ensures name in Names(s, Get(s.ownership.down, l)) <==>
            name in s.lookupTable && s.lookupTable[name] in Get(s.ownership.down, l)
  {
    if name in Names(s, Get(s.ownership.down, l)) {
      var n :| n in Get(s.ownership.down, l) && s.NameOf(n) == name;
      OwnedTogether(s, l, n);
    }
  }

  /** The destination of `l`, looked up among what is left and among its own nodes. */
  lemma FoundAgain(s: State, w: State, l: Node, ls: seq<Node>)
    requires Valid(s) && Valid(w) && Owner(s, l) && Without(s, w, ls)
    requires s.HasProperty(l) && !s.BelowRoot(l)
    ensures var d := Lookup(s, l);
            && (Lookup(w, l) == if d.At? && Outside(s, d.node, ls) then d else Nowhere)
            && (s.info[l].property.destination in Names(s, Get(s.ownership.down, l)) <==>
                  d.At? && d.node in Get(s.ownership.down, l))
  {
    assert Named(s) && Owning(s) && Named(w) by {
      Parts(s);
      Parts(w);
    }
    KnownAgain(s, w, ls, s.info[l].property.destination);
    NameOwned(s, l, s.info[l].property.destination);
  }

  lemma BringsTheSame(s: State, w: State, l: Node, rest: seq<Node>, ls: seq<Node>)
    requires Valid(s) && Valid(w) && Owner(s, l) && ls == rest + [l] && Without(s, w, ls)
    ensures RootNodes(w, l) == RootNodes(s, l)
    ensures RemainsBack(w, l) <==> RemainsIn(s, ls, |rest|)
  {
    assert ls[..|rest|] == rest;
    if s.HasProperty(l) && !s.BelowRoot(l) {
      FoundAgain(s, w, l, ls);
      assert Names(w, Get(s.ownership.down, l)) == Names(s, Get(s.ownership.down, l));
      assert Lookup(s, l).At? ==>
        (Outside(s, Lookup(s, l).node, ls) <==>
           Lookup(s, l).node !in Get(s.ownership.down, l) && Outside(s, Lookup(s, l).node, rest));
    }
  }

  // Two loadables

  lemma BeginAllTwo(s: State, k: Node, l: Node)
    ensures BeginAll(s, [k, l]) == Begin(Begin(s, k), l)
  {
    assert [k, l][1..] == [l] && [l][1..] == [];
    assert BeginAll(Begin(s, k), [l]) == BeginAll(Begin(Begin(s, k), l), []);
  }

  lemma BeginTwo(s: State, k: Node, l: Node) returns (t: State, b: State)
    requires Valid(s) && Owner(s, k) && Owner(s, l) && k != l
    ensures t == Begin(s, k) && b == Begin(t, l) && Owner(t, l) && t.info == s.info && t.ownership == s.ownership
    ensures Valid(t)
    ensures Valid(b)
    ensures Waiting(b, [k, l]) && k in t.containerPosition && b.containerPosition[k] == t.containerPosition[k]
  {
    b := BeginAllWaits(s, [k, l]);
    BeginAllTwo(s, k, l);
    t := BeginStep(s, k);
    assert Owner(t, l) by {
      Parts(s);
      StaysOwner(s, t, k, l);
    }
    var c := BeginStep(t, l);
  }

  lemma LastReturnsIff(u: State, k: Node) returns (r: State)
    requires Valid(u) && Waiting(u, [k])
    ensures r == Cancel(u, k) && k in u.containerPosition && AtRoot(r, k)
    ensures Returnable(u, k) <==> u.containerPosition[k] <= |Get(u.tree.down, u.top)|
    ensures k in Get(r.tree.down, r.top) <==> Returnable(u, k)
    ensures Valid(r) <==> Returnable(u, k)
  {
    assert k in [k];
    r := Cancel(u, k);
    ReturnableIff(u, k, [k]);
    CancelKeepsValid(u, k);
    if Returnable(u, k) {
      var r' := CancelStep(u, k);
      TopAgain(u, k);
      RootContents(r, k);
    } else {
      MisplacedIsLost(u, k);
    }
  }

  lemma OneBegun(t: State, l: Node)
    ensures BeginAll(t, [l]) == Begin(t, l)
  {
    assert [l][1..] == [];
    assert BeginAll(t, [l]) == BeginAll(Begin(t, l), []);
  }

  lemma LastUnloadedReturns(t: State, l: Node)
    requires Valid(t) && Owner(t, l)
    ensures Returnable(Begin(t, l), l)
  {
    var x := BeginKeepsValid(t, l);
    var u := UnbindIsolates(t, l);
    CancelRestores(t, l);
    CancelKeepsValid(x, l);
  }

  lemma OneUnloaded(t: State, x: State, l: Node)
    requires Valid(t) && Valid(x) && Owner(t, l) && x == Begin(t, l)
    ensures |Get(x.tree.down, x.top)| == |Staying(t, [l])|
    ensures RootNodes(x, l) == RootNodes(t, l) && (RemainsBack(x, l) <==> Remains(t, l))
  {
    OneBegun(t, l);
    assert AllOwners(t, [l]) && [] + [l] == [l] && [l][..0] == [];
    BeginAllWithout(t, [l]);
    RootAfterAll(t, [l]);
    BringsTheSame(t, x, l, [], [l]);
  }

  /** Unloading a loadable and cancelling that at once: what stands directly below the toplevel then. */
  lemma OneReturns(t: State, l: Node, unresolved: seq<Node>) returns (b: State)
    requires Valid(t) && Owner(t, l) && SelfFree(t, [l]) && forall n | n in unresolved :: !WaitsAtRoot(t, n)
    ensures b == CancelAndBind(Begin(t, l), l, unresolved) && Back(Begin(t, l), b, l)
    ensures Valid(b)
    ensures |Get(b.tree.down, b.top)| == |Staying(t, [l])| + |RootNodes(t, l)| + if Remains(t, l) then 1 else 0
  {
    var x := BeginStep(t, l);
    LastUnloadedReturns(t, l);
    NoneWaits(t, l, unresolved);
    OneUnloaded(t, x, l);
    b := ReturnCount(x, l, unresolved);
  }

  lemma SecondReturns(s: State, k: Node, l: Node, unresolved: seq<Node>) returns (t: State, b: State)
    requires Valid(s) && Owner(s, k) && Owner(s, l) && k != l && SelfFree(s, [l])
    requires forall n | n in unresolved :: !WaitsAtRoot(s, n)
    ensures t == Begin(s, k) && b == CancelAndBind(Begin(t, l), l, unresolved)
    ensures Valid(b)
    ensures Waiting(b, [k]) && k in t.containerPosition && b.containerPosition[k] == t.containerPosition[k]
    ensures |Get(b.tree.down, b.top)| == |Staying(t, [l])| + |RootNodes(t, l)| + if Remains(t, l) then 1 else 0
  {
    var x: State;
    t, x := BeginTwo(s, k, l);
    NoneWaits(s, k, unresolved);
    b := OneReturns(t, l, unresolved);
    assert [k, l][..1] == [k];
    StillWaiting(x, b, l, [k, l], [k]);
  }

  /** While the unload of `k` is pending `l` is unloaded and that is cancelled again, with its `bind`; `unresolved` are
      the nodes with conflicts. Then there is a place for `k` if and only if the one it remembers is within what stays
      below the toplevel without `l`, the nodes of `l` whose properties name the root, and `l` if it remains there.
      Attached without a place `k` is lost, and the configuration is not valid. */
  lemma FirstReturnsIff(s: State, k: Node, l: Node, unresolved: seq<Node>) returns (t: State, b: State, r: State)
    requires Valid(s) && Owner(s, k) && Owner(s, l) && k != l && SelfFree(s, [l])
    requires forall n | n in unresolved :: !WaitsAtRoot(s, n)
    ensures t == Begin(s, k) && b == CancelAndBind(Begin(t, l), l, unresolved) && r == Cancel(b, k)
    ensures k in t.containerPosition
    ensures Returnable(b, k) <==>
            t.containerPosition[k] <= |Staying(t, [l])| + |RootNodes(t, l)| + if Remains(t, l) then 1 else 0
    ensures Valid(r) <==> Returnable(b, k)
    ensures AtRoot(r, k) && (k in Get(r.tree.down, r.top) <==> Returnable(b, k))
  {
    t, b := SecondReturns(s, k, l, unresolved);
    r := LastReturnsIff(b, k);
  }

  // Any number of loadables

  /** The configuration in which the unloads from that of `ls[m]` on have been cancelled, the last one first. */
  ghost function After(t: State, ls: seq<Node>, unresolved: seq<seq<Node>>, m: nat): State
    requires m <= |ls| == |unresolved|
    decreases |ls| - m
  {
    if m == |ls| then t else CancelAndBind(After(t, ls, unresolved, m + 1), ls[m], unresolved[m])
  }

  /** Nothing was missing on the way there. */
  ghost predicate Succeeds(t: State, ls: seq<Node>, unresolved: seq<seq<Node>>, m: nat)
    requires m <= |ls| == |unresolved|
    decreases |ls| - m
  {
    m == |ls| || (Succeeds(t, ls, unresolved, m + 1) && Returnable(After(t, ls, unresolved, m + 1), ls[m]))
  }

  /** How many nodes the loadables from `ls[j]` on bring back below the toplevel. */
  ghost function Returning(s: State, ls: seq<Node>, j: nat): nat
    decreases |ls| - j
  {
    if j >= |ls| then 0
    else |RootNodes(s, ls[j])| + (if RemainsIn(s, ls, j) then 1 else 0) + Returning(s, ls, j + 1)
  }

  /** The loadables from `ls[m]` on have returned, and there were `size` nodes below the toplevel without them. */
  ghost predicate Midway(s: State, w: State, ls: seq<Node>, m: nat, size: nat)
    requires m <= |ls|
  {
    && Without(s, w, ls[..m]) && Waiting(w, ls[..m])
    && |Get(w.tree.down, w.top)| == size + Returning(s, ls, m)
  }

  ghost predicate SamePlaces(t: State, w: State, ls: seq<Node>) {
    forall l | l in ls ::
      l in t.containerPosition && l in w.containerPosition && t.containerPosition[l] == w.containerPosition[l]
  }

  lemma RemainsInPrefix(s: State, ls: seq<Node>, l: Node, rest: seq<Node>, m: nat)
    requires 0 < m <= |ls| && rest == ls[..m - 1] && l == ls[m - 1]
    ensures ls[..m] == rest + [l]
    ensures RemainsIn(s, rest + [l], |rest|) <==> RemainsIn(s, ls, m - 1)
  {
    assert (rest + [l])[..|rest|] == rest;
  }

  lemma StillWithout(s: State, w: State, u: State, l: Node, rest: seq<Node>, ls: seq<Node>, unresolved: seq<Node>)
    requires Valid(s) && Valid(w) && AllOwners(s, ls) && SelfFree(w, [l]) && Returnable(w, l)
    requires ls == rest + [l] && Without(s, w, ls) && Back(w, u, l) && u == CancelAndBind(w, l, unresolved)
    requires forall n | n in unresolved :: !WaitsAtRoot(s, n)
    ensures Without(s, u, rest)
  {
    forall n | WaitsAtRoot(u, n) ensures WaitsAtRoot(w, n) {
      ReturnWaits(w, l, unresolved, n);
    }
    assert Owning(s) by { Parts(s); }
    assert l !in rest by { assert ls[|rest|] == l && forall i | 0 <= i < |rest| :: ls[i] == rest[i]; }
    ReturnsFromOutside(s, w, u, l, rest, ls);
  }

  lemma BackwardsCount(s: State, w: State, ls: seq<Node>, m: nat, size: nat, l: Node, rest: seq<Node>,
                       unresolved: seq<Node>) returns (u: State)
    requires Valid(s) && Valid(w) && Owner(s, l) && SelfFree(w, [l]) && Returnable(w, l)
    requires 0 < m <= |ls| && rest == ls[..m - 1] && l == ls[m - 1] && Without(s, w, rest + [l])
    requires |Get(w.tree.down, w.top)| == size + Returning(s, ls, m)
    requires forall n | n in unresolved :: !WaitsAtRoot(s, n)
    ensures u == CancelAndBind(w, l, unresolved) && Back(w, u, l)
    ensures Valid(u)
    ensures |Get(u.tree.down, u.top)| == size + Returning(s, ls, m - 1)
  {
    u := ReturnCount(w, l, unresolved);
    BringsTheSame(s, w, l, rest, rest + [l]);
    RemainsInPrefix(s, ls, l, rest, m);
  }

  lemma PlacesStay(s: State, t: State, w: State, u: State, ls: seq<Node>, l: Node, rest: seq<Node>)
    requires AllOwners(s, ls) && rest + [l] <= ls && SamePlaces(t, w, rest) && Back(w, u, l)
    ensures SamePlaces(t, u, rest)
  {
    assert ls[|rest|] == (rest + [l])[|rest|] == l;
    forall i | 0 <= i < |rest| ensures rest[i] != l {
      assert ls[i] == (rest + [l])[i] == rest[i];
    }
  }

  lemma SelfFreeNow(s: State, w: State, ls: seq<Node>, l: Node)
    requires SelfFree(s, ls) && l in ls && w.info == s.info && w.ownership == s.ownership
    ensures SelfFree(w, [l])
  {
  }

  lemma BackwardsStep(s: State, t: State, w: State, ls: seq<Node>, m: nat, size: nat, l: Node, rest: seq<Node>,
                      unresolved: seq<Node>) returns (u: State)
    requires Valid(s) && Valid(w) && AllOwners(s, ls) && SelfFree(s, ls)
    requires 0 < m <= |ls| && rest == ls[..m - 1] && l == ls[m - 1]
    requires Midway(s, w, ls, m, size) && SamePlaces(t, w, rest) && Returnable(w, l)
    requires forall n | n in unresolved :: !WaitsAtRoot(s, n)
    ensures u == CancelAndBind(w, l, unresolved)
    ensures Valid(u)
    ensures Midway(s, u, ls, m - 1, size) && SamePlaces(t, u, rest)
  {
    assert ls[..m] == rest + [l] && l in ls;
    SelfFreeNow(s, w, ls, l);
    u := BackwardsCount(s, w, ls, m, size, l, rest, unresolved);
    PlacesStay(s, t, w, u, ls, l, rest);
    StillWaiting(w, u, l, rest + [l], rest);
    assert AllOwners(s, rest + [l]) by { FirstOwners(s, ls, rest + [l]); }
    StillWithout(s, w, u, l, rest, rest + [l], unresolved);
  }

  lemma FirstOwners(s: State, ls: seq<Node>, some: seq<Node>)
    requires AllOwners(s, ls) && some <= ls
    ensures AllOwners(s, some)
  {
    assert some == ls[..|some|];
  }

  lemma BackwardsTurn(s: State, t: State, w: State, ls: seq<Node>, m: nat, size: nat)
    requires 0 < m <= |ls| && Midway(s, w, ls, m, size) && SamePlaces(t, w, ls[..m])
    ensures ls[m - 1] in t.containerPosition
    ensures Returnable(w, ls[m - 1]) <==> t.containerPosition[ls[m - 1]] <= size + Returning(s, ls, m)
  {
    assert ls[m - 1] in ls[..m];
    ReturnableIff(w, ls[m - 1], ls[..m]);
  }

  /** What all of this needs to know about the unloads. */
  ghost predicate Unloads(s: State, t: State, ls: seq<Node>, unresolved: seq<seq<Node>>, size: nat) {
    && AllOwners(s, ls) && SelfFree(s, ls) && |unresolved| == |ls|
    && (forall us, n | us in unresolved && n in us :: !WaitsAtRoot(s, n))
    && Midway(s, t, ls, |ls|, size)
  }

  lemma MidwayNext(s: State, t: State, w: State, ls: seq<Node>, unresolved: seq<seq<Node>>, m: nat, size: nat)
    requires Valid(s) && Valid(w) && Unloads(s, t, ls, unresolved, size) && m < |ls|
    requires w == After(t, ls, unresolved, m + 1) && Returnable(w, ls[m])
    requires Midway(s, w, ls, m + 1, size) && SamePlaces(t, w, ls[..m + 1])
    ensures Valid(After(t, ls, unresolved, m))
    ensures Midway(s, After(t, ls, unresolved, m), ls, m, size) && SamePlaces(t, After(t, ls, unresolved, m), ls[..m])
  {
    assert unresolved[m] in unresolved && ls[..m] <= ls[..m + 1];
    var u := BackwardsStep(s, t, w, ls, m + 1, size, ls[m], ls[..m], unresolved[m]);
  }

  lemma MidwayFirst(s: State, t: State, ls: seq<Node>, unresolved: seq<seq<Node>>, size: nat)
    requires Unloads(s, t, ls, unresolved, size)
    ensures Midway(s, t, ls, |ls|, size) && SamePlaces(t, t, ls[..|ls|])
  {
    assert ls[..|ls|] == ls;
  }

  lemma {:induction false} MidwayAfter(s: State, t: State, ls: seq<Node>, unresolved: seq<seq<Node>>, m: nat, size: nat)
    requires Valid(s) && Valid(t) && Unloads(s, t, ls, unresolved, size) && m <= |ls| && Succeeds(t, ls, unresolved, m)
    ensures Valid(After(t, ls, unresolved, m))
    ensures Midway(s, After(t, ls, unresolved, m), ls, m, size) && SamePlaces(t, After(t, ls, unresolved, m), ls[..m])
    decreases |ls| - m
  {
    if m < |ls| {
      MidwayAfter(s, t, ls, unresolved, m + 1, size);
      MidwayNext(s, t, After(t, ls, unresolved, m + 1), ls, unresolved, m, size);
    } else {
      MidwayFirst(s, t, ls, unresolved, size);
    }
  }

  /** The place of `ls[i]` is within what is below the toplevel when its turn comes. */
  ghost predicate PlaceFits(s: State, t: State, ls: seq<Node>, i: nat, size: nat)
    requires i < |ls|
  {
    ls[i] in t.containerPosition && t.containerPosition[ls[i]] <= size + Returning(s, ls, i + 1)
  }

  /** If nothing was missing before its turn, `ls[i]` finds its place if and only if that fits. */
  ghost predicate Turn(s: State, t: State, ls: seq<Node>, unresolved: seq<seq<Node>>, i: nat, size: nat)
    requires i < |ls| == |unresolved|
  {
    Succeeds(t, ls, unresolved, i + 1) ==>
      (Returnable(After(t, ls, unresolved, i + 1), ls[i]) <==> PlaceFits(s, t, ls, i, size))
  }

  lemma TurnIff(s: State, t: State, ls: seq<Node>, unresolved: seq<seq<Node>>, i: nat, size: nat)
    requires Valid(s) && Valid(t) && Unloads(s, t, ls, unresolved, size) && i < |ls|
    ensures Turn(s, t, ls, unresolved, i, size)
  {
    if Succeeds(t, ls, unresolved, i + 1) {
      MidwayAfter(s, t, ls, unresolved, i + 1, size);
      BackwardsTurn(s, t, After(t, ls, unresolved, i + 1), ls, i + 1, size);
    }
  }

  lemma {:induction false} SucceedsIff(s: State, t: State, ls: seq<Node>, unresolved: seq<seq<Node>>, m: nat, size: nat)
    requires m <= |ls| == |unresolved| && forall i | 0 <= i < |ls| :: Turn(s, t, ls, unresolved, i, size)
    ensures Succeeds(t, ls, unresolved, m) <==> forall i | m <= i < |ls| :: PlaceFits(s, t, ls, i, size)
    decreases |ls| - m
  {
    if m < |ls| {
      SucceedsIff(s, t, ls, unresolved, m + 1, size);
      assert Turn(s, t, ls, unresolved, m, size);
    }
  }

  lemma UnloadsAll(s: State, ls: seq<Node>, unresolved: seq<seq<Node>>) returns (t: State)
    requires Valid(s) && AllOwners(s, ls) && SelfFree(s, ls) && |unresolved| == |ls|
    requires forall us, n | us in unresolved && n in us :: !WaitsAtRoot(s, n)
    ensures t == BeginAll(s, ls)
    ensures Valid(t)
    ensures Unloads(s, t, ls, unresolved, |Staying(s, ls)|)
  {
    t := BeginAllWaits(s, ls);
    RootAfterAll(s, ls);
    BeginAllWithout(s, ls);
    assert ls[..|ls|] == ls;
  }

  /** Several loadables are unloaded one after the other, and the unloads cancelled in reverse order, each with its
      `bind`. That succeeds if and only if the remembered place of each loadable is within what stays below the
      toplevel without all of them and what those behind it have brought back. */
  lemma ReverseCancelIff(s: State, ls: seq<Node>, unresolved: seq<seq<Node>>) returns (t: State)
    requires Valid(s) && AllOwners(s, ls) && SelfFree(s, ls) && |unresolved| == |ls|
    requires forall us, n | us in unresolved && n in us :: !WaitsAtRoot(s, n)
    ensures t == BeginAll(s, ls)
    ensures forall l | l in ls :: l in t.containerPosition
    ensures Succeeds(t, ls, unresolved, 0) <==>
            forall i | 0 <= i < |ls| :: t.containerPosition[ls[i]] <= |Staying(s, ls)| + Returning(s, ls, i + 1)
    ensures Succeeds(t, ls, unresolved, 0) ==> Valid(After(t, ls, unresolved, 0))
  {
    t := UnloadsAll(s, ls, unresolved);
    assert ls[..|ls|] == ls;
    forall i | 0 <= i < |ls| ensures Turn(s, t, ls, unresolved, i, |Staying(s, ls)|) {
      TurnIff(s, t, ls, unresolved, i, |Staying(s, ls)|);
    }
    SucceedsIff(s, t, ls, unresolved, 0, |Staying(s, ls)|);
    if Succeeds(t, ls, unresolved, 0) {
      MidwayAfter(s, t, ls, unresolved, 0, |Staying(s, ls)|);
    }
    assert forall i | 0 <= i < |ls| :: PlaceFits(s, t, ls, i, |Staying(s, ls)|) <==>
      t.containerPosition[ls[i]] <= |Staying(s, ls)| + Returning(s, ls, i + 1);
  }
}
