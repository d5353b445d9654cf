/** Deleting a loadable whose unload is committed: every container is empty when its turn comes. */
module CdlTearDown {
  import opened Vectors
  import opened CdlState
  import opened CdlUpdate

  /** `remove_node` followed by `delete`. */
  function DeleteNode(s: State, n: Node): State {
    s.(tree := Unlink(s.tree, n), ownership := Unlink(s.ownership, n), info := s.info - {n},
       containerPosition := s.containerPosition - {n}, loadablesPosition := s.loadablesPosition - {n})
  }

  /** The destructor of a loadable with the owned vector `ns`, from the back. */
  function DeleteAll(s: State, ns: seq<Node>): State
    decreases |ns|
  {
    if ns == [] then s else DeleteAll(DeleteNode(s, ns[|ns| - 1]), ns[..|ns| - 1])
  }

  /** No node has contents when it is deleted, and the owned vector shrinks in step. */
  ghost predicate SafeToDelete(s: State, l: Node, ns: seq<Node>)
    decreases |ns|
  {
    Get(s.ownership.down, l) == ns &&
    (ns != [] ==>
       Get(s.tree.down, ns[|ns| - 1]) == [] && SafeToDelete(DeleteNode(s, ns[|ns| - 1]), l, ns[..|ns| - 1]))
  }

  /** The first `k` nodes of `v` remain; each but the first hangs below an earlier one. */
  ghost predicate RemainingUp(up: map<Node, Node>, v: seq<Node>, k: nat) {
    && Distinct(v) && k <= |v| && (v != [] ==> v[0] !in up)
    && (forall n | n in up && up[n] in v :: n in v[..k])
    && (forall i | 0 < i < k :: v[i] in up && up[v[i]] in v[..i])
  }

  ghost predicate Remaining(tree: Links, v: seq<Node>, k: nat) {
    Mirrored(tree) && RemainingUp(tree.up, v, k)
  }

  lemma LastIsEmpty(tree: Links, v: seq<Node>, k: nat)
    requires Remaining(tree, v, k) && k > 0
    ensures Get(tree.down, v[k - 1]) == []
  {
    var c := Get(tree.down, v[k - 1]);
    assert Lists(tree.up, c, v[k - 1]);
    forall m: Node ensures m !in c {
      if m in v[..k] {
        var i :| 0 <= i < k && v[i] == m;
        assert v[k - 1] !in v[..i];
      }
    }
    SomeMember(c);
  }

  lemma UnlinkMirror(l: Links, n: Node)
    requires Mirrored(l)
    ensures Mirrored(Unlink(l, n)) && Unlink(l, n).up == l.up - {n}
  {
    if n in l.up {
      UnlinkKeepsMirror(l, n);
    } else {
      assert l.up - {n} == l.up;
    }
  }

  lemma StillBefore(v: seq<Node>, k: nat, m: Node)
    requires 0 < k <= |v| && m in v[..k] && m != v[k - 1]
    ensures m in v[..k - 1]
  {
    var i :| 0 <= i < k && v[..k][i] == m;
    assert v[..k - 1][i] == m;
  }

  lemma DeleteLastUp(up: map<Node, Node>, v: seq<Node>, k: nat)
    requires RemainingUp(up, v, k) && k > 0
    ensures RemainingUp(up - {v[k - 1]}, v, k - 1)
  {
    var n := v[k - 1];
    var less := up - {n};
    forall m | m in less && less[m] in v ensures m in v[..k - 1] {
      assert up[m] in v;
      StillBefore(v, k, m);
    }
    forall i | 0 < i < k - 1 ensures v[i] in less && less[v[i]] in v[..i] {
      assert v[i] != n;
    }
  }

  lemma DeleteLast(tree: Links, v: seq<Node>, k: nat)
    requires Remaining(tree, v, k) && k > 0
    ensures Remaining(Unlink(tree, v[k - 1]), v, k - 1)
  {
    UnlinkMirror(tree, v[k - 1]);
    DeleteLastUp(tree.up, v, k);
  }

  lemma OwnedShrinks(ownership: Links, l: Node, v: seq<Node>, k: nat)
    requires Mirrored(ownership) && Distinct(v) && 0 < k <= |v| && Get(ownership.down, l) == v[..k]
    ensures Mirrored(Unlink(ownership, v[k - 1])) && Get(Unlink(ownership, v[k - 1]).down, l) == v[..k - 1]
  {
    assert v[k - 1] == v[..k][k - 1];
    assert Lists(ownership.up, v[..k], l);
    assert IndexOf(v[..k], v[k - 1]) == k - 1;
    UnlinkKeepsMirror(ownership, v[k - 1]);
  }

  lemma {:induction false} RemainingIsSafe(s: State, l: Node, v: seq<Node>, k: nat)
    requires Remaining(s.tree, v, k) && Mirrored(s.ownership) && Get(s.ownership.down, l) == v[..k]
    ensures SafeToDelete(s, l, v[..k])
    decreases k
  {
    if k > 0 {
      var n := v[k - 1];
      LastIsEmpty(s.tree, v, k);
      DeleteLast(s.tree, v, k);
      OwnedShrinks(s.ownership, l, v, k);
      RemainingIsSafe(DeleteNode(s, n), l, v, k - 1);
      assert v[..k][..k - 1] == v[..k - 1] && v[..k][k - 1] == n;
    }
  }

  // A pending loadable can be deleted at any time

  lemma OnlyOwnBelow(s: State, l: Node, n: Node)
    requires Hierarchy(s) && Owning(s) && Pending(s) && Rooted(s) && l !in s.attached
    requires n in s.tree.up && s.tree.up[n] in Get(s.ownership.down, l)
    ensures n in Get(s.ownership.down, l)
  {
    OwnedTogether(s, l, s.tree.up[n]);
    OwnedBy(s, l);
    assert n !in s.attached;
    DetachedParent(s, n);
  }

  lemma BelowEarlier(s: State, l: Node, v: seq<Node>, i: nat)
    requires Parked(s, l) && v == Get(s.ownership.down, l) && Distinct(v) && 0 < i < |v|
    ensures v[i] in s.tree.up && s.tree.up[v[i]] in v[..i]
  {
    assert v[i] in v && v[i] != v[0];
    assert InPlace(s, l, v[i]);
    var a, b :| 0 <= a < b < |v| && v[a] == s.tree.up[v[i]] && v[b] == v[i];
    assert v[..i][a] == v[a];
  }

  lemma ParkedUp(s: State, l: Node, v: seq<Node>)
    requires Rooted(s) && Hierarchy(s) && Owning(s) && Pending(s) && Parked(s, l) && v == Get(s.ownership.down, l)
    requires Distinct(v)
    ensures forall n | n in s.tree.up && s.tree.up[n] in v :: n in v
    ensures forall i | 0 < i < |v| :: v[i] in s.tree.up && s.tree.up[v[i]] in v[..i]
  {
    forall n | n in s.tree.up && s.tree.up[n] in v ensures n in v {
      OnlyOwnBelow(s, l, n);
    }
    forall i | 0 < i < |v| ensures v[i] in s.tree.up && s.tree.up[v[i]] in v[..i] {
      BelowEarlier(s, l, v, i);
    }
  }

  lemma ParkedRemains(s: State, l: Node, v: seq<Node>)
    requires Valid(s) && l in s.containerPosition && v == Get(s.ownership.down, l)
    ensures Remaining(s.tree, v, |v|) && Mirrored(s.ownership)
  {
    assert Mirrored(s.tree) && Mirrored(s.ownership) && Parked(s, l) by { Parts(s); }
    OwnedBy(s, l);
    assert (forall n | n in s.tree.up && s.tree.up[n] in v :: n in v) &&
           (forall i | 0 < i < |v| :: v[i] in s.tree.up && s.tree.up[v[i]] in v[..i]) by {
      Parts(s);
      ParkedUp(s, l, v);
    }
    assert v[..|v|] == v;
  }

  /** Whatever happened since it was detached, a pending loadable can be deleted from the back without
      ever deleting a node that still has contents; it ends up owning only itself. */
  lemma TearDownIsSafe(s: State, l: Node)
    requires Valid(s) && l in s.containerPosition
    ensures SafeToDelete(s, l, Get(s.ownership.down, l))
  {
    var v := Get(s.ownership.down, l);
    ParkedRemains(s, l, v);
    assert v[..|v|] == v;
    RemainingIsSafe(s, l, v, |v|);
  }
}
