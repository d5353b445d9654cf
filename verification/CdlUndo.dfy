/** Detaching nodes from the toplevel can be undone exactly, and only in reverse order. */
module CdlUndo {
  import opened Vectors
  import opened CdlState

  /** `n` is registered with the toplevel; a loadable also sits directly below it. */
  ghost predicate Removable(s: State, n: Node) {
    && n in s.info && n in s.attached && s.NameOf(n) in s.lookupTable && s.lookupTable[s.NameOf(n)] == n
    && (s.IsLoadable(n) ==> BelowToplevel(s, n))
  }

  ghost predicate BelowToplevel(s: State, n: Node) {
    && n in s.tree.up && s.tree.up[n] == s.top && s.top in s.tree.down && n in s.tree.down[s.top] && n in s.loadables
    && n !in s.containerPosition && n !in s.loadablesPosition
  }

  lemma InsertedAgain(s: seq<Node>, i: nat)
    requires i < |s|
    ensures InsertAt(RemoveAt(s, i), i, s[i]) == s
  {
  }

  lemma PutBack<V>(m: map<Node, V>, n: Node, v: V)
    requires n in m
    ensures m[n := v][n := m[n]] == m && (m - {n})[n := m[n]] == m
  {
  }

  lemma TakeOut<V>(m: map<Node, V>, n: Node, v: V)
    requires n !in m
    ensures m[n := v] - {n} == m
  {
  }

  lemma AttachUndoesDetach(s: State, n: Node, i: nat, j: nat)
    requires s.top in s.tree.down && i < |s.tree.down[s.top]| && s.tree.down[s.top][i] == n
    requires j < |s.loadables| && s.loadables[j] == n
    requires n in s.tree.up && s.tree.up[n] == s.top && n !in s.containerPosition && n !in s.loadablesPosition
    ensures AttachAt(DetachAt(s, n, i, j), n, i, j) == s
  {
    InsertedAgain(s.tree.down[s.top], i);
    InsertedAgain(s.loadables, j);
    PutBack(s.tree.down, s.top, RemoveAt(s.tree.down[s.top], i));
    PutBack(s.tree.up, n, s.top);
    TakeOut(s.containerPosition, n, i);
    TakeOut(s.loadablesPosition, n, j);
  }

  lemma RegisterUndoesUnregister(s: State, n: Node)
    requires n in s.attached && s.NameOf(n) in s.lookupTable && s.lookupTable[s.NameOf(n)] == n
    ensures Register(Unregister(s, n), n) == s
  {
    assert s.attached - {n} + {n} == s.attached;
    assert (s.lookupTable - {s.NameOf(n)})[s.NameOf(n) := n] == s.lookupTable;
  }

  lemma RegisterCommutes(s: State, n: Node, i: nat, j: nat)
    ensures Register(DetachAt(s, n, i, j), n) == DetachAt(Register(s, n), n, i, j)
  {
  }

  /** Detaching one node is undone exactly. */
  lemma NodeUndo(s: State, n: Node)
    requires Removable(s, n)
    ensures AddNodeToToplevel(RemoveNodeFromToplevel(s, n), n) == s
  {
    RegisterUndoesUnregister(s, n);
    if s.IsLoadable(n) {
      var i, j := IndexOf(s.tree.down[s.top], n), IndexOf(s.loadables, n);
      RegisterCommutes(Unregister(s, n), n, i, j);
      AttachUndoesDetach(s, n, i, j);
    }
  }

  lemma RemoveAtKeeps(s: seq<Node>, x: Node, y: Node)
    requires x in s && y != x
    ensures x in RemoveAt(s, IndexOf(s, y))
  {
    var i :| 0 <= i < |s| && s[i] == x;
    var j := IndexOf(s, y);
    var r := RemoveAt(s, j);
    if j < |s| {
      if i < j {
        assert r[i] == x;
      } else {
        assert i != j && r[i - 1] == x;
      }
    }
  }

  lemma StaysRemovable(s: State, n: Node, m: Node)
    requires Removable(s, n) && Removable(s, m) && n != m
    ensures Removable(RemoveNodeFromToplevel(s, n), m)
  {
    if s.IsLoadable(n) && s.IsLoadable(m) {
      RemoveAtKeeps(s.tree.down[s.top], m, n);
      RemoveAtKeeps(s.loadables, m, n);
    }
  }

  /** Detaching registered nodes in turn and attaching them again in the reverse order
      restores every field: contents and loadables order, names, parents and positions. */
  lemma {:induction false} UndoIsExact(s: State, ns: seq<Node>)
    requires forall n | n in ns :: Removable(s, n)
    requires Distinct(ns)
    ensures AddToToplevel(RemoveFromToplevel(s, ns), ns) == s
    decreases |ns|
  {
    if ns != [] {
      var n, rest := ns[|ns| - 1], ns[..|ns| - 1];
      var t := RemoveNodeFromToplevel(s, n);
      forall m | m in rest ensures Removable(t, m) {
        StaysRemovable(s, n, m);
      }
      UndoIsExact(t, rest);
      NodeUndo(s, n);
    }
  }

  lemma {:induction false} OthersStayRemovable(s: State, ns: seq<Node>, m: Node)
    requires (forall n | n in ns :: Removable(s, n)) && Distinct(ns)
    requires Removable(s, m) && m !in ns
    ensures Removable(RemoveFromToplevel(s, ns), m)
    decreases |ns|
  {
    if ns != [] {
      var n, rest := ns[|ns| - 1], ns[..|ns| - 1];
      forall k | k in rest ensures Removable(RemoveNodeFromToplevel(s, n), k) {
        StaysRemovable(s, n, k);
      }
      StaysRemovable(s, n, m);
      OthersStayRemovable(RemoveNodeFromToplevel(s, n), rest, m);
    }
  }

  /** `remove_loadable_from_toplevel` for loadables with the given owned vectors, in turn. */
  function DetachAll(s: State, vectors: seq<seq<Node>>): State
    decreases |vectors|
  {
    if vectors == [] then s else DetachAll(RemoveFromToplevel(s, vectors[0]), vectors[1..])
  }

  /** `add_loadable_to_toplevel` for the same loadables, the last one first. */
  function AttachAll(s: State, vectors: seq<seq<Node>>): State
    decreases |vectors|
  {
    if vectors == [] then s else AddToToplevel(AttachAll(s, vectors[1..]), vectors[0])
  }

  /** When nothing happens between them, several detachments are undone exactly by attaching in reverse order.
      In an unload each detachment follows an `unbind`; CdlReturn has what is left of this then. */
  lemma {:induction false} NestedUndoIsExact(s: State, vectors: seq<seq<Node>>)
    requires forall i, n | 0 <= i < |vectors| && n in vectors[i] :: Removable(s, n)
    requires forall i | 0 <= i < |vectors| :: Distinct(vectors[i])
    requires forall i, j, n | 0 <= i < j < |vectors| && n in vectors[i] :: n !in vectors[j]
    ensures AttachAll(DetachAll(s, vectors), vectors) == s
    decreases |vectors|
  {
    if vectors != [] {
      var ns, rest := vectors[0], vectors[1..];
      forall i, n | 0 <= i < |rest| && n in rest[i] ensures Removable(RemoveFromToplevel(s, ns), n) {
        assert rest[i] == vectors[i + 1];
        OthersStayRemovable(s, ns, n);
      }
      NestedUndoIsExact(RemoveFromToplevel(s, ns), rest);
      UndoIsExact(s, ns);
    }
  }

  lemma SameOrderDiffers(s: seq<Node>, i: nat, j: nat)
    requires Distinct(s) && i < |s| && j < |RemoveAt(s, i)|
    ensures var x, y, rest := s[i], RemoveAt(s, i)[j], RemoveAt(RemoveAt(s, i), j);
            InsertAt(InsertAt(rest, i, x), j, y) != s
  {
    var x, y, rest := s[i], RemoveAt(s, i)[j], RemoveAt(RemoveAt(s, i), j);
    var r := InsertAt(InsertAt(rest, i, x), j, y);
    if i <= |rest| {
      if j < i {
        assert r[i + 1] == x != s[i + 1];
      } else {
        assert r[j] == y != s[j];
      }
    }
  }

  /** The contents of the toplevel after a loadable has been detached from its place, or attached again there. */
  lemma ContentsChange(s: State, n: Node)
    requires s.IsLoadable(n) && n in Get(s.tree.down, s.top)
    ensures var v, t := Get(s.tree.down, s.top), RemoveNodeFromToplevel(s, n);
            && t.top == s.top && t.info == s.info && Get(t.tree.down, s.top) == RemoveAt(v, IndexOf(v, n))
            && n in t.containerPosition && t.containerPosition[n] == IndexOf(v, n) && n in t.loadablesPosition
            && forall k | k != n && k in s.containerPosition && k in s.loadablesPosition ::
                 k in t.containerPosition && t.containerPosition[k] == s.containerPosition[k] && k in t.loadablesPosition
  {
  }

  lemma ContentsReturn(s: State, n: Node)
    requires s.IsLoadable(n) && n in s.containerPosition && n in s.loadablesPosition
    ensures var t := AddNodeToToplevel(s, n);
            && t.top == s.top && t.info == s.info
            && Get(t.tree.down, s.top) == InsertAt(Get(s.tree.down, s.top), s.containerPosition[n], n)
            && forall k | k != n && k in s.containerPosition && k in s.loadablesPosition ::
                 k in t.containerPosition && t.containerPosition[k] == s.containerPosition[k] && k in t.loadablesPosition
  {
  }

  /** Two loadables are detached, first `x` and then `y`. Attaching them again in the same order, and not in the
      reverse one, never restores the configuration. */
  lemma SameOrderNeverRestores(s: State, x: Node, y: Node)
    requires Removable(s, x) && Removable(s, y) && s.IsLoadable(x) && s.IsLoadable(y) && x != y
    requires Distinct(Get(s.tree.down, s.top))
    ensures var t := RemoveNodeFromToplevel(RemoveNodeFromToplevel(s, x), y);
            AddNodeToToplevel(AddNodeToToplevel(t, x), y) != s
  {
    var v := Get(s.tree.down, s.top);
    var a := RemoveNodeFromToplevel(s, x);
    var b := RemoveNodeFromToplevel(a, y);
    ContentsChange(s, x);
    RemoveAtKeeps(v, y, x);
    ContentsChange(a, y);
    ContentsReturn(b, x);
    ContentsReturn(AddNodeToToplevel(b, x), y);
    SameOrderDiffers(v, IndexOf(v, x), IndexOf(RemoveAt(v, IndexOf(v, x)), y));
  }
}
