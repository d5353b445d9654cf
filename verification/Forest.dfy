/** Parent links as a partial map: `up[n]` is the parent of `n`, and a root has no entry. */
module Forest {

  /** Climbing at most `k` links from `n` arrives at `root`. */
  ghost predicate Reaches<N>(up: map<N, N>, root: N, n: N, k: nat) {
    n == root || (k > 0 && n in up && Reaches(up, root, up[n], k - 1))
  }

  ghost predicate Climbs<N>(up: map<N, N>, root: N, n: N) {
    exists k: nat :: Reaches(up, root, n, k)
  }

  /** Climbing at least one and at most `k + 1` links from `n` meets `a`. */
  ghost predicate BelowIn<N>(up: map<N, N>, n: N, a: N, k: nat) {
    n in up && (up[n] == a || (k > 0 && BelowIn(up, up[n], a, k - 1)))
  }

  /** `a` is a proper ancestor of `n`. */
  ghost predicate Below<N>(up: map<N, N>, n: N, a: N) {
    exists k: nat :: BelowIn(up, n, a, k)
  }

  /** Every one of `nodes` has a finite chain of parents that ends at `root`. Other nodes may have
      parents too: those of parts that have been taken out of the tree. */
  ghost predicate Tree<N>(up: map<N, N>, root: N, nodes: set<N>) {
    root !in up && nodes <= up.Keys && forall n | n in nodes :: Climbs(up, root, n)
  }

  lemma {:induction false} ReachesMore<N>(up: map<N, N>, root: N, n: N, k: nat, j: nat)
    requires Reaches(up, root, n, k) && k <= j
    ensures Reaches(up, root, n, j)
  {
    if n != root {
      ReachesMore(up, root, up[n], k - 1, j - 1);
    }
  }

  lemma BelowParent<N>(up: map<N, N>, n: N)
    requires n in up
    ensures Below(up, n, up[n])
  {
    assert BelowIn(up, n, up[n], 0);
  }

  lemma BelowStep<N>(up: map<N, N>, n: N, a: N)
    requires n in up
    ensures Below(up, n, a) <==> up[n] == a || Below(up, up[n], a)
  {
    if Below(up, n, a) {
      var k: nat :| BelowIn(up, n, a, k);
      if up[n] != a {
        assert BelowIn(up, up[n], a, k - 1);
      }
    }
    if up[n] == a {
      assert BelowIn(up, n, a, 0);
    } else if Below(up, up[n], a) {
      var k: nat :| BelowIn(up, up[n], a, k);
      assert BelowIn(up, n, a, k + 1);
    }
  }

  lemma {:induction false} BelowTransitiveIn<N>(up: map<N, N>, n: N, b: N, a: N, k: nat)
    requires BelowIn(up, n, b, k) && Below(up, b, a)
    ensures Below(up, n, a)
    decreases k
  {
    BelowStep(up, n, a);
    if up[n] != b {
      BelowTransitiveIn(up, up[n], b, a, k - 1);
    }
  }

  lemma BelowTransitive<N>(up: map<N, N>, n: N, b: N, a: N)
    requires Below(up, n, b) && Below(up, b, a)
    ensures Below(up, n, a)
  {
    var k: nat :| BelowIn(up, n, b, k);
    BelowTransitiveIn(up, n, b, a, k);
  }

  /** A node with a finite chain to a root is not its own ancestor. */
  lemma {:induction false} NotBelowItself<N>(up: map<N, N>, root: N, n: N, k: nat)
    requires root !in up && Reaches(up, root, n, k)
    ensures !Below(up, n, n)
    decreases k
  {
    if Below(up, n, n) {
      var q := up[n];
      BelowStep(up, n, n);
      BelowParent(up, n);
      if q != n {
        BelowTransitive(up, q, n, q);
      }
      NotBelowItself(up, root, q, k - 1);
      if q != n {
        assert false;
      }
    }
  }

  /** A chain that never meets `n` survives a change of `n`'s parent. */
  lemma {:induction false} ChainAvoids<N>(up: map<N, N>, root: N, n: N, d: N, m: N, k: nat)
    requires Reaches(up, root, m, k) && m != n && !Below(up, m, n)
    ensures Reaches(up[n := d], root, m, k)
    decreases k
  {
    if m != root {
      BelowStep(up, m, n);
      ChainAvoids(up, root, n, d, up[m], k - 1);
    }
  }

  lemma {:induction false} ChainThrough<N>(up: map<N, N>, root: N, n: N, d: N, m: N, k: nat, j: nat)
    requires Reaches(up, root, m, k) && Reaches(up[n := d], root, d, j) && n != root
    ensures Reaches(up[n := d], root, m, k + j + 1)
    decreases k
  {
    if m == n {
      ReachesMore(up[n := d], root, d, j, k + j);
    } else if m != root {
      ChainThrough(up, root, n, d, up[m], k - 1, j);
    }
  }

  /** Moving `n` below `d`, or putting it there, keeps the tree exactly when `d` is neither `n` nor below it. */
  lemma ReparentKeepsTree<N>(up: map<N, N>, root: N, nodes: set<N>, n: N, d: N)
    requires Tree(up, root, nodes) && n != root
    requires d == root || d in nodes
    ensures Tree(up[n := d], root, nodes + {n}) <==> d != n && !Below(up, d, n)
  {
    var moved := up[n := d];
    if d != n && !Below(up, d, n) {
      assert Climbs(up, root, d) by { assert Reaches(up, root, root, 0); }
      var j: nat :| Reaches(up, root, d, j);
      ChainAvoids(up, root, n, d, d, j);
      forall m | m in nodes + {n} ensures Climbs(moved, root, m) {
        if m == n {
          assert Reaches(moved, root, n, j + 1);
        } else {
          var k: nat :| Reaches(up, root, m, k);
          ChainThrough(up, root, n, d, m, k, j);
        }
      }
    } else if Tree(moved, root, nodes + {n}) {
      BelowParent(moved, n);
      if d != n {
        var k: nat :| BelowIn(up, d, n, k);
        BelowSurvives(up, n, d, d, k);
        BelowTransitive(moved, n, d, n);
      }
      var k: nat :| Reaches(moved, root, n, k);
      NotBelowItself(moved, root, n, k);
      assert false;
    }
  }

  /** The part of a chain below `n` does not use `n`'s own link. */
  lemma {:induction false} BelowSurvives<N>(up: map<N, N>, n: N, d: N, m: N, k: nat)
    requires BelowIn(up, m, n, k) && m != n
    ensures Below(up[n := d], m, n)
    decreases k
  {
    BelowStep(up[n := d], m, n);
    if up[m] != n {
      BelowSurvives(up, n, d, up[m], k - 1);
    }
  }

  /** A chain to the root meets only nodes with parents on its way. */
  lemma {:induction false} NotBelowStranger<N>(up: map<N, N>, root: N, n: N, d: N, k: nat)
    requires Reaches(up, root, d, k) && root !in up && n !in up && n != root
    ensures d != n && !Below(up, d, n)
    decreases k
  {
    if d != root {
      BelowStep(up, d, n);
      NotBelowStranger(up, root, n, up[d], k - 1);
    }
  }

  /** A node without a parent can be put anywhere in the tree. */
  lemma LeafKeepsTree<N>(up: map<N, N>, root: N, nodes: set<N>, n: N, d: N)
    requires Tree(up, root, nodes) && n != root && n !in up
    requires d == root || d in nodes
    ensures Tree(up[n := d], root, nodes + {n})
  {
    assert Climbs(up, root, d) by { assert Reaches(up, root, root, 0); }
    var k: nat :| Reaches(up, root, d, k);
    NotBelowStranger(up, root, n, d, k);
    ReparentKeepsTree(up, root, nodes, n, d);
  }

  lemma ClimbsFromParent<N>(up: map<N, N>, root: N, n: N)
    requires n in up && Climbs(up, root, up[n])
    ensures Climbs(up, root, n)
  {
    var k: nat :| Reaches(up, root, up[n], k);
    assert Reaches(up, root, n, k + 1);
  }

  /** A chain outside `gone`, which no link from outside enters, survives any change in there. */
  lemma {:induction false} ChainStaysOutside<N>(up: map<N, N>, root: N, gone: set<N>, less: map<N, N>, n: N, k: nat)
    requires Reaches(up, root, n, k) && n !in gone
    requires forall m | m in up && m !in gone :: up[m] !in gone && m in less && less[m] == up[m]
    ensures Reaches(less, root, n, k)
    decreases k
  {
    if n != root {
      ChainStaysOutside(up, root, gone, less, up[n], k - 1);
    }
  }

  /** What lies above one of `nodes` is one of the nodes or the root, if that is so for parents. */
  lemma {:induction false} AncestorsAmong<N>(up: map<N, N>, holders: set<N>, nodes: set<N>, root: N, n: N, a: N, k: nat)
    requires BelowIn(up, n, a, k) && n in nodes && root !in up
    requires holders <= nodes + {root} && forall m | m in nodes && m in up :: up[m] in holders
    ensures a in holders
    decreases k
  {
    if up[n] != a {
      AncestorsAmong(up, holders, nodes, root, up[n], a, k - 1);
    }
  }

  /** The nodes below `a`. */
  ghost function Subtree<N>(up: map<N, N>, a: N): set<N> {
    set n | n in up && Below(up, n, a)
  }

  /** The subtree of a child is a proper part of its parent's. */
  lemma SubtreeShrinks<N>(up: map<N, N>, root: N, nodes: set<N>, c: N)
    requires Tree(up, root, nodes) && c in nodes
    ensures Subtree(up, c) < Subtree(up, up[c])
  {
    BelowParent(up, c);
    forall n | n in Subtree(up, c) ensures n in Subtree(up, up[c]) {
      BelowTransitive(up, n, c, up[c]);
    }
    var k: nat :| Reaches(up, root, c, k);
    NotBelowItself(up, root, c, k);
    assert c in Subtree(up, up[c]) && c !in Subtree(up, c);
  }

  /** Below `a` means: a child of `a`, or below one. */
  lemma {:induction false} BelowViaChild<N>(up: map<N, N>, n: N, a: N, k: nat) returns (c: N)
    requires BelowIn(up, n, a, k)
    ensures c in up && up[c] == a && (c == n || Below(up, n, c))
    decreases k
  {
    if up[n] == a {
      c := n;
    } else {
      c := BelowViaChild(up, up[n], a, k - 1);
      BelowStep(up, n, c);
    }
  }
}
