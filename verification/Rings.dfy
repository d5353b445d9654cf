/** Places in a ring of `m` cells: the n-th item is at `n % m`. */
module Rings {
  import opened Div64

  lemma ModUnique(n: int, m: nat, q: int, r: nat)
    requires r < m && n == q * m + r
    ensures n % m == r
  {
    Unique(m, n / m, n % m, q, r);
  }

  /** Stepping back around a ring. */
  lemma StepBack(k: nat, m: nat, j: nat)
    requires m > 0 && j <= k && j < m
    ensures (k - j) % m == if j <= k % m then k % m - j else k % m - j + m
  {
    var q := k / m;
    if j <= k % m {
      ModUnique(k - j, m, q, k % m - j);
    } else {
      assert (q - 1) * m == q * m - m;
      ModUnique(k - j, m, q - 1, k % m - j + m);
    }
  }

  /** The last `m - 1` places are not where the next one is. */
  lemma PlacesDiffer(k: nat, m: nat)
    requires m > 0
    ensures forall n | 0 <= n < k && k - n < m :: n % m != k % m
  {
    forall n | 0 <= n < k && k - n < m ensures n % m != k % m {
      StepBack(k, m, k - n);
    }
  }

  lemma Successor(k: nat, m: nat)
    requires m > 0
    ensures (k + 1) % m == if k % m + 1 == m then 0 else k % m + 1
    ensures k < m ==> k % m == k
  {
    var q := k / m;
    if k % m + 1 == m {
      assert (q + 1) * m == q * m + m;
      ModUnique(k + 1, m, q + 1, 0);
    } else {
      ModUnique(k + 1, m, q, k % m + 1);
    }
    if k < m {
      ModUnique(k, m, 0, k);
    }
  }
}
