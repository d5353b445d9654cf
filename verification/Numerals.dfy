/** Numbers as digits, least significant first, in the bases that the console prints. */
module Numerals {

  type Base = b: nat | b == 8 || b == 10 || b == 16 witness 10

  function Char(d: nat): char
    requires d < 10
  {
    '0' + d as char
  }

  // Arithmetic with one of three constants

  function Times(b: Base, x: nat): nat {
    if b == 8 then 8 * x else if b == 16 then 16 * x else 10 * x
  }

  function Over(n: nat, b: Base): nat {
    if b == 8 then n / 8 else if b == 16 then n / 16 else n / 10
  }

  function Mod(n: nat, b: Base): nat {
    if b == 8 then n % 8 else if b == 16 then n % 16 else n % 10
  }

  function Value(ds: seq<nat>, b: Base): nat {
    if ds == [] then 0 else ds[0] + Times(b, Value(ds[1..], b))
  }

  /** All digits are in range and there is no superfluous leading zero. */
  ghost predicate Canonical(ds: seq<nat>, b: Base) {
    && ds != [] && (forall i | 0 <= i < |ds| :: ds[i] < b)
    && (|ds| > 1 ==> ds[|ds| - 1] != 0)
  }

  function Digits(n: nat, b: Base): seq<nat> {
    if n < b then [n] else [Mod(n, b)] + Digits(Over(n, b), b)
  }

  lemma {:induction false} DigitsAreCanonical(n: nat, b: Base)
    ensures Canonical(Digits(n, b), b) && Value(Digits(n, b), b) == n
    ensures n > 0 ==> Digits(n, b)[|Digits(n, b)| - 1] != 0
    decreases n
  {
    if n >= b {
      DigitsAreCanonical(Over(n, b), b);
      assert Digits(n, b)[1..] == Digits(Over(n, b), b);
    }
  }

  lemma {:induction false} ValuePositive(ds: seq<nat>, b: Base)
    requires ds != [] && ds[|ds| - 1] != 0
    ensures Value(ds, b) > 0
    decreases |ds|
  {
    if |ds| > 1 {
      assert ds[1..][|ds| - 2] == ds[|ds| - 1];
      ValuePositive(ds[1..], b);
    }
  }

  lemma LowDigit(d: nat, v: nat, b: Base)
    requires d < b
    ensures Mod(d + Times(b, v), b) == d && Over(d + Times(b, v), b) == v && (v > 0 ==> Times(b, v) >= b)
  {
    if b == 8 {
      assert (d + 8 * v) / 8 == v;
    } else if b == 16 {
      assert (d + 16 * v) / 16 == v;
    } else {
      assert (d + 10 * v) / 10 == v;
    }
  }

  /** Putting a digit in front of digits that stand for more than zero. */
  lemma DigitsOfSum(d: nat, v: nat, b: Base)
    requires d < b && v > 0
    ensures Digits(d + Times(b, v), b) == [d] + Digits(v, b)
  {
    LowDigit(d, v, b);
  }

  /** The canonical digits of a number are the only ones. */
  lemma {:induction false} CanonicalIsUnique(ds: seq<nat>, b: Base)
    requires Canonical(ds, b)
    ensures Digits(Value(ds, b), b) == ds
    decreases |ds|
  {
    var rest := ds[1..];
    assert ds == [ds[0]] + rest;
    if rest == [] {
      assert Value(rest, b) == 0 && Value(ds, b) == ds[0];
    } else {
      assert rest[|rest| - 1] == ds[|ds| - 1];
      assert Canonical(rest, b);
      ValuePositive(rest, b);
      CanonicalIsUnique(rest, b);
      DigitsOfSum(ds[0], Value(rest, b), b);
    }
  }

  function Pow(b: Base, k: nat): nat {
    if k == 0 then 1 else Times(b, Pow(b, k - 1))
  }

  lemma {:induction false} DigitsAtMost(n: nat, b: Base, k: nat)
    requires k > 0 && n < Pow(b, k)
    ensures |Digits(n, b)| <= k
    decreases k
  {
    if n >= b {
      if k > 1 {
        DigitsAtMost(Over(n, b), b, k - 1);
      }
    }
  }
}
