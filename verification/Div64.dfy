/** Division of 64-bit by 32-bit numbers by shifting and subtracting. The number types make
    every product, sum and shift an obligation to stay inside its width. */
module Div64 {

  const TWO_32 := 0x1_0000_0000
  const TWO_64 := 0x1_0000_0000_0000_0000

  newtype u32 = x: int | 0 <= x < TWO_32
  newtype u64 = x: int | 0 <= x < TWO_64

  /** `d` is a power of two. */
  ghost predicate Power(d: int)
    decreases d
  {
    d == 1 || (d > 1 && d % 2 == 0 && Power(d / 2))
  }

  lemma Double(base: int, d: int)
    requires Power(d)
    ensures Power(2 * d) && base * (2 * d) == 2 * (base * d)
  {
    assert 2 * d / 2 == d;
  }

  lemma Halve(base: int, d: int)
    requires Power(d) && d > 1
    ensures base * d == 2 * (base * (d / 2))
  {
  }

  /** Taking `base * d` from the remainder puts `d` on the quotient. */
  lemma Subtract(n: int, res: int, base: int, rem: int, d: int)
    requires base > 0 && res >= 0 && rem >= base * d && d >= 0 && n == res * base + rem
    ensures n == (res + d) * base + (rem - base * d) && res + d <= n
  {
    assert (res + d) * base == res * base + base * d;
    Scale(1, base, res + d);
  }

  /** Taking the high word's quotient first. */
  lemma Reduce(n: int, base: int, high: int)
    requires base > 0 && n >= 0 && high == n / TWO_32
    ensures var h := high / base;
            && 0 <= h * base <= high && h <= high
            && n == h * TWO_32 * base + (n - h * base * TWO_32) && n - h * base * TWO_32 >= 0
  {
    var h, k := high / base, high / base * base;
    Quotient(high, base);
    Commute(h, TWO_32, base);
    assert k * TWO_32 <= high * TWO_32 <= n;
  }

  lemma Quotient(x: int, base: int)
    requires base > 0 && x >= 0
    ensures 0 <= x / base <= x / base * base <= x
  {
    var h := x / base;
    assert x == h * base + x % base;
    Scale(1, base, h);
  }

  lemma Commute(a: int, b: int, c: int)
    ensures a * b * c == a * c * b
  {
  }

  lemma Scale(a: int, b: int, c: int)
    requires a <= b && c >= 0
    ensures a * c <= b * c
  {
  }

  lemma NotLess(base: int, q: int, r: int, q': int, r': int)
    requires 0 <= r < base && 0 <= r' < base && q * base + r == q' * base + r'
    ensures q >= q'
  {
    assert (q + 1) * base == q * base + base;
    if q + 1 <= q' {
      Scale(q + 1, q', base);
    }
  }

  /** Quotient and remainder are unique. */
  lemma Unique(base: int, q: int, r: int, q': int, r': int)
    requires 0 <= r < base && 0 <= r' < base && q * base + r == q' * base + r'
    ensures q == q' && r == r'
  {
    NotLess(base, q, r, q', r');
    NotLess(base, q', r', q, r);
  }

  /** The divisor is doubled until it reaches the remainder, or until doubling it again could overflow. */
  method Align(rem: u64, base: u64) returns (b: u64, d: u64)
    requires base > 0
    ensures 0 < b && b as int == base as int * d as int && Power(d as int)
    ensures rem as int < 2 * b as int
  {
    ghost var B := base as int;
    b, d := base, 1;
    while 0 < b < 0x8000_0000_0000_0000 && b < rem
      invariant 0 < b && b as int == B * d as int && Power(d as int) && d <= b
      decreases TWO_64 - b as int
    {
      Double(B, d as int);
      b := b + b;
      d := d + d;
    }
  }

  /** One round of the subtracting loop. */
  method Round(rem: u64, res: u64, b: u64, d: u64, ghost n: int, ghost base: int) returns (rem': u64, res': u64)
    requires d > 0 && Power(d as int) && base > 0 && b as int == base * d as int && rem as int < 2 * b as int
    requires 0 <= n < TWO_64 && n == res as int * base + rem as int
    ensures n == res' as int * base + rem' as int && rem' < b
  {
    rem', res' := rem, res;
    if rem >= b {
      Subtract(n, res as int, base, rem as int, d as int);
      rem' := rem - b;
      res' := res + d;
    }
  }

  /** Both are halved until the quotient's place is gone. */
  method SubtractAll(n: u64, base: u64, rem0: u64, res0: u64, b0: u64, d0: u64) returns (rem: u64, res: u64)
    requires base > 0 && n as int == res0 as int * base as int + rem0 as int
    requires d0 > 0 && Power(d0 as int) && b0 as int == base as int * d0 as int && rem0 as int < 2 * b0 as int
    ensures n as int == res as int * base as int + rem as int && rem < base
  {
    ghost var N, B := n as int, base as int;
    var b, d := b0, d0;
    rem, res := rem0, res0;
    var more := true;
    while more
      invariant more <==> d > 0
      invariant N == res as int * B + rem as int
      invariant d > 0 ==> Power(d as int) && b as int == B * d as int && (rem as int) < 2 * b as int
      invariant d == 0 ==> (rem as int) < B
      decreases d
    {
      rem, res := Round(rem, res, b, d, N, B);
      if d > 1 {
        Halve(B, d as int);
      }
      b := b / 2;
      d := d / 2;
      more := d > 0;
    }
  }

  /** `__div64_32`: exact for every dividend and every positive divisor. */
  method DivideLong(n: u64, base: u32) returns (res: u64, remainder: u32)
    requires base > 0
    ensures n as int == res as int * base as int + remainder as int && remainder < base
  {
    var rem: u64 := n;
    var high: u32 := (rem / 0x1_0000_0000) as u32;
    res := 0;
    if high >= base {
      Reduce(n as int, base as int, high as int);
      high := high / base;
      res := high as u64 * 0x1_0000_0000;
      rem := rem - (high * base) as u64 * 0x1_0000_0000;
    }
    var b, d := Align(rem, base as u64);
    rem, res := SubtractAll(n, base as u64, rem, res, b, d);
    remainder := rem as u32;
  }

  /** `do_div`: quotient and remainder, whether the dividend fits 32 bits or not. */
  method DoDiv(n: u64, base: u32) returns (quotient: u64, remainder: u32)
    requires base > 0
    ensures quotient as int == n as int / base as int && remainder as int == n as int % base as int
  {
    if n / 0x1_0000_0000 == 0 {
      remainder := (n % base as u64) as u32;
      quotient := n / base as u64;
    } else {
      quotient, remainder := DivideLong(n, base);
      Unique(base as int, quotient as int, remainder as int, n as int / base as int, n as int % base as int);
    }
  }

  /** `lldiv`. */
  method Divide(dividend: u64, divisor: u32) returns (quotient: u64)
    requires divisor > 0
    ensures quotient as int == dividend as int / divisor as int
  {
    var remainder: u32;
    quotient, remainder := DoDiv(dividend, divisor);
  }

  /** The loop gives what the 32-bit fast path computes, wherever that applies. */
  method FastPathAgrees(n: u64, base: u32) returns (q: u64, r: u32)
    requires base > 0 && n < 0x1_0000_0000
    ensures q == n / base as u64 && r as u64 == n % base as u64
  {
    q, r := DivideLong(n, base);
    Unique(base as int, q as int, r as int, n as int / base as int, n as int % base as int);
  }
}
