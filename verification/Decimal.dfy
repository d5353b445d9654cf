/** Decimal conversion by reciprocal multiplication, five digits at a time. */
module Decimal {
  import opened Numerals
  import opened Div64

  ghost predicate AllDecimal(ds: seq<nat>) {
    forall i | 0 <= i < |ds| :: ds[i] < 10
  }

  /** Digits as characters, in the same order. */
  function Chars(ds: seq<nat>): seq<char>
    requires AllDecimal(ds)
  {
    seq(|ds|, i requires 0 <= i < |ds| => Char(ds[i]))
  }

  // The approximate divisions by 10, exact as far as they are used

  lemma By205(x: nat)
    requires x <= 1028
    ensures x * 0xcd / 2048 == x / 10
  {
  }

  lemma By13(x: nat)
    requires x <= 68
    ensures x * 0xd / 128 == x / 10
  {
  }

  /** One more and they are wrong. */
  lemma BoundsAreTight()
    ensures 1029 * 0xcd / 2048 != 1029 / 10 && 69 * 0xd / 128 != 69 / 10
  {
  }

  lemma DivideTwice(q: nat)
    ensures q / 16 / 16 == q / 256
  {
    var a := q / 16;
    var b := a / 16;
    assert q == 256 * b + (16 * (a - 16 * b) + (q - 16 * a));
  }

  lemma DivideThrice(q: nat)
    ensures q / 256 / 16 == q / 4096
  {
    var a := q / 256;
    var b := a / 16;
    assert q == 4096 * b + (256 * (a - 16 * b) + (q - 256 * a));
  }

  lemma HexParts(q: nat)
    ensures q == q % 16 + 16 * (q / 16 % 16) + 256 * (q / 256 % 16) + 4096 * (q / 4096)
  {
    DivideTwice(q);
    DivideThrice(q);
    var a, b, c := q / 16, q / 256, q / 4096;
    assert q == q % 16 + 16 * a;
    assert a == a % 16 + 16 * b;
    assert b == b % 16 + 16 * c;
  }

  /** A digit position `e` with a carry, when the higher positions make `10 * rest`. */
  lemma Carry(n: nat, e: nat, rest: nat)
    requires n == e + 10 * rest
    ensures n / 10 == e / 10 + rest && n % 10 == e % 10
  {
  }

  /** The weighted hexadecimal digits of `q` make up its units and its tens. */
  lemma Weights(q: nat, d3: nat, d2: nat, d1: nat, e0: nat)
    requires q <= 99999 && d1 == q / 16 % 16 && d2 == q / 256 % 16 && d3 == q / 4096
    requires e0 == 6 * (d3 + d2 + d1) + q % 16
    ensures d3 <= 24 && d2 <= 15 && d1 <= 15 && e0 <= 339
    ensures q == e0 + 10 * (409 * d3 + 25 * d2 + d1)
  {
    HexParts(q);
  }

  /** The hexadecimal digits of `q`, weighted, give its decimal digits one carry at a time. */
  lemma Carries(q: nat, d3: nat, d2: nat, d1: nat, e0: nat, e1: nat, e2: nat, e3: nat)
    requires q <= 99999 && d1 == q / 16 % 16 && d2 == q / 256 % 16 && d3 == q / 4096
    requires e0 == 6 * (d3 + d2 + d1) + q % 16
    requires e1 == e0 / 10 + 9 * d3 + 5 * d2 + d1 && e2 == e1 / 10 + 2 * d2 && e3 == e2 / 10 + 4 * d3
    ensures e0 <= 1028 && e1 <= 1028 && e2 <= 68
    ensures q % 10 == e0 % 10
    ensures q / 10 % 10 == e1 % 10 && (q / 10 == 0 <==> e1 == 0)
    ensures q / 10 / 10 % 10 == e2 % 10 && (q / 10 / 10 == 0 <==> e2 == 0 && d3 == 0)
    ensures q / 10 / 10 / 10 == e3 <= 99
  {
    Weights(q, d3, d2, d1, e0);
    CarryTwice(q, e0, e1, e2, e3, d3, d2, d1);
  }

  lemma CarryTwice(q: nat, e0: nat, e1: nat, e2: nat, e3: nat, d3: nat, d2: nat, d1: nat)
    requires q <= 99999 && d3 <= 24 && d2 <= 15 && d1 <= 15 && e0 <= 339 && q == e0 + 10 * (409 * d3 + 25 * d2 + d1)
    requires e1 == e0 / 10 + 9 * d3 + 5 * d2 + d1 && e2 == e1 / 10 + 2 * d2 && e3 == e2 / 10 + 4 * d3
    ensures e1 <= 1028 && e2 <= 68
    ensures q % 10 == e0 % 10
    ensures q / 10 % 10 == e1 % 10 && (q / 10 == 0 <==> e1 == 0)
    ensures q / 10 / 10 % 10 == e2 % 10 && (q / 10 / 10 == 0 <==> e2 == 0 && d3 == 0)
    ensures q / 10 / 10 / 10 == e3 <= 99
  {
    Carry(q, e0, 409 * d3 + 25 * d2 + d1);
    Carry(q / 10, e1, 2 * d2 + 40 * d3);
    Carry(q / 10 / 10, e2, 4 * d3);
  }

  /** The text of a number, least significant digit first. */
  function Text(q: nat): (t: seq<char>)
    ensures AllDecimal(Digits(q, 10)) && t == Chars(Digits(q, 10))
  {
    DigitsAreCanonical(q, 10);
    Chars(Digits(q, 10))
  }

  lemma TextGrows(q: nat)
    ensures Text(q) == if q < 10 then [Char(q)] else [Char(q % 10)] + Text(q / 10)
  {
    assert q >= 10 ==> Digits(q, 10) == [q % 10] + Digits(q / 10, 10);
  }

  lemma TextOf1(n: nat)
    requires n < 10
    ensures Text(n) == [Char(n % 10)]
  {
    TextGrows(n);
  }

  lemma TextOf2(n: nat, n1: nat)
    requires n1 == n / 10 && 0 < n1 < 10
    ensures Text(n) == [Char(n % 10), Char(n1 % 10)]
  {
    TextGrows(n);
    TextOf1(n1);
  }

  lemma TextOf3(n: nat, n1: nat, n2: nat)
    requires n1 == n / 10 && n2 == n1 / 10 && 0 < n2 < 10
    ensures Text(n) == [Char(n % 10), Char(n1 % 10), Char(n2 % 10)]
  {
    TextGrows(n);
    TextOf2(n1, n2);
  }

  lemma TextOf4(n: nat, n1: nat, n2: nat, n3: nat)
    requires n1 == n / 10 && n2 == n1 / 10 && n3 == n2 / 10 && 0 < n3 < 10
    ensures Text(n) == [Char(n % 10), Char(n1 % 10), Char(n2 % 10), Char(n3 % 10)]
  {
    TextGrows(n);
    TextOf3(n1, n2, n3);
  }

  lemma TextOf5(n: nat, n1: nat, n2: nat, n3: nat, n4: nat)
    requires n1 == n / 10 && n2 == n1 / 10 && n3 == n2 / 10 && n4 == n3 / 10 && 0 < n4 < 10
    ensures Text(n) == [Char(n % 10), Char(n1 % 10), Char(n2 % 10), Char(n3 % 10), Char(n4 % 10)]
  {
    TextGrows(n);
    TextOf4(n1, n2, n3, n4);
  }

  /** The text of a number below 100000, by the number of its digits. */
  lemma ShortTexts(n: nat, n1: nat, n2: nat, n3: nat)
    requires n <= 99999 && n1 == n / 10 && n2 == n1 / 10 && n3 == n2 / 10
    ensures n1 == 0 ==> Text(n) == [Char(n % 10)]
    ensures n1 != 0 && n2 == 0 ==> Text(n) == [Char(n % 10), Char(n1 % 10)]
    ensures n2 != 0 && n3 == 0 ==> Text(n) == [Char(n % 10), Char(n1 % 10), Char(n2 % 10)]
    ensures n3 != 0 && n3 / 10 == 0 ==> Text(n) == [Char(n % 10), Char(n1 % 10), Char(n2 % 10), Char(n3 % 10)]
    ensures n3 / 10 != 0 ==> Text(n) == [Char(n % 10), Char(n1 % 10), Char(n2 % 10), Char(n3 % 10), Char(n3 / 10)]
  {
    if n1 == 0 {
      TextOf1(n);
    } else if n2 == 0 {
      TextOf2(n, n1);
    } else if n3 == 0 {
      TextOf3(n, n1, n2);
    } else if n3 / 10 == 0 {
      TextOf4(n, n1, n2, n3);
    } else {
      TextOf5(n, n1, n2, n3, n3 / 10);
    }
  }

  /** A quotient by ten, found by multiplying with 205 and shifting, and the digit that it leaves. */
  method Take205(x: nat) returns (q: nat, digit: nat)
    requires x <= 1028
    ensures q == x / 10 && digit == x % 10
  {
    By205(x);
    q := x * 0xcd / 2048;
    digit := x - 10 * q;
  }

  /** The same with 13 and a shorter shift. */
  method Take13(x: nat) returns (q: nat, digit: nat)
    requires x <= 68
    ensures q == x / 10 && digit == x % 10
  {
    By13(x);
    q := x * 0xd / 128;
    digit := x - 10 * q;
  }

  method PutDecTrunc(buf: seq<char>, number: nat) returns (out: seq<char>)
    requires number <= 99999
    ensures out == buf + Text(number)
  {
    ghost var n1, n2, n3 := number / 10, number / 10 / 10, number / 10 / 10 / 10;
    out := LowDigits(buf, number, n1, n2, n3);
    ShortTexts(number, n1, n2, n3);
  }

  method LowDigits(buf: seq<char>, number: nat, ghost n1: nat, ghost n2: nat, ghost n3: nat) returns (out: seq<char>)
    requires number <= 99999 && n1 == number / 10 && n2 == n1 / 10 && n3 == n2 / 10
    ensures n1 == 0 ==> out == buf + [Char(number % 10)]
    ensures n1 != 0 && n2 == 0 ==> out == buf + [Char(number % 10)] + [Char(n1 % 10)]
    ensures n2 != 0 && n3 == 0 ==> out == buf + [Char(number % 10)] + [Char(n1 % 10)] + [Char(n2 % 10)]
    ensures n3 != 0 && n3 / 10 == 0 ==>
              out == buf + [Char(number % 10)] + [Char(n1 % 10)] + [Char(n2 % 10)] + [Char(n3 % 10)]
    ensures n3 / 10 != 0 ==>
              out == buf + [Char(number % 10)] + [Char(n1 % 10)] + [Char(n2 % 10)] + [Char(n3 % 10)] + [Char(n3 / 10)]
  {
    var d1, d2, d3 := number / 16 % 16, number / 256 % 16, number / 4096;
    var d0 := 6 * (d3 + d2 + d1) + number % 16;
    ghost var e1 := d0 / 10 + 9 * d3 + 5 * d2 + d1;
    ghost var e2 := e1 / 10 + 2 * d2;
    Carries(number, d3, d2, d1, d0, e1, e2, e2 / 10 + 4 * d3);
    out := EmitLow(buf, d0, d1, d2, d3, e1, e2, n3);
  }

  /** The digits of the sums `d0`, `e1`, `e2` and `e3`, as far as they matter. */
  method EmitLow(buf: seq<char>, d0: nat, d1: nat, d2: nat, d3: nat, ghost e1: nat, ghost e2: nat, ghost e3: nat)
    returns (out: seq<char>)
    requires d0 <= 1028 && e1 == d0 / 10 + 9 * d3 + 5 * d2 + d1 <= 1028
    requires e2 == e1 / 10 + 2 * d2 <= 68 && e3 == e2 / 10 + 4 * d3 <= 99
    ensures e1 == 0 ==> out == buf + [Char(d0 % 10)]
    ensures e1 != 0 && e2 == 0 && d3 == 0 ==> out == buf + [Char(d0 % 10)] + [Char(e1 % 10)]
    ensures e1 != 0 && (e2 != 0 || d3 != 0) && e3 == 0 ==>
              out == buf + [Char(d0 % 10)] + [Char(e1 % 10)] + [Char(e2 % 10)]
    ensures e1 != 0 && (e2 != 0 || d3 != 0) && e3 != 0 && e3 / 10 == 0 ==>
              out == buf + [Char(d0 % 10)] + [Char(e1 % 10)] + [Char(e2 % 10)] + [Char(e3 % 10)]
    ensures e1 != 0 && (e2 != 0 || d3 != 0) && e3 / 10 != 0 ==>
              out == buf + [Char(d0 % 10)] + [Char(e1 % 10)] + [Char(e2 % 10)] + [Char(e3 % 10)] + [Char(e3 / 10)]
  {
    var q, digit := Take205(d0);
    out := buf + [Char(digit)];
    var x := q + 9 * d3 + 5 * d2 + d1;
    if x != 0 {
      q, digit := Take205(x);
      out := out + [Char(digit)];
      x := q + 2 * d2;
      if x != 0 || d3 != 0 {
        q, digit := Take13(x);
        out := out + [Char(digit)];
        x := q + 4 * d3;
        if x != 0 {
          q, digit := Take205(x);
          out := out + [Char(digit)];
          if q != 0 {
            out := out + [Char(q)];
          }
        }
      }
    }
  }

  /** Five characters, leading zeros included. */
  function FullText(q: nat): seq<char> {
    [Char(q % 10)] + [Char(q / 10 % 10)] + [Char(q / 10 / 10 % 10)] + [Char(q / 10 / 10 / 10 % 10)] + [Char(q / 10 / 10 / 10 / 10 % 10)]
  }

  lemma TopDigit(n: nat)
    requires n <= 99
    ensures n / 10 % 10 == n / 10
  {
  }

  method PutDecFull(buf: seq<char>, number: nat) returns (out: seq<char>)
    requires number <= 99999
    ensures out == buf + FullText(number)
  {
    ghost var n1, n2, n3 := number / 10, number / 10 / 10, number / 10 / 10 / 10;
    TopDigit(n3);
    out := FiveDigits(buf, number, n1, n2, n3);
    Regroup(buf, Char(number % 10), Char(n1 % 10), Char(n2 % 10), Char(n3 % 10), Char(n3 / 10 % 10));
  }

  method FiveDigits(buf: seq<char>, number: nat, ghost n1: nat, ghost n2: nat, ghost n3: nat) returns (out: seq<char>)
    requires number <= 99999 && n1 == number / 10 && n2 == n1 / 10 && n3 == n2 / 10 && n3 <= 99
    ensures out == buf + [Char(number % 10)] + [Char(n1 % 10)] + [Char(n2 % 10)] + [Char(n3 % 10)] + [Char(n3 / 10)]
  {
    var d1, d2, d3 := number / 16 % 16, number / 256 % 16, number / 4096;
    var d0 := 6 * (d3 + d2 + d1) + number % 16;
    ghost var e1 := d0 / 10 + 9 * d3 + 5 * d2 + d1;
    ghost var e2 := e1 / 10 + 2 * d2;
    Carries(number, d3, d2, d1, d0, e1, e2, e2 / 10 + 4 * d3);
    out := EmitFive(buf, d0, d1, d2, d3, e1, e2, n3);
  }

  method EmitFive(buf: seq<char>, d0: nat, d1: nat, d2: nat, d3: nat, ghost e1: nat, ghost e2: nat, ghost e3: nat)
    returns (out: seq<char>)
    requires d0 <= 1028 && e1 == d0 / 10 + 9 * d3 + 5 * d2 + d1 <= 1028
    requires e2 == e1 / 10 + 2 * d2 <= 68 && e3 == e2 / 10 + 4 * d3 <= 99
    ensures out == buf + [Char(d0 % 10)] + [Char(e1 % 10)] + [Char(e2 % 10)] + [Char(e3 % 10)] + [Char(e3 / 10)]
  {
    var q, digit := Take205(d0);
    out := buf + [Char(digit)];
    q, digit := Take205(q + 9 * d3 + 5 * d2 + d1);
    out := out + [Char(digit)];
    q, digit := Take13(q + 2 * d2);
    out := out + [Char(digit)];
    q, digit := Take205(q + 4 * d3);
    out := out + [Char(digit)];
    out := out + [Char(q)];
  }

  lemma Regroup(buf: seq<char>, a: char, b: char, c: char, d: char, e: char)
    ensures buf + [a] + [b] + [c] + [d] + [e] == buf + ([a] + [b] + [c] + [d] + [e])
  {
  }

  lemma LowPart(n: nat)
    ensures var m, h := n % 100000, n / 100000;
            && m % 10 == n % 10 && m / 10 % 10 == n / 10 % 10 && m / 10 / 10 % 10 == n / 10 / 10 % 10
            && m / 10 / 10 / 10 % 10 == n / 10 / 10 / 10 % 10 && m / 10 / 10 / 10 / 10 % 10 == n / 10 / 10 / 10 / 10 % 10
            && n / 10 / 10 / 10 / 10 / 10 == h
  {
    var m, h := n % 100000, n / 100000;
    Carry(n, m, 10000 * h);
    Carry(n / 10, m / 10, 1000 * h);
    Carry(n / 10 / 10, m / 10 / 10, 100 * h);
    Carry(n / 10 / 10 / 10, m / 10 / 10 / 10, 10 * h);
    Carry(n / 10 / 10 / 10 / 10, m / 10 / 10 / 10 / 10, h);
  }

  lemma FiveInFront(a: char, b: char, c: char, d: char, e: char, t: seq<char>)
    ensures [a] + ([b] + ([c] + ([d] + ([e] + t)))) == ([a] + [b] + [c] + [d] + [e]) + t
  {
  }

  /** The low five digits can be written first. */
  lemma ChunkText(n: nat)
    requires n >= 100000
    ensures Text(n) == FullText(n % 100000) + Text(n / 100000)
  {
    LowPart(n);
    var n1, n2, n3, n4 := n / 10, n / 10 / 10, n / 10 / 10 / 10, n / 10 / 10 / 10 / 10;
    ChunkTextOf(n, n1, n2, n3, n4, n / 100000);
    FiveInFront(Char(n % 10), Char(n1 % 10), Char(n2 % 10), Char(n3 % 10), Char(n4 % 10), Text(n / 100000));
  }

  lemma ChunkTextOf(n: nat, n1: nat, n2: nat, n3: nat, n4: nat, n5: nat)
    requires n1 == n / 10 && n2 == n1 / 10 && n3 == n2 / 10 && n4 == n3 / 10 && n5 == n4 / 10 && n5 > 0
    ensures Text(n) == [Char(n % 10)] + ([Char(n1 % 10)] + ([Char(n2 % 10)] + ([Char(n3 % 10)] + ([Char(n4 % 10)] + Text(n5)))))
  {
    assert n4 >= 10 && n3 >= 10 && n2 >= 10 && n1 >= 10 && n >= 10;
    TextGrows(n);
    TextGrows(n1);
    TextGrows(n2);
    TextGrows(n3);
    TextGrows(n4);
  }

  /** `put_dec`: the canonical decimal digits of every 64-bit number, least significant first. */
  method PutDec(buf: seq<char>, number: u64) returns (out: seq<char>)
    ensures out == buf + Text(number as nat)
  {
    var num := number;
    out := buf;
    while num >= 100000
      invariant out + Text(num as nat) == buf + Text(number as nat)
      decreases num
    {
      ghost var n := num as nat;
      ChunkText(n);
      var rem: u32;
      num, rem := DoDiv(num, 100000);
      assert out + (FullText(n % 100000) + Text(n / 100000)) == (out + FullText(n % 100000)) + Text(n / 100000);
      out := PutDecFull(out, rem as nat);
    }
    out := PutDecTrunc(out, num as nat);
  }

  lemma PowerTwenty()
    ensures Pow(10, 20) > 0xffff_ffff_ffff_ffff
  {
    assert Pow(10, 5) == 100000;
    assert Pow(10, 10) == 10000000000;
    assert Pow(10, 15) == 1000000000000000;
  }

  /** At most 20 characters, all digits, no leading zero except for zero itself, and the right value. */
  lemma TextIsCanonical(n: nat)
    requires n < TWO_64
    ensures 1 <= |Text(n)| <= 20
    ensures forall c | c in Text(n) :: '0' <= c <= '9'
    ensures n > 0 ==> Text(n)[|Text(n)| - 1] != '0'
    ensures Value(Digits(n, 10), 10) == n
  {
    DigitsAreCanonical(n, 10);
    PowerTwenty();
    DigitsAtMost(n, 10, 20);
  }
}
