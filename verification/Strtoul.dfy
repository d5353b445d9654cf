/** Reading numbers back: `simple_strtoul`, and what it recovers of a printed number. */
module Strtoul {
  import opened Div64
  import opened CText

  function DigitOf(c: char): (v: nat)
    requires IsHexDigit(c)
    ensures v < 16
  {
    if IsDigit(c) then DigitValue(c)
    else if IsLower(c) then c as int - 'a' as int + 10
    else c as int - 'A' as int + 10
  }

  predicate IsIn(c: char, b: nat) {
    IsHexDigit(c) && DigitOf(c) < b
  }

  ghost predicate AllIn(s: seq<char>, b: nat) {
    forall k | 0 <= k < |s| :: IsIn(s[k], b)
  }

  /** The number that digits denote, most significant first. */
  function Horner(s: seq<char>, b: nat): nat
    requires AllIn(s, b)
    decreases |s|
  {
    if s == [] then 0 else Scaled(Horner(s[..|s| - 1], b), b) + DigitOf(s[|s| - 1])
  }

  function Scaled(x: nat, b: nat): nat {
    x * b
  }

  function RunEnd(s: seq<char>, i: nat, b: nat): (j: nat)
    requires i <= |s|
    ensures i <= j <= |s| && forall k | i <= k < j :: IsIn(s[k], b)
    decreases |s| - i
  {
    if i < |s| && IsIn(s[i], b) then RunEnd(s, i + 1, b) else i
  }

  /** The base that the beginning of a text chooses, and where its digits begin. */
  function Start(s: seq<char>, base: nat): (r: (nat, nat))
    ensures r.1 <= |s|
  {
    if At(s, 0) != '0' then (if base == 0 then 10 else base, 0)
    else if At(s, 1) == 'x' && IsHexDigit(At(s, 2)) then (16, 2)
    else (if base == 0 then 8 else base, 1)
  }

  /** The value, in 32 bits, and how much of the text it takes. */
  function Parse(s: seq<char>, base: nat): (nat, nat) {
    var (b, i) := Start(s, base);
    var j := RunEnd(s, i, b);
    (Horner(s[i..j], b) % TWO_32, j)
  }

  lemma ModStep(x: nat, b: nat, v: nat)
    ensures (x % TWO_32 * b + v) % TWO_32 == (x * b + v) % TWO_32
  {
    var q, r := x / TWO_32, x % TWO_32;
    assert x * b + v == (r * b + v) + q * b * TWO_32 by {
      assert x == q * TWO_32 + r;
      assert (q * TWO_32 + r) * b == q * TWO_32 * b + r * b;
      assert q * TWO_32 * b == q * b * TWO_32;
    }
    AddMultiple(r * b + v, q * b);
  }

  lemma AddMultiple(y: nat, k: nat)
    ensures (y + k * TWO_32) % TWO_32 == y % TWO_32
  {
  }

  /** `simple_strtoul`. */
  method SimpleStrtoul(s: seq<char>, radix: nat) returns (result: nat, end: nat)
    ensures (result, end) == Parse(s, radix)
  {
    var base := radix;
    var cp := 0;
    if At(s, cp) == '0' {
      cp := cp + 1;
      if At(s, cp) == 'x' && IsHexDigit(At(s, cp + 1)) {
        base := 16;
        cp := cp + 1;
      }
      if base == 0 {
        base := 8;
      }
    }
    if base == 0 {
      base := 10;
    }
    ghost var i := cp;
    assert (base, cp) == Start(s, radix);
    result := 0;
    while IsHexDigit(At(s, cp)) && DigitOf(At(s, cp)) < base
      invariant i <= cp <= |s| && RunEnd(s, cp, base) == RunEnd(s, i, base)
      invariant AllIn(s[i..cp], base) && result == Horner(s[i..cp], base) % TWO_32
      decreases |s| - cp
    {
      result := ReadDigit(s, i, cp, base, result);
      cp := cp + 1;
    }
    end := cp;
  }

  method ReadDigit(s: seq<char>, ghost i: nat, cp: nat, base: nat, was: nat) returns (result: nat)
    requires i <= cp < |s| && AllIn(s[i..cp], base) && IsIn(s[cp], base)
    requires was == Horner(s[i..cp], base) % TWO_32
    ensures AllIn(s[i..cp + 1], base) && result == Horner(s[i..cp + 1], base) % TWO_32
  {
    assert s[i..cp + 1][..cp - i] == s[i..cp];
    ModStep(Horner(s[i..cp], base), base, DigitOf(s[cp]));
    result := (was * base + DigitOf(s[cp])) % TWO_32;
  }

  // Reading a body of digits

  lemma {:induction false} RunCovers(s: seq<char>, i: nat, j: nat, b: nat)
    requires i <= j <= |s| && (forall k | i <= k < j :: IsIn(s[k], b))
    requires j < |s| ==> !IsIn(s[j], b)
    ensures RunEnd(s, i, b) == j
    decreases j - i
  {
    if i < j {
      RunCovers(s, i + 1, j, b);
    }
  }

  lemma {:induction false} LeadingZero(s: seq<char>, b: nat)
    requires s != [] && s[0] == '0' && AllIn(s, b)
    ensures Horner(s[1..], b) == Horner(s, b)
    decreases |s|
  {
    if |s| > 1 {
      var t := s[..|s| - 1];
      LeadingZero(t, b);
      assert s[1..][..|s| - 2] == t[1..];
    } else {
      assert s[..0] == [];
    }
  }

  /** No digit: the end of the text, or a blank. */
  predicate Ended(tail: seq<char>) {
    tail == "" || tail[0] == ' '
  }

  lemma ParseIs(s: seq<char>, base: nat, b: nat, i: nat, j: nat, v: nat)
    requires Start(s, base) == (b, i) && i <= j <= |s| && (forall k | i <= k < j :: IsIn(s[k], b))
    requires j < |s| ==> !IsIn(s[j], b)
    requires AllIn(s[i..j], b) && v == Horner(s[i..j], b)
    ensures Parse(s, base) == (v % 0x1_0000_0000, j)
  {
    RunCovers(s, i, j, b);
  }

  lemma SmallRest(v: nat)
    requires v < TWO_32
    ensures v % TWO_32 == v
  {
  }

  /** The first digit is passed over when it is a zero. */
  lemma BodyStarts(body: seq<char>, tail: seq<char>, b: nat)
    requires b > 0 && body != [] && AllIn(body, b) && Ended(tail)
    ensures Start(body + tail, b) == (b, if body[0] == '0' then 1 else 0)
  {
    assert At(body + tail, 1) != 'x' by {
      if |body| > 1 {
        assert IsIn(body[1], b);
      }
    }
  }

  lemma BodySlice(body: seq<char>, tail: seq<char>, b: nat, i: nat)
    requires body != [] && AllIn(body, b) && i == if body[0] == '0' then 1 else 0
    ensures var part := (body + tail)[i..|body|]; part == body[i..] && AllIn(part, b) && Horner(part, b) == Horner(body, b)
  {
    assert (body + tail)[i..|body|] == body[i..];
    if i == 1 {
      LeadingZero(body, b);
    } else {
      assert body[0..] == body;
    }
  }

  /** Digits of a base, read in that base, give their number modulo 2^32 and take no more of the text. */
  lemma ParsesBody(body: seq<char>, tail: seq<char>, b: nat, v: nat)
    requires b > 0 && body != [] && AllIn(body, b) && Ended(tail)
    requires v == Horner(body, b)
    ensures Parse(body + tail, b) == (v % 0x1_0000_0000, |body|)
  {
    var s, i := body + tail, if body[0] == '0' then 1 else 0;
    BodyStarts(body, tail, b);
    BodySlice(body, tail, b, i);
    forall k | i <= k < |body| ensures IsIn(s[k], b) {
      assert s[k] == body[k];
    }
    ParseIs(s, b, b, i, |body|, v);
  }

  /** With `0x` in front the base does not matter. */
  lemma ParsesHex(body: seq<char>, tail: seq<char>, base: nat, v: nat)
    requires body != [] && AllIn(body, 16) && Ended(tail)
    requires v == Horner(body, 16)
    ensures Parse("0x" + body + tail, base) == (v % 0x1_0000_0000, 2 + |body|)
  {
    var s, j := "0x" + body + tail, 2 + |body|;
    assert s[2] == body[0] && IsIn(body[0], 16);
    assert Start(s, base) == (16, 2);
    assert s[2..j] == body;
    forall k | 2 <= k < j ensures IsIn(s[k], 16) {
      assert s[k] == body[k - 2];
    }
    ParseIs(s, base, 16, 2, j, v);
  }

  /** A capital X ends the number behind its first zero. */
  lemma CapitalStops(body: seq<char>, tail: seq<char>)
    ensures Parse("0X" + body + tail, 16) == (0, 1)
  {
    var s := "0X" + body + tail;
    assert s[0] == '0' && s[1] == 'X';
    assert Start(s, 16) == (16, 1);
    assert RunEnd(s, 1, 16) == 1;
    assert s[1..1] == [];
  }

  /** Without a digit behind it the x does not belong to the number, whatever the base. */
  lemma LoneX(tail: seq<char>, base: nat)
    requires tail != [] ==> !('0' <= tail[0] <= '9' || 'A' <= tail[0] <= 'F' || 'a' <= tail[0] <= 'f')
    ensures Parse("0x" + tail, base) == (0, 1)
  {
    var s := "0x" + tail;
    assert s[0] == '0' && s[1] == 'x' && At(s, 2) == At(tail, 0);
    assert Start(s, base) == (if base == 0 then 8 else base, 1);
    assert RunEnd(s, 1, if base == 0 then 8 else base) == 1;
    assert s[1..1] == [];
  }
}
