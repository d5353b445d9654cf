/** The repacked bytes as numbers: what they say of the value of the words. */
module RepackNumbers {
  import opened Repack
  import Div64

  function Pow2(n: nat): (p: nat)
    ensures p > 0
  {
    if n == 0 then 1 else 2 * Pow2(n - 1)
  }

  /** Bits as a binary numeral, most significant first. */
  function Number(bits: seq<bool>): nat {
    if bits == [] then 0 else 2 * Number(bits[..|bits| - 1]) + if bits[|bits| - 1] then 1 else 0
  }

  /** 32-bit words as the digits of one number. */
  function WordsNumber(src: seq<bv32>): nat {
    if src == [] then 0 else 0x1_0000_0000 * WordsNumber(src[..|src| - 1]) + src[|src| - 1] as int
  }

  /** Bytes without their offset of 160 as 7-bit digits of one number. */
  function BytesNumber(bytes: seq<bv8>): nat {
    if bytes == [] then 0 else 128 * BytesNumber(bytes[..|bytes| - 1]) + (bytes[|bytes| - 1] as int - 160) % 256
  }

  lemma TwiceProduct(x: nat, y: nat)
    ensures x * (2 * y) == 2 * (x * y)
  {
  }

  lemma {:induction false} PowSum(a: nat, b: nat)
    ensures Pow2(a + b) == Pow2(a) * Pow2(b)
    decreases b
  {
    if b > 0 {
      PowSum(a, b - 1);
      TwiceProduct(Pow2(a), Pow2(b - 1));
    }
  }

  lemma NumberLast(s: seq<bool>, x: bool)
    ensures Number(s + [x]) == 2 * Number(s) + if x then 1 else 0
  {
    assert (s + [x])[..|s|] == s;
  }

  lemma {:induction false} NumberBoth(a: seq<bool>, b: seq<bool>)
    ensures Number(a + b) == Number(a) * Pow2(|b|) + Number(b) && Number(b) < Pow2(|b|)
    decreases |b|
  {
    if b == [] {
      assert a + b == a;
    } else {
      var init, x := b[..|b| - 1], b[|b| - 1];
      NumberBoth(a, init);
      assert b == init + [x] && a + b == (a + init) + [x];
      NumberLast(init, x);
      NumberLast(a + init, x);
      TwiceProduct(Number(a), Pow2(|init|));
    }
  }

  lemma Quotient(n: nat, q: nat, p: nat, r: nat)
    requires p > 0 && n == q * p + r && r < p
    ensures n / p == q
  {
    Div64.Unique(p, n / p, n % p, q, r);
  }

  /** The first bits of a numeral are the quotient by a power of two. */
  lemma FirstBits(bits: seq<bool>, k: nat)
    requires k <= |bits|
    ensures Number(bits[..k]) == Number(bits) / Pow2(|bits| - k)
  {
    NumberBoth(bits[..k], bits[k..]);
    assert bits[..k] + bits[k..] == bits;
    Quotient(Number(bits), Number(bits[..k]), Pow2(|bits| - k), Number(bits[k..]));
  }

  // A word is the numeral of its bits

  lemma TopBit(w: bv32)
    ensures WordBit(w, 0) <==> w as int >= 0x8000_0000
  {
  }

  lemma MaskNext(k: nat)
    requires k < 31
    ensures (1 as bv32) << (k + 1) == ((1 as bv32) << k) << 1
  {
  }

  lemma MaskBelow(k: nat)
    requires k < 31
    ensures (1 as bv32) << k < 0x8000_0000
  {
  }

  lemma ShiftBoth(w: bv32, p: bv32)
    requires p < 0x8000_0000
    ensures w & p != 0 <==> (w << 1) & (p << 1) != 0
  {
  }

  lemma NextBits(w: bv32, n: nat)
    requires n < 31
    ensures WordBit(w, n + 1) <==> WordBit(w << 1, n)
  {
    MaskNext(30 - n);
    MaskBelow(30 - n);
    ShiftBoth(w, 1 << (30 - n));
  }

  function WordBits(w: bv32, k: nat): (bits: seq<bool>)
    requires k <= 32
    ensures |bits| == k
  {
    seq(k, n requires 0 <= n < k => WordBit(w, n))
  }

  function Digit(on: bool): nat {
    if on then 1 else 0
  }

  lemma NumberOne(b: bool)
    ensures Number([b]) == Digit(b)
  {
    assert [b][..0] == [];
  }

  lemma NumberFront(b: bool, t: seq<bool>)
    ensures Number([b] + t) == Digit(b) * Pow2(|t|) + Number(t)
  {
    NumberOne(b);
    NumberBoth([b], t);
  }

  lemma Pow32()
    ensures Pow2(32) == 0x1_0000_0000
  {
    assert Pow2(8) == 256;
    PowSum(8, 8);
    PowSum(16, 16);
  }

  /** The quotient of a 32-bit number without its top bit, shifted left. */
  lemma QuotientNext(v: nat, shifted: nat, top: bool, m: nat, p: nat)
    requires p > 0 && m * (2 * p) == 0x1_0000_0000 && v < 0x1_0000_0000
    requires (top <==> v >= 0x8000_0000) && shifted == 2 * v - if top then 0x1_0000_0000 else 0
    ensures v / p == (if top then m else 0) + shifted / (2 * p)
  {
    var q, r := v / p, v % p;
    assert v == q * p + r;
    assert q * (2 * p) == 2 * (q * p);
    if top {
      TopQuotient(v, q, r, m, p);
      assert (q - m) * (2 * p) == q * (2 * p) - m * (2 * p);
      Quotient(shifted, q - m, 2 * p, 2 * r);
    } else {
      Quotient(shifted, q, 2 * p, 2 * r);
    }
  }

  lemma ProductBelow(q: nat, m: nat, p: nat)
    requires q < m
    ensures q * p + p <= m * p
  {
    assert (q + 1) * p <= m * p;
  }

  lemma TopQuotient(v: nat, q: nat, r: nat, m: nat, p: nat)
    requires p > 0 && v == q * p + r && r < p && m * (2 * p) == 0x1_0000_0000 && v >= 0x8000_0000
    ensures q >= m
  {
    assert m * (2 * p) == 2 * (m * p);
    if q < m {
      ProductBelow(q, m, p);
    }
  }

  /** A 32-bit number without its top bit, shifted left. */
  function DropTop(v: nat): (r: nat)
    requires v < 0x1_0000_0000
    ensures r < 0x1_0000_0000
  {
    2 * v - if v >= 0x8000_0000 then 0x1_0000_0000 else 0
  }

  lemma ShiftLeft(w: bv32)
    ensures (w << 1) as int == DropTop(w as int)
  {
  }

  /** The first `k` of the 32 binary digits of a number. */
  function FirstDigits(v: nat, k: nat): (bits: seq<bool>)
    requires v < 0x1_0000_0000
    ensures |bits| == k
    decreases k
  {
    if k == 0 then [] else [v >= 0x8000_0000] + FirstDigits(DropTop(v), k - 1)
  }

  lemma Weights(k: nat) returns (m: nat, p: nat)
    requires 0 < k <= 32
    ensures m == Pow2(k - 1) && p == Pow2(32 - k) && p > 0 && Pow2(33 - k) == 2 * p && m * (2 * p) == 0x1_0000_0000
  {
    m, p := Pow2(k - 1), Pow2(32 - k);
    PowSum(k - 1, 33 - k);
    Pow32();
  }

  lemma FirstDigitsStep(v: nat, rest: seq<bool>, k: nat)
    requires 0 < k <= 32 && v < 0x1_0000_0000 && |rest| == k - 1 && Number(rest) == DropTop(v) / Pow2(33 - k)
    ensures Number([v >= 0x8000_0000] + rest) == v / Pow2(32 - k)
  {
    NumberFront(v >= 0x8000_0000, rest);
    var m, p := Weights(k);
    QuotientNext(v, DropTop(v), v >= 0x8000_0000, m, p);
  }

  lemma {:induction false} FirstDigitsAre(v: nat, k: nat)
    requires v < 0x1_0000_0000 && k <= 32
    ensures Number(FirstDigits(v, k)) == v / Pow2(32 - k)
    decreases k
  {
    if k == 0 {
      Pow32();
    } else {
      FirstDigitsAre(DropTop(v), k - 1);
      FirstDigitsStep(v, FirstDigits(DropTop(v), k - 1), k);
    }
  }

  /** The word without its first `n` bits. */
  function Without(w: bv32, n: nat): bv32
    decreases n
  {
    if n == 0 then w else Without(w << 1, n - 1)
  }

  lemma {:induction false} TopWithout(w: bv32, n: nat)
    requires n < 32
    ensures WordBit(w, n) <==> WordBit(Without(w, n), 0)
    decreases n
  {
    if n > 0 {
      TopWithout(w << 1, n - 1);
      NextBits(w, n - 1);
    }
  }

  function Dropped(v: nat, n: nat): (r: nat)
    requires v < 0x1_0000_0000
    ensures r < 0x1_0000_0000
    decreases n
  {
    if n == 0 then v else Dropped(DropTop(v), n - 1)
  }

  lemma {:induction false} WithoutIsDropped(w: bv32, n: nat)
    ensures Without(w, n) as int == Dropped(w as int, n)
    decreases n
  {
    if n > 0 {
      WithoutIsDropped(w << 1, n - 1);
      ShiftLeft(w);
    }
  }

  lemma {:induction false} DigitDropped(v: nat, k: nat, n: nat)
    requires v < 0x1_0000_0000 && n < k
    ensures FirstDigits(v, k)[n] <==> Dropped(v, n) >= 0x8000_0000
    decreases n
  {
    if n > 0 {
      DigitDropped(DropTop(v), k - 1, n - 1);
    }
  }

  /** Bit by bit, a word shows the digits of its value. */
  lemma WordDigit(w: bv32, k: nat, n: nat)
    requires n < k <= 32
    ensures WordBit(w, n) <==> FirstDigits(w as int, k)[n]
  {
    TopWithout(w, n);
    TopBit(Without(w, n));
    WithoutIsDropped(w, n);
    DigitDropped(w as int, k, n);
  }

  lemma WordDigitAt(w: bv32, n: nat)
    requires n < 32
    ensures WordBits(w, 32)[n] == FirstDigits(w as int, 32)[n]
  {
    WordDigit(w, 32, n);
  }

  lemma WordDigits(w: bv32)
    ensures WordBits(w, 32) == FirstDigits(w as int, 32)
  {
    var t, u := WordBits(w, 32), FirstDigits(w as int, 32);
    forall n | 0 <= n < 32 ensures t[n] == u[n] {
      WordDigitAt(w, n);
    }
  }

  lemma AllDigits(v: nat)
    requires v < 0x1_0000_0000
    ensures Number(FirstDigits(v, 32)) == v
  {
    FirstDigitsAre(v, 32);
    assert Pow2(0) == 1;
  }

  lemma WordIsNumeral(w: bv32)
    ensures Number(WordBits(w, 32)) == w as int
  {
    WordDigits(w);
    AllDigits(w as int);
  }

  lemma Parity(m: nat, d: nat)
    requires d < 2
    ensures (2 * m + d) % 2 == d
  {
  }

  lemma LastIsParity(t: seq<bool>, q: nat)
    requires t != [] && Number(t) == q
    ensures t[|t| - 1] <==> q % 2 == 1
  {
    var init, x := t[..|t| - 1], t[|t| - 1];
    assert t == init + [x];
    NumberLast(init, x);
    Parity(Number(init), if x then 1 else 0);
  }

  /** Each bit of a word is the binary digit of its value. */
  lemma BitOfWord(w: bv32, n: nat)
    requires n < 32
    ensures WordBit(w, n) <==> w as int / Pow2(31 - n) % 2 == 1
  {
    WordDigit(w, n + 1, n);
    FirstDigitsAre(w as int, n + 1);
    LastIsParity(FirstDigits(w as int, n + 1), w as int / Pow2(31 - n));
  }

  // The words and the bytes

  lemma BitsMore(src: seq<bv32>, w: bv32)
    ensures Bits(src + [w]) == Bits(src) + WordBits(w, 32)
  {
    var all := src + [w];
    forall i | 0 <= i < 32 * |all| ensures Bits(all)[i] == (Bits(src) + WordBits(w, 32))[i] {
      if i >= 32 * |src| {
        assert i / 32 == |src| && i % 32 == i - 32 * |src|;
      }
    }
  }

  lemma NumeralMore(src: seq<bv32>, w: bv32)
    ensures Number(Bits(src + [w])) == 0x1_0000_0000 * Number(Bits(src)) + w as int
  {
    BitsMore(src, w);
    NumberBoth(Bits(src), WordBits(w, 32));
    WordIsNumeral(w);
    Pow32();
  }

  lemma {:induction false} WordsAreNumeral(src: seq<bv32>)
    ensures Number(Bits(src)) == WordsNumber(src)
    decreases |src|
  {
    if src != [] {
      var init, w := src[..|src| - 1], src[|src| - 1];
      assert src == init + [w];
      WordsAreNumeral(init);
      NumeralMore(init, w);
    }
  }

  lemma ByteOfBits(x: bv8)
    requires x & 0x80 == 0
    ensures x as int ==
            64 * Digit(x & 0x40 != 0) + 32 * Digit(x & 0x20 != 0) + 16 * Digit(x & 0x10 != 0) + 8 * Digit(x & 0x08 != 0)
            + 4 * Digit(x & 0x04 != 0) + 2 * Digit(x & 0x02 != 0) + Digit(x & 0x01 != 0)
  {
  }

  lemma NumberTake(t: seq<bool>, k: nat)
    requires k < |t|
    ensures Number(t[..k + 1]) == 2 * Number(t[..k]) + Digit(t[k])
  {
    assert t[..k + 1][..k] == t[..k];
  }

  lemma FourBits(t: seq<bool>)
    requires |t| >= 4
    ensures Number(t[..4]) == 8 * Digit(t[0]) + 4 * Digit(t[1]) + 2 * Digit(t[2]) + Digit(t[3])
  {
    NumberTake(t, 0);
    NumberTake(t, 1);
    NumberTake(t, 2);
    NumberTake(t, 3);
    assert Number(t[..0]) == 0;
  }

  lemma ThreeBits(t: seq<bool>)
    requires |t| >= 3
    ensures Number(t[..3]) == 4 * Digit(t[0]) + 2 * Digit(t[1]) + Digit(t[2])
  {
    NumberTake(t, 0);
    NumberTake(t, 1);
    NumberTake(t, 2);
    assert Number(t[..0]) == 0;
  }

  lemma ThreeMore(a: seq<bool>, b: seq<bool>)
    requires |b| == 3
    ensures Number(a + b) == 8 * Number(a) + Number(b)
  {
    NumberBoth(a, b);
    assert Pow2(3) == 8;
  }

  lemma SevenBits(t: seq<bool>)
    requires |t| == 7
    ensures Number(t) == 64 * Digit(t[0]) + 32 * Digit(t[1]) + 16 * Digit(t[2]) + 8 * Digit(t[3])
                         + 4 * Digit(t[4]) + 2 * Digit(t[5]) + Digit(t[6])
  {
    var a, b := t[..4], t[4..];
    FourBits(a);
    ThreeBits(b);
    assert a[..4] == a && b[..3] == b && a + b == t;
    ThreeMore(a, b);
  }

  lemma {:induction false} GroupIsSmall(bits: seq<bool>, i: nat, k: nat)
    requires k <= 7 && i + k <= |bits|
    ensures Group(bits, i, k) & 0x80 == 0
    decreases k
  {
    if k > 0 {
      GroupIsSmall(bits, i, k - 1);
      Distribute(Group(bits, i, k - 1), if bits[i + k - 1] then Mask(k - 1) else 0, 0x80);
    }
  }

  /** A group of bits is the numeral of these bits, with zeros behind them. */
  lemma GroupIsNumeral(bits: seq<bool>, i: nat, k: nat, t: seq<bool>)
    requires k <= 7 && i + k <= |bits| && t == bits[i..i + k] + seq(7 - k, _ => false)
    ensures Group(bits, i, k) as int == Number(t)
  {
    forall m | 0 <= m < 7 ensures Group(bits, i, k) & Mask(m) != 0 <==> t[m] {
      GroupBit(bits, i, k, m);
      MasksApart(m, m);
    }
    GroupIsSmall(bits, i, k);
    ByteOfBits(Group(bits, i, k));
    SevenBits(t);
  }

  lemma WithOffset(g: bv8)
    requires g as int < 128
    ensures ((g + 0xa0) as int - 160) % 256 == g as int
  {
  }

  lemma OneByte(bits: seq<bool>, i: nat, byte: bv8)
    requires i + 7 <= |bits| && byte == Packed(bits, i, 7, 0)
    ensures (byte as int - 160) % 256 == Number(bits[i..i + 7])
  {
    Zeros(Group(bits, i, 7));
    GroupIsNumeral(bits, i, 7, bits[i..i + 7] + seq(0, _ => false));
    assert bits[i..i + 7] + seq(0, _ => false) == bits[i..i + 7];
    NumberBoth([], bits[i..i + 7]);
    assert [] + bits[i..i + 7] == bits[i..i + 7] && Pow2(7) == 128;
    WithOffset(Group(bits, i, 7));
  }

  lemma SevenMore(bits: seq<bool>, i: nat)
    requires i + 7 <= |bits|
    ensures Number(bits[..i + 7]) == 128 * Number(bits[..i]) + Number(bits[i..i + 7])
  {
    NumberBoth(bits[..i], bits[i..i + 7]);
    assert bits[..i] + bits[i..i + 7] == bits[..i + 7];
    assert Pow2(7) == 128;
  }

  lemma {:induction false} BytesAreNumeral(bits: seq<bool>, bytes: seq<bv8>)
    requires 7 * |bytes| <= |bits|
    requires forall j | 0 <= j < |bytes| :: bytes[j] == Packed(bits, 7 * j, 7, 0)
    ensures BytesNumber(bytes) == Number(bits[..7 * |bytes|])
    decreases |bytes|
  {
    if bytes != [] {
      var m := |bytes| - 1;
      BytesAreNumeral(bits, bytes[..m]);
      OneByte(bits, 7 * m, bytes[m]);
      SevenMore(bits, 7 * m);
    } else {
      assert bits[..0] == [];
    }
  }

  lemma BytesDivide(bits: seq<bool>, bytes: seq<bv8>, n: nat)
    requires 7 * |bytes| <= |bits| && Number(bits) == n
    requires forall j | 0 <= j < |bytes| :: bytes[j] == Packed(bits, 7 * j, 7, 0)
    ensures BytesNumber(bytes) == n / Pow2(|bits| - 7 * |bytes|)
  {
    BytesAreNumeral(bits, bytes);
    FirstBits(bits, 7 * |bytes|);
  }

  /** Read as numbers, the full bytes without their offset of 160 are the first bits of the words: what the words
      are divided by the weight of the bits that are left. */
  lemma RepackDivides(src: seq<bv32>, bits: seq<bool>, bytes: seq<bv8>)
    requires |bits| == 32 * |src| && 7 * |bytes| <= |bits|
    requires forall j | 0 <= j < |bytes| :: bytes[j] == Packed(bits, 7 * j, 7, 0)
    ensures bits == Bits(src) ==> BytesNumber(bytes) == WordsNumber(src) / Pow2(32 * |src| - 7 * |bytes|)
  {
    BytesDivide(bits, bytes, Number(bits));
    WordsAreNumeral(src);
  }

  /** The last byte, if it is not full, has its bits at the top of the low seven, and no offset. */
  lemma PartialByte(bits: seq<bool>, i: nat, k: nat, byte: bv8)
    requires k < 7 && i + k <= |bits| && byte == Packed(bits, i, k, 0)
    ensures byte as int == Number(bits[i..i + k]) * Pow2(7 - k)
  {
    var zeros := seq(7 - k, _ => false);
    Zeros(Group(bits, i, k));
    GroupIsNumeral(bits, i, k, bits[i..i + k] + zeros);
    NumberBoth(bits[i..i + k], zeros);
    AllFalse(zeros);
  }

  lemma {:induction false} AllFalse(bits: seq<bool>)
    requires forall i | 0 <= i < |bits| :: !bits[i]
    ensures Number(bits) == 0
    decreases |bits|
  {
    if bits != [] {
      AllFalse(bits[..|bits| - 1]);
    }
  }
}
