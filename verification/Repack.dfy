/** `CommMsgPro`: the bits of 32-bit words, seven to a byte. */
module Repack {

  /** Bit `n` of a word, most significant first. */
  predicate WordBit(word: bv32, n: nat)
    requires n < 32
  {
    word & (1 << (31 - n)) != 0
  }

  /** Bit `i` of the words. */
  predicate Bit(src: seq<bv32>, i: nat)
    requires i < 32 * |src|
  {
    WordBit(src[i / 32], i % 32)
  }

  function Bits(src: seq<bv32>): (bits: seq<bool>)
    ensures |bits| == 32 * |src|
  {
    seq(32 * |src|, i requires 0 <= i < 32 * |src| => Bit(src, i))
  }

  /** Bit `m` of the low seven of a byte, most significant first. */
  function Mask(m: nat): bv8
    requires m < 7
  {
    match m
    case 0 => 0x40
    case 1 => 0x20
    case 2 => 0x10
    case 3 => 0x08
    case 4 => 0x04
    case 5 => 0x02
    case _ => 0x01
  }

  lemma MaskIsShift(m: nat)
    requires m < 7
    ensures Mask(m) == 1 << (6 - m)
  {
  }

  /** The first `k` bits from bit `i` on, at the top of the low seven bits of a byte. */
  function Group(bits: seq<bool>, i: nat, k: nat): bv8
    requires k <= 7 && i + k <= |bits|
  {
    if k == 0 then 0 else Group(bits, i, k - 1) | if bits[i + k - 1] then Mask(k - 1) else 0
  }

  lemma MasksApart(m: nat, n: nat)
    requires m < 7 && n < 7
    ensures Mask(m) & Mask(n) == (if m == n then Mask(m) else 0) && Mask(m) != 0
  {
  }

  lemma Distribute(x: bv8, y: bv8, z: bv8)
    ensures (x | y) & z == (x & z) | (y & z)
  {
  }

  /** Each bit of a group is the source bit that went in, and no other bit is set. */
  lemma {:induction false} GroupBit(bits: seq<bool>, i: nat, k: nat, m: nat)
    requires k <= 7 && i + k <= |bits| && m < 7
    ensures Group(bits, i, k) & Mask(m) == if m < k && bits[i + m] then Mask(m) else 0
  {
    if k == 0 {
      Zeros(Mask(m));
    } else {
      var g, last, z := Group(bits, i, k - 1), bits[i + k - 1], Mask(m);
      GroupBit(bits, i, k - 1, m);
      MasksApart(k - 1, m);
      Distribute(g, if last then Mask(k - 1) else 0, z);
      Zeros(g & z);
      Zeros(z);
    }
  }

  lemma Zeros(x: bv8)
    ensures x | 0 == x && 0 | x == x && 0 & x == 0
  {
  }

  /** What the receiver reads as bit `i`. */
  predicate Decoded(bytes: seq<bv8>, i: nat)
    requires i < 7 * |bytes|
  {
    (bytes[i / 7] - 0xa0) & Mask(i % 7) != 0
  }

  lemma Unshift(x: bv8)
    ensures x + 0xa0 - 0xa0 == x
  {
  }

  lemma GroupRead(bits: seq<bool>, i: nat, m: nat, byte: bv8)
    requires i + 7 <= |bits| && m < 7 && byte == Group(bits, i, 7) + 0xa0
    ensures (byte - 0xa0) & Mask(m) != 0 <==> bits[i + m]
  {
    Unshift(Group(bits, i, 7));
    GroupBit(bits, i, 7, m);
    MasksApart(m, m);
  }

  lemma Position(i: nat, j: nat, m: nat)
    requires i == 7 * j + m && m < 7
    ensures i % 7 == m && i / 7 == j
  {
  }

  /** A full byte has the offset. */
  function Offset(byte: bv8, k: nat): bv8 {
    if k == 7 then byte + 0xa0 else byte
  }

  /** A byte that held `was`, with the first `k` bits of its group. */
  function Packed(bits: seq<bool>, i: nat, k: nat, was: bv8): bv8
    requires k <= 7 && i + k <= |bits|
  {
    Offset(was | Group(bits, i, k), k)
  }

  method Shifted(place: nat) returns (mask: bv8)
    requires place < 7
    ensures mask == Mask(place)
  {
    MaskIsShift(place);
    mask := 1 << (6 - place);
  }

  /** One bit into the byte that is being filled: `was` together with the bits `g` of its group. */
  method PutBit(byte: bv8, bit: bool, place: nat, ghost g: bv8, ghost next: bv8, ghost was: bv8)
    returns (filled: bv8, full: bool)
    requires place < 7 && byte == was | g && next == g | (if bit then Mask(place) else 0)
    ensures filled == Offset(was | next, place + 1) && (full <==> place == 6)
  {
    var mask := Shifted(place);
    filled, full := PutMask(byte, bit, place, mask, g, next, was);
  }

  method PutMask(byte: bv8, bit: bool, place: nat, mask: bv8, ghost g: bv8, ghost next: bv8, ghost was: bv8)
    returns (filled: bv8, full: bool)
    requires place < 7 && byte == was | g && next == g | (if bit then mask else 0)
    ensures filled == Offset(was | next, place + 1) && (full <==> place == 6)
  {
    OrStep(g, next, bit, mask, was);
    filled := byte;
    if bit {
      filled := filled | mask;
    }
    full := place == 6;
    if full {
      filled := filled + 0xa0;
    }
  }

  lemma OrStep(g: bv8, next: bv8, bit: bool, mask: bv8, was: bv8)
    requires next == g | if bit then mask else 0
    ensures was | next == if bit then (was | g) | mask else was | g
  {
    if bit {
      OrOr(was, g, mask);
    } else {
      Zeros(g);
    }
  }

  lemma OrOr(x: bv8, y: bv8, z: bv8)
    ensures (x | y) | z == x | (y | z)
  {
  }

  method TestBit(src: array<bv32>, iComm: nat) returns (bit: bool)
    requires iComm < 32 * src.Length
    ensures bit == Bits(src[..])[iComm]
  {
    assert Bits(src[..])[iComm] == Bit(src[..], iComm);
    bit := WordBit(src[iComm / 32], iComm % 32);
  }

  lemma GroupStep(bits: seq<bool>, i: nat, m: nat) returns (g: bv8, next: bv8)
    requires m < 7 && i + m < |bits|
    ensures g == Group(bits, i, m) && next == Group(bits, i, m + 1)
    ensures next == g | if bits[i + m] then Mask(m) else 0
  {
    g, next := Group(bits, i, m), Group(bits, i, m + 1);
  }

  /** A bit of a group, into the byte that is being filled. */
  method NextBit(byte: bv8, bit: bool, iComm: nat, ghost bits: seq<bool>, ghost i: nat, ghost m: nat, ghost was: bv8)
    returns (filled: bv8, full: bool)
    requires iComm % 7 == m && i + m < |bits| && bit == bits[i + m] && byte == was | Group(bits, i, m)
    ensures filled == Offset(was | Group(bits, i, m + 1), m + 1) && (full <==> m == 6)
  {
    ghost var g, next := GroupStep(bits, i, m);
    var place := iComm % 7;
    filled, full := PutBit(byte, bit, place, g, next, was);
    assert filled == Offset(was | next, m + 1);
  }

  /** The next source bit, wherever the byte stands. */
  method AddBit(byte: bv8, src: array<bv32>, iComm: nat, ghost bits: seq<bool>, ghost j: nat, ghost m: nat, ghost was: bv8)
    returns (filled: bv8, full: bool)
    requires iComm == 7 * j + m < 32 * src.Length && m < 7 && bits == Bits(src[..]) && byte == Packed(bits, 7 * j, m, was)
    ensures filled == Packed(bits, 7 * j, m + 1, was) && (full <==> m == 6)
  {
    var bit := TestBit(src, iComm);
    Position(iComm, j, m);
    filled, full := NextBit(byte, bit, iComm, bits, 7 * j, m, was);
  }

  /** The repacking loop of `CommMsgPro`: full groups get the offset, the last partial one does not. */
  method CommMsgPro(dst: array<bv8>, src: array<bv32>, cnt: int) returns (jComm: nat)
    requires cnt <= 32 * src.Length && cnt <= 7 * dst.Length
    modifies dst
    ensures jComm == if cnt <= 0 then 0 else cnt / 7
    ensures forall p | 0 <= p < jComm :: dst[p] == Packed(Bits(src[..]), 7 * p, 7, old(dst[p]))
    ensures 0 < cnt && jComm < dst.Length ==> dst[jComm] == Packed(Bits(src[..]), 7 * jComm, cnt % 7, old(dst[jComm]))
    ensures forall p | jComm < p < dst.Length :: dst[p] == old(dst[p])
  {
    ghost var bits := Bits(src[..]);
    ghost var was := dst[..];
    ghost var m := 0;
    var iComm := 0;
    jComm := 0;
    while iComm < cnt
      invariant iComm == 7 * jComm + m && m < 7 && (iComm <= cnt || iComm == 0) && jComm <= dst.Length
      invariant bits == Bits(src[..])
      invariant forall p | 0 <= p < jComm :: dst[p] == Packed(bits, 7 * p, 7, was[p])
      invariant jComm < dst.Length ==> (0 < cnt ==> dst[jComm] == Packed(bits, 7 * jComm, m, was[jComm]))
      invariant forall p | jComm < p < dst.Length :: dst[p] == was[p]
    {
      var byte, full := AddBit(dst[jComm], src, iComm, bits, jComm, m, was[jComm]);
      dst[jComm] := byte;
      m := m + 1;
      if full {
        jComm := jComm + 1;
        m := 0;
      }
      iComm := iComm + 1;
    }
    Position(iComm, jComm, m);
  }

  /** Taking the offset off again recovers every bit of every full group, when the bytes
      were zero before. */
  lemma RepackIsLossless(bits: seq<bool>, bytes: seq<bv8>, i: nat)
    requires i < 7 * |bytes| <= |bits|
    requires forall j | 0 <= j < |bytes| :: bytes[j] == Packed(bits, 7 * j, 7, 0)
    ensures Decoded(bytes, i) <==> bits[i]
  {
    var j, m := i / 7, i % 7;
    assert i == 7 * j + m;
    Zeros(Group(bits, 7 * j, 7));
    GroupRead(bits, 7 * j, m, bytes[j]);
  }
}
