/** `number` and `string`: the loops that produce the laid-out text. */
module Printer {
  import opened Numerals
  import opened Div64
  import opened Decimal
  import opened Layout
  import opened CText

  const DIGITS := "0123456789ABCDEF"

  /** A digit, or another character below 128, or'ed with 0x20 when `small`. */
  function OrCase(c: char, small: bool): char
    requires c < 128 as char
  {
    if small then (((c as bv8) | 0x20) as char) else c
  }

  lemma OrCaseIsDigitChar(d: nat, small: bool)
    requires d < 16
    ensures OrCase(DIGITS[d], small) == DigitChar(d, small)
  {
  }

  /** Digits as characters, least significant first. */
  function Marks(ds: seq<nat>, small: bool): (r: seq<char>)
    requires InRange(ds)
    ensures |r| == |ds|
  {
    seq(|ds|, i requires 0 <= i < |ds| => DigitChar(ds[i], small))
  }

  lemma {:induction false} PrintedAt(ds: seq<nat>, small: bool, k: nat)
    requires InRange(ds) && k < |ds|
    ensures Printed(ds, small)[k] == DigitChar(ds[|ds| - 1 - k], small)
    decreases |ds|
  {
    if k < |ds| - 1 {
      PrintedAt(ds[1..], small, k);
    }
  }

  lemma InBase(n: nat, b: Base)
    ensures InRange(Digits(n, b))
  {
    DigitsAreCanonical(n, b);
  }

  lemma MarksCons(d: nat, ds: seq<nat>, small: bool)
    requires d < 16 && InRange(ds)
    ensures InRange([d] + ds) && Marks([d] + ds, small) == [DigitChar(d, small)] + Marks(ds, small)
  {
  }

  lemma MarksGrow(n: nat, b: Base, small: bool)
    ensures InRange(Digits(n, b)) && InRange(Digits(Over(n, b), b))
    ensures Marks(Digits(n, b), small) ==
            [DigitChar(Mod(n, b), small)] + (if n < b then [] else Marks(Digits(Over(n, b), b), small))
  {
    InBase(n, b);
    InBase(Over(n, b), b);
    if n < b {
      assert Digits(n, b) == [Mod(n, b)];
    } else {
      MarksCons(Mod(n, b), Digits(Over(n, b), b), small);
    }
  }

  lemma DecimalMarks(n: nat, small: bool)
    ensures InRange(Digits(n, 10)) && Text(n) == Marks(Digits(n, 10), small)
  {
    InBase(n, 10);
  }

  lemma LastOctal(q: nat, r: nat)
    requires r < 8
    ensures (8 * q + r) % 8 == r
  {
  }

  lemma LastHexadecimal(q: nat, r: nat)
    requires r < 16
    ensures (16 * q + r) % 16 == r
  {
  }

  /** The low byte, masked, is the low digit. */
  lemma LowByte(num: nat, b: Base)
    requires b != 10
    ensures Mod(num % 256, b) == Mod(num, b) < 16
  {
    var q, m := num / 256, num % 256;
    if b == 8 {
      LastOctal(32 * q + m / 8, m % 8);
    } else {
      LastHexadecimal(16 * q + m / 16, m % 16);
    }
  }

  lemma ShiftEnds(num: nat, b: Base)
    ensures Over(num, b) == 0 <==> num < b
  {
  }

  /** The digits of a number above zero in base 8 or 16, by masking and shifting. */
  method ShiftDigits(n: nat, b: Base, small: bool) returns (tmp: seq<char>)
    requires n > 0 && b != 10
    ensures InRange(Digits(n, b)) && tmp == Marks(Digits(n, b), small)
  {
    var num := n;
    tmp := [];
    InBase(n, b);
    ghost var all := Marks(Digits(n, b), small);
    var more := true;
    while more
      invariant InRange(Digits(num, b))
      invariant more <==> num > 0
      invariant all == tmp + (if more then Marks(Digits(num, b), small) else [])
      decreases num
    {
      var c;
      c, num := ShiftDigit(num, b, small, tmp, all);
      tmp := tmp + [c];
      more := num != 0;
    }
  }

  lemma ShiftStep(num: nat, b: Base, small: bool, tmp: seq<char>, all: seq<char>)
    requires num > 0 && InRange(Digits(num, b)) && all == tmp + Marks(Digits(num, b), small)
    ensures Over(num, b) < num && InRange(Digits(Over(num, b), b)) && Mod(num, b) < 16
    ensures all == (tmp + [DigitChar(Mod(num, b), small)])
                   + (if Over(num, b) > 0 then Marks(Digits(Over(num, b), b), small) else [])
  {
    MarksGrow(num, b, small);
    ShiftEnds(num, b);
    MarkInFront(tmp, DigitChar(Mod(num, b), small), if num < b then [] else Marks(Digits(Over(num, b), b), small));
  }

  lemma MarkInFront(tmp: seq<char>, c: char, rest: seq<char>)
    ensures tmp + ([c] + rest) == (tmp + [c]) + rest
  {
  }

  method ShiftDigit(num: nat, b: Base, small: bool, ghost tmp: seq<char>, ghost all: seq<char>) returns (c: char, rest: nat)
    requires num > 0 && b != 10 && InRange(Digits(num, b)) && all == tmp + Marks(Digits(num, b), small)
    ensures rest < num && InRange(Digits(rest, b))
    ensures all == (tmp + [c]) + (if rest > 0 then Marks(Digits(rest, b), small) else [])
  {
    ShiftStep(num, b, small, tmp, all);
    LowByte(num, b);
    OrCaseIsDigitChar(Mod(num, b), small);
    c := OrCase(DIGITS[Mod(num % 256, b)], small);
    rest := Over(num, b);
  }

  /** A padding loop, which counts the room down before it looks at it. */
  method Pad(buf: seq<char>, c: char, size: int) returns (out: seq<char>, rest: int)
    ensures out == buf + Repeat(c, size) && rest < 0
  {
    out := buf;
    rest := size - 1;
    while rest >= 0
      invariant rest >= -1 || rest == size - 1
      invariant out == buf + Repeat(c, size - 1 - rest)
    {
      out := out + [c];
      rest := rest - 1;
    }
  }

  method Backwards(buf: seq<char>, tmp: seq<char>, ghost text: seq<char>) returns (out: seq<char>)
    requires |tmp| == |text| && forall k | 0 <= k < |text| :: text[k] == tmp[|tmp| - 1 - k]
    ensures out == buf + text
  {
    var i := |tmp|;
    out := buf;
    i := i - 1;
    while i >= 0
      invariant -1 <= i < |tmp|
      invariant out == buf + text[..|tmp| - 1 - i]
    {
      out := out + [tmp[i]];
      i := i - 1;
    }
  }

  /** All digits, least significant first; zero has one. */
  method AllDigits(num: nat, b: Base, small: bool) returns (tmp: seq<char>)
    requires num < TWO_64
    ensures InRange(Digits(num, b)) && tmp == Marks(Digits(num, b), small)
  {
    if num == 0 {
      tmp := ['0'];
      MarksGrow(num, b, small);
    } else if b != 10 {
      tmp := ShiftDigits(num, b, small);
    } else {
      tmp := PutDec([], num as u64);
      DecimalMarks(num, small);
    }
  }

  lemma PrintedReversed(ds: seq<nat>, small: bool)
    requires InRange(ds)
    ensures forall k | 0 <= k < |ds| :: Printed(ds, small)[k] == Marks(ds, small)[|ds| - 1 - k]
  {
    forall k | 0 <= k < |ds| ensures Printed(ds, small)[k] == Marks(ds, small)[|ds| - 1 - k] {
      PrintedAt(ds, small, k);
    }
  }

  lemma Turned(num: nat, b: Base, small: bool)
    ensures InRange(Digits(num, b))
    ensures forall k | 0 <= k < |DigitText(num, b, small)| ::
              DigitText(num, b, small)[k] == Marks(Digits(num, b), small)[|Digits(num, b)| - 1 - k]
  {
    InBase(num, b);
    PrintedReversed(Digits(num, b), small);
  }

  /** The sign character if any, the magnitude, and the room left for it. */
  method TakeSign(num: nat, size: int, f: Flags) returns (sign: seq<char>, rest: nat, room: int)
    requires num < TWO_64
    ensures sign == SignText(num, f) && rest == Magnitude(num, f) && room == size - |sign|
  {
    sign, rest, room := [], num, size;
    if f.sign {
      if num >= 0x8000_0000_0000_0000 {
        sign := ['-'];
        rest := TWO_64 - num;
        room := room - 1;
      } else if f.plus {
        sign := ['+'];
        room := room - 1;
      } else if f.space {
        sign := [' '];
        room := room - 1;
      }
    }
  }

  lemma OrCaseX(small: bool)
    ensures OrCase('X', small) == if small then 'x' else 'X'
  {
  }

  method PutPrefix(buf: seq<char>, b: Base, f: Flags) returns (out: seq<char>)
    ensures out == buf + PrefixText(b, f)
  {
    out := buf;
    if f.special && b != 10 {
      out := out + ['0'];
      if b == 16 {
        OrCaseX(f.small);
        out := out + [OrCase('X', f.small)];
      }
    }
  }

  /** Room for what the prefix leaves. */
  method TakePrefix(size: int, b: Base, f: Flags) returns (room: int)
    ensures room == size - |PrefixText(b, f)|
  {
    room := size;
    if f.special && b != 10 {
      room := room - 1;
      if b == 16 {
        room := room - 1;
      }
    }
  }

  /** What the padding loops leave in front of, inside and behind a number makes its layout. */
  lemma Assembled(buf: seq<char>, sign: seq<char>, prefix: seq<char>, zeros: seq<char>, text: seq<char>, pad: int, f: Flags)
    ensures f.left ==> buf + sign + prefix + zeros + text + Repeat(' ', pad) == buf + Lay(sign + prefix, zeros + text, pad, f)
    ensures !f.left && f.zeropad ==>
              buf + sign + prefix + Repeat('0', pad) + zeros + text == buf + Lay(sign + prefix, zeros + text, pad, f)
    ensures !f.left && !f.zeropad ==>
              buf + Repeat(' ', pad) + sign + prefix + zeros + text == buf + Lay(sign + prefix, zeros + text, pad, f)
  {
  }

  /** The padding and the pieces of a number, in the order of the source. */
  method PutParts(buf: seq<char>, b: Base, sign: seq<char>, room: int, digits: int, tmp: seq<char>, f: Flags, ghost text: seq<char>)
    returns (out: seq<char>)
    requires |tmp| == |text| && forall k | 0 <= k < |text| :: text[k] == tmp[|tmp| - 1 - k]
    ensures out == buf + Lay(sign + PrefixText(b, f), Repeat('0', digits - |text|) + text, room - Max(digits, |tmp|), f)
  {
    var i, precision := |tmp|, digits;
    if i > precision {
      precision := i;
    }
    var size := room - precision;
    Assembled(buf, sign, PrefixText(b, f), Repeat('0', digits - |text|), text, size, f);
    out := buf;
    if !(f.zeropad || f.left) {
      out, size := Pad(out, ' ', size);
    }
    out := out + sign;
    out := PutPrefix(out, b, f);
    if !f.left {
      out, size := Pad(out, if f.zeropad then '0' else ' ', size);
    }
    out := PutDigits(out, precision, tmp, text);
    out, size := Pad(out, ' ', size);
  }

  /** More zeros and then the digits. */
  method PutDigits(buf: seq<char>, precision: int, tmp: seq<char>, ghost text: seq<char>) returns (out: seq<char>)
    requires |tmp| == |text| && forall k | 0 <= k < |text| :: text[k] == tmp[|tmp| - 1 - k]
    ensures out == buf + Repeat('0', precision - |text|) + text
  {
    var rest;
    out, rest := Pad(buf, '0', precision - |tmp|);
    out := Backwards(out, tmp, text);
  }

  /** `number`. */
  method Number(buf: seq<char>, num: nat, b: Base, width: int, digits: int, f: Flags) returns (out: seq<char>)
    requires num < TWO_64
    ensures out == buf + NumberText(num, b, width, digits, f)
  {
    var sign, magnitude, size := TakeSign(num, width, f);
    size := TakePrefix(size, b, f);
    var tmp := AllDigits(magnitude, b, f.small);
    ghost var text := DigitText(magnitude, b, f.small);
    Turned(magnitude, b, f.small);
    out := PutParts(buf, b, sign, size, digits, tmp, f, text);
  }

  /** `strnlen`, where a negative count is too large to matter. */
  method StrNLen(s: seq<char>, count: int) returns (n: nat)
    ensures n <= Length(s) && s[..n] == Cut(Contents(s), count)
  {
    var left := count;
    n := 0;
    while left != 0 && At(s, n) != NUL
      invariant n <= Length(s)
      invariant left == count - n && (count >= 0 ==> left >= 0)
      decreases Length(s) - n
    {
      left := left - 1;
      n := n + 1;
    }
  }

  method PutText(buf: seq<char>, s: seq<char>, len: nat) returns (out: seq<char>)
    requires len <= |s|
    ensures out == buf + s[..len]
  {
    var i := 0;
    out := buf;
    while i < len
      invariant 0 <= i <= len
      invariant out == buf + s[..i]
    {
      out := out + [s[i]];
      i := i + 1;
    }
  }

  method PutField(buf: seq<char>, s: seq<char>, len: nat, width: int, left: bool) returns (out: seq<char>)
    requires len <= |s|
    ensures out == buf + Justified(s[..len], width, left)
  {
    var room := width;
    out := buf;
    if !left {
      out, room := PadField(out, len, room);
    }
    out := PutText(out, s, len);
    out, room := PadField(out, len, room);
    Framed(buf, s[..len], width - len, left);
  }

  /** `string`. */
  method StringField(buf: seq<char>, str: Pointer, width: int, precision: int, left: bool) returns (out: seq<char>)
    ensures out == buf + StringText(str, width, precision, left)
  {
    var s := if str.Null? then "<NULL>" else str.text;
    NullShown(str, s);
    var len := StrNLen(s, precision);
    out := PutField(buf, s, len, width, left);
  }

  lemma NullShown(str: Pointer, s: seq<char>)
    requires s == if str.Null? then "<NULL>" else str.text
    ensures Contents(s) == Shown(str)
  {
    if str.Null? {
      assert Length(s) == |s|;
    }
  }

  /** The padding loop of strings, which counts the width down after it has looked at it. */
  method PadField(buf: seq<char>, len: nat, width: int) returns (out: seq<char>, rest: int)
    ensures out == buf + Repeat(' ', width - len) && rest < len
  {
    var w := width;
    out := buf;
    while len < w
      invariant w <= width && (w >= len || w == width)
      invariant out == buf + Repeat(' ', width - Max(len, w))
    {
      out := out + [' '];
      w := w - 1;
    }
    rest := w - 1;
    assert w <= len;
    assert Repeat(' ', width - Max(len, w)) == Repeat(' ', width - len);
  }

  lemma Framed(buf: seq<char>, text: seq<char>, pad: int, left: bool)
    ensures left ==> buf + text + Repeat(' ', pad) == buf + (text + Repeat(' ', pad))
    ensures !left ==> buf + Repeat(' ', pad) + text == buf + (Repeat(' ', pad) + text)
  {
  }
}
