/** The text that section 7.19.6.1 of ISO C99 asks for, and exactly when the console prints it. */
module C99 {
  import opened Numerals
  import opened Div64
  import opened Layout
  import opened CText
  import opened Format

  // The text of the standard

  const SMALL_DIGITS := "0123456789abcdef"
  const LARGE_DIGITS := "0123456789ABCDEF"

  /** The digits of a number, with the letters of the conversion. */
  function Numeral(n: nat, b: Base, small: bool): (r: seq<char>)
    ensures r != ""
  {
    (if n < b then "" else Numeral(Over(n, b), b, small)) + [(if small then SMALL_DIGITS else LARGE_DIGITS)[Mod(n, b)]]
  }

  /** A signed conversion has a minus for a negative number; otherwise the flags ask for a plus or a blank. */
  function StandardSign(x: int, f: Flags): seq<char> {
    if !f.sign then "" else if x < 0 then "-" else if f.plus then "+" else if f.space then " " else ""
  }

  /** At least `precision` digits, one if no precision is given; zero with the precision zero has none. */
  function StandardDigits(n: nat, b: Base, precision: int, small: bool): seq<char> {
    if n == 0 && precision == 0 then ""
    else Repeat('0', precision - |Numeral(n, b, small)|) + Numeral(n, b, small)
  }

  /** For base 8 the flag `#` adds a zero only if the first digit is not one. */
  function Alternative(digits: seq<char>, b: Base, f: Flags): seq<char> {
    if f.special && b == 8 && (digits == "" || digits[0] != '0') then "0" + digits else digits
  }

  /** For base 16 the flag `#` puts the prefix in front of a number that is not zero. */
  function StandardPrefix(n: nat, b: Base, f: Flags): seq<char> {
    if f.special && b == 16 && n != 0 then (if f.small then "0x" else "0X") else ""
  }

  /** Zeros fill the field only without a precision and without the flag `-`. For base 10 the standard leaves the
      flag `#` undefined; here it does nothing. */
  function StandardText(x: int, b: Base, width: int, precision: int, f: Flags): seq<char> {
    var n := if x < 0 then -x else x;
    var head := StandardSign(x, f) + StandardPrefix(n, b, f);
    var digits := Alternative(StandardDigits(n, b, precision, f.small), b, f);
    var zeros := if f.zeropad && !f.left && precision < 0 then width - |head| - |digits| else 0;
    Justified(head + (Repeat('0', zeros) + digits), width, f.left)
  }

  /** What a 64-bit number stands for. */
  function NumberValue(num: nat, signed: bool): int {
    if signed && num >= 0x8000_0000_0000_0000 then num - 0x1_0000_0000_0000_0000 else num
  }

  // The same with the layout of the console

  function LaidText(num: nat, b: Base, width: int, precision: int, f: Flags): seq<char>
    requires num < TWO_64
  {
    var n := Magnitude(num, f);
    var head := SignText(num, f) + StandardPrefix(n, b, f);
    var digits := Alternative(StandardDigits(n, b, precision, f.small), b, f);
    Lay(head, digits, width - |head| - |digits|, f.(zeropad := f.zeropad && precision < 0))
  }

  lemma DigitIs(d: nat, small: bool)
    requires d < 16
    ensures DigitChar(d, small) == (if small then SMALL_DIGITS else LARGE_DIGITS)[d]
  {
  }

  lemma PrintedMore(ds: seq<nat>, d: nat, rest: seq<nat>, small: bool)
    requires d < 16 && InRange(rest) && ds == [d] + rest
    ensures InRange(ds) && Printed(ds, small) == Printed(rest, small) + [DigitChar(d, small)]
  {
    assert ds[1..] == rest;
  }

  lemma DigitTextMore(n: nat, b: Base, small: bool)
    ensures DigitText(n, b, small) ==
            (if n < b then "" else DigitText(Over(n, b), b, small)) + [DigitChar(Mod(n, b), small)]
  {
    DigitsAreCanonical(n, b);
    if n >= b {
      DigitsAreCanonical(Over(n, b), b);
      PrintedMore(Digits(n, b), Mod(n, b), Digits(Over(n, b), b), small);
    } else {
      PrintedMore(Digits(n, b), n, [], small);
    }
  }

  lemma {:induction false} NumeralIs(n: nat, b: Base, small: bool)
    ensures DigitText(n, b, small) == Numeral(n, b, small)
    decreases n
  {
    DigitIs(Mod(n, b), small);
    DigitTextMore(n, b, small);
    if n >= b {
      NumeralIs(Over(n, b), b, small);
    }
  }

  lemma LayJustifies(head: seq<char>, digits: seq<char>, width: int, f: Flags)
    ensures var room := width - |head| - |digits|;
            Lay(head, digits, room, f) ==
            Justified(head + (Repeat('0', if f.zeropad && !f.left then room else 0) + digits), width, f.left)
  {
    var room := width - |head| - |digits|;
    var zeros := Repeat('0', if f.zeropad && !f.left then room else 0);
    assert head + (zeros + digits) == head + zeros + digits;
    if !f.zeropad || f.left {
      assert zeros == "" && head + zeros + digits == head + digits;
    } else {
      assert Repeat(' ', width - |head + zeros + digits|) == "";
    }
  }

  lemma SignIs(num: nat, f: Flags)
    requires num < TWO_64
    ensures var x := NumberValue(num, f.sign);
            SignText(num, f) == StandardSign(x, f) && Magnitude(num, f) == if x < 0 then -x else x
  {
  }

  lemma PartsJustify(head: seq<char>, digits: seq<char>, width: int, precision: int, f: Flags)
    ensures var zeros := if f.zeropad && !f.left && precision < 0 then width - |head| - |digits| else 0;
            Justified(head + (Repeat('0', zeros) + digits), width, f.left) ==
            Lay(head, digits, width - |head| - |digits|, f.(zeropad := f.zeropad && precision < 0))
  {
    LayJustifies(head, digits, width, f.(zeropad := f.zeropad && precision < 0));
  }

  lemma StandardIsLaid(num: nat, b: Base, width: int, precision: int, f: Flags)
    requires num < TWO_64
    ensures StandardText(NumberValue(num, f.sign), b, width, precision, f) == LaidText(num, b, width, precision, f)
  {
    SignIs(num, f);
    var n := Magnitude(num, f);
    PartsJustify(SignText(num, f) + StandardPrefix(n, b, f), Alternative(StandardDigits(n, b, precision, f.small), b, f),
                 width, precision, f);
  }

  // When the console prints it

  /** The prefix zero of base 8 is one too many. */
  predicate ZeroTwice(n: nat, b: Base, precision: int, f: Flags) {
    f.special && b == 8 && (n == 0 || precision > |Digits(n, b)|)
  }

  /** The four ways to differ: a digit for zero where none is asked for, the prefix of base 16 before zero, the
      prefix of base 8 before another zero, and zeros instead of blanks in front of a precision. The third does
      not show when zeros fill the width anyway. */
  predicate Conforms(x: int, b: Base, width: int, precision: int, f: Flags) {
    var n := if x < 0 then -x else x;
    var sign := |StandardSign(x, f)|;
    var prefix := if !f.special || b == 10 then 0 else if b == 8 then 1 else 2;
    && !(n == 0 && precision == 0)
    && !(n == 0 && f.special && b == 16)
    && (ZeroTwice(n, b, precision, f) ==> precision < 0 && f.zeropad && !f.left && width > sign + 1)
    && (f.zeropad && !f.left && precision >= 0 ==> width <= sign + prefix + Max(precision, |Digits(n, b)|))
  }

  /** The room that the console has to fill. */
  function Room(num: nat, b: Base, width: int, precision: int, f: Flags): int
    requires num < TWO_64
  {
    width - |SignText(num, f)| - |PrefixText(b, f)| - Max(precision, |Digits(Magnitude(num, f), b)|)
  }

  // Counting characters

  function Count(s: seq<char>, c: char): nat {
    multiset(s)[c]
  }

  lemma {:induction false} CountRepeat(c: char, n: nat, d: char)
    ensures Count(Repeat(c, n), d) == if c == d then n else 0
    decreases n
  {
    if n > 0 {
      CountRepeat(c, n - 1, d);
      assert Repeat(c, n) == Repeat(c, n - 1) + [c];
    }
  }

  lemma CountPadding(c: char, n: int, d: char)
    ensures Count(Repeat(c, n), d) == if c == d then Max(n, 0) else 0
  {
    assert Repeat(c, n) == Repeat(c, Max(n, 0));
    CountRepeat(c, Max(n, 0), d);
  }

  /** How often a character that is not a blank stands in a laid-out number. */
  lemma CountLay(head: seq<char>, number: seq<char>, pad: int, f: Flags, c: char)
    requires c != ' '
    ensures Count(Lay(head, number, pad, f), c) ==
            Count(head, c) + Count(number, c) + if c == '0' && f.zeropad && !f.left then Max(pad, 0) else 0
  {
    CountPadding(' ', pad, c);
    CountPadding('0', pad, c);
  }

  lemma ZeroDigits(b: Base, small: bool)
    ensures DigitText(0, b, small) == "0" && Digits(0, b) == [0]
  {
    assert [0 as nat][1..] == [];
    assert Printed([], small) == [];
    assert Printed([0], small) == [DigitChar(0, small)];
  }

  // The layout with and without zeros

  /** Zeros instead of blanks make a difference as soon as there is room. */
  lemma ZerosShow(head: seq<char>, number: seq<char>, pad: int, f: Flags)
    requires f.zeropad && !f.left
    ensures Lay(head, number, pad, f) == Lay(head, number, pad, f.(zeropad := false)) <==> pad <= 0
  {
    if pad > 0 {
      CountLay(head, number, pad, f, '0');
      CountLay(head, number, pad, f.(zeropad := false), '0');
    } else {
      assert Repeat(' ', pad) == "" && Repeat('0', pad) == "";
      assert head + "" + number == "" + head + number;
    }
  }

  lemma ZerosMove(pad: int, digits: seq<char>)
    ensures "0" + Repeat('0', pad) + digits == Repeat('0', pad) + ("0" + digits)
  {
  }

  /** A zero may belong to the prefix or to the number. */
  lemma ZeroMoves(sign: seq<char>, digits: seq<char>, pad: int, f: Flags)
    ensures Lay(sign + "0", digits, pad, f) == Lay(sign, "0" + digits, pad, f)
  {
    if f.left {
      assert sign + "0" + digits == sign + ("0" + digits);
    } else if f.zeropad {
      ZerosMove(pad, digits);
      assert sign + "0" + Repeat('0', pad) + digits == sign + ("0" + Repeat('0', pad) + digits);
      assert sign + Repeat('0', pad) + ("0" + digits) == sign + (Repeat('0', pad) + ("0" + digits));
    } else {
      assert Repeat(' ', pad) + (sign + "0") + digits == Repeat(' ', pad) + sign + ("0" + digits);
    }
  }

  function Padded(digits: seq<char>, precision: int): seq<char> {
    Repeat('0', precision - |digits|) + digits
  }

  lemma NumberParts(num: nat, b: Base, width: int, precision: int, f: Flags, sign: seq<char>, number: seq<char>)
    requires num < TWO_64 && sign == SignText(num, f)
    requires number == Padded(DigitText(Magnitude(num, f), b, f.small), precision)
    ensures NumberText(num, b, width, precision, f) ==
            Lay(sign + PrefixText(b, f), number, Room(num, b, width, precision, f), f)
    ensures Room(num, b, width, precision, f) == width - |sign| - |PrefixText(b, f)| - |number|
  {
  }

  // No digits for zero

  /** The text of the standard from its digits. */
  lemma StandardParts(num: nat, b: Base, width: int, precision: int, f: Flags, sign: seq<char>, digits: seq<char>)
    requires num < TWO_64 && sign == SignText(num, f) && StandardPrefix(Magnitude(num, f), b, f) == ""
    requires digits == Alternative(StandardDigits(Magnitude(num, f), b, precision, f.small), b, f)
    ensures LaidText(num, b, width, precision, f) ==
            Lay(sign, digits, width - |sign| - |digits|, f.(zeropad := f.zeropad && precision < 0))
  {
    assert sign + "" == sign;
  }

  lemma OneMoreZero(sign: seq<char>, prefix: seq<char>, digits: seq<char>, pad: int, other: int, f: Flags, g: Flags)
    requires !g.zeropad && Count(prefix, '0') >= Count(digits, '0')
    ensures Lay(sign + prefix, "0", pad, f) != Lay(sign, digits, other, g)
  {
    CountLay(sign + prefix, "0", pad, f, '0');
    CountLay(sign, digits, other, g, '0');
    assert Count(sign + prefix, '0') == Count(sign, '0') + Count(prefix, '0');
    assert Count("0", '0') == 1;
  }

  lemma ZerosOfPrefix(b: Base, f: Flags)
    ensures Count(PrefixText(b, f), '0') >= Count(Alternative("", b, f), '0')
  {
  }

  lemma ZeroHasNone(num: nat, b: Base, width: int, f: Flags)
    requires num < TWO_64 && Magnitude(num, f) == 0
    ensures NumberText(num, b, width, 0, f) != LaidText(num, b, width, 0, f)
  {
    var sign, digits := SignText(num, f), Alternative("", b, f);
    assert Padded(DigitText(0, b, f.small), 0) == "0" by { ZeroDigits(b, f.small); }
    NumberParts(num, b, width, 0, f, sign, "0");
    StandardParts(num, b, width, 0, f, sign, digits);
    ZerosOfPrefix(b, f);
    OneMoreZero(sign, PrefixText(b, f), digits, Room(num, b, width, 0, f), width - |sign| - |digits|, f,
                f.(zeropad := f.zeropad && 0 < 0));
  }

  // The prefix of base 16 before zero

  lemma LetterShows(sign: seq<char>, prefix: seq<char>, number: seq<char>, pad: int, other: int, f: Flags, g: Flags, c: char)
    requires c != ' ' && c != '0' && Count(prefix, c) > 0
    ensures Lay(sign + prefix, number, pad, f) != Lay(sign, number, other, g)
  {
    CountLay(sign + prefix, number, pad, f, c);
    CountLay(sign, number, other, g, c);
    assert Count(sign + prefix, c) == Count(sign, c) + Count(prefix, c);
  }

  lemma LetterOfPrefix(f: Flags) returns (c: char)
    requires f.special
    ensures c != ' ' && c != '0' && Count(PrefixText(16, f), c) > 0
  {
    c := if f.small then 'x' else 'X';
  }

  lemma ZeroIsPadded(precision: int, f: Flags, number: seq<char>)
    requires precision != 0 && number == Padded(DigitText(0, 16, f.small), precision)
    ensures Alternative(StandardDigits(0, 16, precision, f.small), 16, f) == number
  {
    NumeralIs(0, 16, f.small);
  }

  lemma ZeroHasNoPrefix(num: nat, width: int, precision: int, f: Flags)
    requires num < TWO_64 && Magnitude(num, f) == 0 && f.special && precision != 0
    ensures NumberText(num, 16, width, precision, f) != LaidText(num, 16, width, precision, f)
  {
    var sign, number := SignText(num, f), Padded(DigitText(0, 16, f.small), precision);
    NumberParts(num, 16, width, precision, f, sign, number);
    ZeroIsPadded(precision, f, number);
    StandardParts(num, 16, width, precision, f, sign, number);
    var c := LetterOfPrefix(f);
    LetterShows(sign, PrefixText(16, f), number, Room(num, 16, width, precision, f), width - |sign| - |number|, f,
                f.(zeropad := f.zeropad && precision < 0), c);
  }

  // The prefix of base 8 before another zero

  lemma StartsWithZero(num: nat, precision: int, f: Flags, number: seq<char>)
    requires num < TWO_64 && ZeroTwice(Magnitude(num, f), 8, precision, f) && !(Magnitude(num, f) == 0 && precision == 0)
    requires number == Padded(DigitText(Magnitude(num, f), 8, f.small), precision)
    ensures number != "" && number[0] == '0'
    ensures Alternative(StandardDigits(Magnitude(num, f), 8, precision, f.small), 8, f) == number
  {
    ZeroDigits(8, f.small);
    NumeralIs(Magnitude(num, f), 8, f.small);
  }

  lemma OctalNumber(num: nat, width: int, precision: int, f: Flags, sign: seq<char>, number: seq<char>)
    requires num < TWO_64 && sign == SignText(num, f) && f.special
    requires number == Padded(DigitText(Magnitude(num, f), 8, f.small), precision)
    ensures NumberText(num, 8, width, precision, f) == Lay(sign + "0", number, width - |sign| - |number| - 1, f)
    ensures Room(num, 8, width, precision, f) == width - |sign| - |number| - 1
  {
    assert PrefixText(8, f) == "0";
    NumberParts(num, 8, width, precision, f, sign, number);
  }

  lemma OctalStandard(num: nat, width: int, precision: int, f: Flags, sign: seq<char>, number: seq<char>)
    requires num < TWO_64 && sign == SignText(num, f)
    requires ZeroTwice(Magnitude(num, f), 8, precision, f) && !(Magnitude(num, f) == 0 && precision == 0)
    requires number == Padded(DigitText(Magnitude(num, f), 8, f.small), precision)
    ensures LaidText(num, 8, width, precision, f) ==
            Lay(sign, number, width - |sign| - |number|, f.(zeropad := f.zeropad && precision < 0))
    ensures precision < 0 ==> number == "0"
  {
    StartsWithZero(num, precision, f, number);
    StandardParts(num, 8, width, precision, f, sign, number);
    if precision < 0 {
      ZeroDigits(8, f.small);
      assert number == "0";
    }
  }

  lemma ZeroOnce(num: nat, width: int, precision: int, f: Flags)
    requires num < TWO_64 && ZeroTwice(Magnitude(num, f), 8, precision, f) && !(Magnitude(num, f) == 0 && precision == 0)
    ensures NumberText(num, 8, width, precision, f) == LaidText(num, 8, width, precision, f) <==>
            precision < 0 && f.zeropad && !f.left && width > |SignText(num, f)| + 1
  {
    var sign, number := SignText(num, f), Padded(DigitText(Magnitude(num, f), 8, f.small), precision);
    OctalNumber(num, width, precision, f, sign, number);
    OctalStandard(num, width, precision, f, sign, number);
    ZeroOnceParts(sign, number, width - |sign| - |number|, f, f.(zeropad := f.zeropad && precision < 0), precision);
  }

  lemma ZeroOnceParts(sign: seq<char>, number: seq<char>, pad: int, f: Flags, g: Flags, precision: int)
    requires g == f.(zeropad := f.zeropad && precision < 0) && (precision < 0 ==> number == "0")
    ensures Lay(sign + "0", number, pad - 1, f) == Lay(sign, number, pad, g) <==>
            precision < 0 && f.zeropad && !f.left && pad > 0
  {
    if precision < 0 && f.zeropad && !f.left {
      assert |Lay(sign + "0", number, pad - 1, f)| == |sign| + 2 + Max(pad - 1, 0);
      assert |Lay(sign, number, pad, g)| == |sign| + 1 + Max(pad, 0);
      if pad > 0 {
        assert Repeat('0', pad) == "0" + Repeat('0', pad - 1);
        assert sign + "0" + Repeat('0', pad - 1) == sign + ("0" + Repeat('0', pad - 1));
      }
    } else {
      CountLay(sign + "0", number, pad - 1, f, '0');
      CountLay(sign, number, pad, g, '0');
    }
  }

  // All other numbers

  /** Otherwise only the zeros in front of a precision can differ. */
  lemma SameParts(num: nat, b: Base, width: int, precision: int, f: Flags, sign: seq<char>, number: seq<char>)
    requires num < TWO_64 && sign == SignText(num, f)
    requires number == Padded(DigitText(Magnitude(num, f), b, f.small), precision)
    requires !(Magnitude(num, f) == 0 && precision == 0) && !(Magnitude(num, f) == 0 && f.special && b == 16)
    requires !ZeroTwice(Magnitude(num, f), b, precision, f)
    ensures LaidText(num, b, width, precision, f) ==
            Lay(sign + PrefixText(b, f), number, Room(num, b, width, precision, f), f.(zeropad := f.zeropad && precision < 0))
  {
    if f.special && b == 8 {
      OctalParts(num, width, precision, f, sign, number);
    } else {
      PlainParts(num, b, width, precision, f, sign, number);
    }
  }

  lemma PlainDigits(n: nat, b: Base, precision: int, f: Flags, number: seq<char>)
    requires !(f.special && b == 8) && !(n == 0 && precision == 0) && !(n == 0 && f.special && b == 16)
    requires number == Padded(DigitText(n, b, f.small), precision)
    ensures Alternative(StandardDigits(n, b, precision, f.small), b, f) == number
    ensures StandardPrefix(n, b, f) == PrefixText(b, f)
  {
    NumeralIs(n, b, f.small);
  }

  lemma PlainParts(num: nat, b: Base, width: int, precision: int, f: Flags, sign: seq<char>, number: seq<char>)
    requires num < TWO_64 && sign == SignText(num, f) && !(f.special && b == 8)
    requires number == Padded(DigitText(Magnitude(num, f), b, f.small), precision)
    requires !(Magnitude(num, f) == 0 && precision == 0) && !(Magnitude(num, f) == 0 && f.special && b == 16)
    ensures LaidText(num, b, width, precision, f) ==
            Lay(sign + PrefixText(b, f), number, Room(num, b, width, precision, f), f.(zeropad := f.zeropad && precision < 0))
  {
    NumberParts(num, b, width, precision, f, sign, number);
    PlainDigits(Magnitude(num, f), b, precision, f, number);
  }

  lemma OctalDigits(n: nat, precision: int, f: Flags, number: seq<char>)
    requires f.special && n > 0 && number == Padded(DigitText(n, 8, f.small), precision)
    requires precision <= |Digits(n, 8)|
    ensures Alternative(StandardDigits(n, 8, precision, f.small), 8, f) == "0" + number
  {
    var digits := DigitText(n, 8, f.small);
    NumeralIs(n, 8, f.small);
    LeadingDigit(n, 8, f.small);
    assert Repeat('0', precision - |digits|) == "";
    assert "" + digits == digits;
  }

  lemma OctalParts(num: nat, width: int, precision: int, f: Flags, sign: seq<char>, number: seq<char>)
    requires num < TWO_64 && sign == SignText(num, f) && f.special && Magnitude(num, f) > 0
    requires number == Padded(DigitText(Magnitude(num, f), 8, f.small), precision)
    requires !ZeroTwice(Magnitude(num, f), 8, precision, f)
    ensures LaidText(num, 8, width, precision, f) ==
            Lay(sign + "0", number, Room(num, 8, width, precision, f), f.(zeropad := f.zeropad && precision < 0))
  {
    OctalDigits(Magnitude(num, f), precision, f, number);
    StandardParts(num, 8, width, precision, f, sign, "0" + number);
    OctalNumber(num, width, precision, f, sign, number);
    ZeroMoves(sign, number, width - |sign| - |number| - 1, f.(zeropad := f.zeropad && precision < 0));
  }

  lemma OthersConform(num: nat, b: Base, width: int, precision: int, f: Flags)
    requires num < TWO_64 && !(Magnitude(num, f) == 0 && precision == 0)
    requires !(Magnitude(num, f) == 0 && f.special && b == 16) && !ZeroTwice(Magnitude(num, f), b, precision, f)
    ensures NumberText(num, b, width, precision, f) == LaidText(num, b, width, precision, f) <==>
            (f.zeropad && !f.left && precision >= 0 ==> Room(num, b, width, precision, f) <= 0)
  {
    var sign, number := SignText(num, f), Padded(DigitText(Magnitude(num, f), b, f.small), precision);
    var head, room := sign + PrefixText(b, f), Room(num, b, width, precision, f);
    NumberParts(num, b, width, precision, f, sign, number);
    SameParts(num, b, width, precision, f, sign, number);
    ZerosMatter(head, number, room, f, precision);
  }

  lemma ZerosMatter(head: seq<char>, number: seq<char>, room: int, f: Flags, precision: int)
    ensures Lay(head, number, room, f) == Lay(head, number, room, f.(zeropad := f.zeropad && precision < 0)) <==>
            (f.zeropad && !f.left && precision >= 0 ==> room <= 0)
  {
    if f.zeropad && !f.left {
      ZerosShow(head, number, room, f);
      if precision < 0 {
        assert f.(zeropad := f.zeropad && precision < 0) == f;
      }
    }
}

  lemma LaidIff(num: nat, b: Base, width: int, precision: int, f: Flags, x: int)
    requires num < TWO_64 && x == NumberValue(num, f.sign)
    ensures NumberText(num, b, width, precision, f) == LaidText(num, b, width, precision, f) <==>
            Conforms(x, b, width, precision, f)
  {
    SignIs(num, f);
    var n := Magnitude(num, f);
    if n == 0 && precision == 0 {
      ZeroHasNone(num, b, width, f);
    } else if n == 0 && f.special && b == 16 {
      ZeroHasNoPrefix(num, width, precision, f);
    } else if ZeroTwice(n, b, precision, f) {
      ZeroOnce(num, width, precision, f);
    } else {
      OthersConform(num, b, width, precision, f);
    }
  }

  /** The console prints a number as the standard has it if and only if none of the four differences applies. */
  lemma ConformsIff(num: nat, b: Base, width: int, precision: int, f: Flags)
    requires num < TWO_64
    ensures var x := NumberValue(num, f.sign);
            NumberText(num, b, width, precision, f) == StandardText(x, b, width, precision, f) <==>
            Conforms(x, b, width, precision, f)
  {
    StandardIsLaid(num, b, width, precision, f);
    LaidIff(num, b, width, precision, f, NumberValue(num, f.sign));
  }

  // The operand

  /** The operand in the width that the qualifier stands for, as a two's complement number if it is signed. */
  function StandardOperand(bits: nat, qualifier: char, signed: bool): int {
    var size := if qualifier == 'L' then 0x1_0000_0000_0000_0000 else if qualifier == 'h' then 0x1_0000 else 0x1_0000_0000;
    if signed && bits % size >= size / 2 then bits % size - size else bits % size
  }

  /** `z` is never signed, and `t` always is. */
  lemma OperandIff(bits: nat, qualifier: char, signed: bool)
    ensures NumberValue(Fetched(bits, qualifier, signed), signed) == StandardOperand(bits, qualifier, signed) <==>
            OperandConforms(bits, qualifier, signed)
  {
  }

  predicate OperandConforms(bits: nat, qualifier: char, signed: bool) {
    bits % 0x1_0000_0000 >= 0x8000_0000 ==>
      !(signed && (qualifier == 'z' || qualifier == 'Z')) && !(!signed && qualifier == 't')
  }

  // The precision argument

  /** An argument of type `int`. */
  function IntArgument(args: Args, k: nat): int {
    StandardOperand(args(k).bits, NUL, true)
  }

  /** The precision as the standard has it: a negative argument is taken as if it were omitted. */
  function StandardPrecision(d: Directive, args: Args, k: nat): int {
    match d.precision
    case Absent => -1
    case Given(n) => n
    case FromArgument =>
      var p := IntArgument(args, if d.width.FromArgument? then k + 1 else k);
      if p < 0 then -1 else p
  }

  lemma PrecisionIff(d: Directive, args: Args, k: nat)
    ensures Precision(d, args, k) == StandardPrecision(d, args, k) <==>
            !(d.precision.FromArgument? && IntArgument(args, if d.width.FromArgument? then k + 1 else k) < 0)
  {
  }

  /** The console's zero for a negative precision argument does not matter for a number. */
  lemma ZeroPrecisionPrints(num: nat, b: Base, width: int, f: Flags)
    requires num < TWO_64
    ensures NumberText(num, b, width, 0, f) == NumberText(num, b, width, -1, f)
  {
    var digits := DigitText(Magnitude(num, f), b, f.small);
    assert Repeat('0', 0 - |digits|) + digits == Repeat('0', -1 - |digits|) + digits;
  }

  /** A number with a precision argument is printed as the standard has it if and only if it would be with that
      precision, or with none for a negative one. */
  lemma NumberArgumentIff(num: nat, b: Base, width: int, p: int, f: Flags)
    requires num < TWO_64
    ensures var standard, x := if p < 0 then -1 else p, NumberValue(num, f.sign);
            NumberText(num, b, width, Max(p, 0), f) == StandardText(x, b, width, standard, f) <==>
            Conforms(x, b, width, standard, f)
  {
    ZeroPrecisionPrints(num, b, width, f);
    ConformsIff(num, b, width, if p < 0 then -1 else p, f);
  }

  predicate AllBlank(s: seq<char>) {
    forall k | 0 <= k < |s| :: s[k] == ' '
  }

  /** A string with a negative precision argument is cut off altogether. That is right only for one that
      is not to be told from the blanks of its field. */
  lemma StringArgumentIff(str: Pointer, width: int, p: int, left: bool)
    ensures StringText(str, width, Max(p, 0), left) == StringText(str, width, if p < 0 then -1 else p, left) <==>
            p >= 0 || (AllBlank(Shown(str)) && |Shown(str)| <= Max(width, 0))
  {
    if p < 0 {
      BlankField(Shown(str), width, left);
    }
  }

  lemma BlankField(s: seq<char>, width: int, left: bool)
    ensures Justified(s[..0], width, left) == Repeat(' ', width)
    ensures Justified(s, width, left) == Repeat(' ', width) <==> AllBlank(s) && |s| <= Max(width, 0)
  {
    var t := Justified(s, width, left);
    if t == Repeat(' ', width) {
      assert |s| <= |t| == Max(width, 0);
      forall k | 0 <= k < |s| ensures s[k] == ' ' {
        assert t[if left then k else |t| - |s| + k] == s[k];
      }
    }
  }
}
