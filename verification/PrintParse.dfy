/** A printed number is read back as itself, and when it is not. */
module PrintParse {
  import opened Numerals
  import opened Div64
  import opened Layout
  import opened CText
  import opened Strtoul

  lemma DigitCharReads(d: nat, b: Base, small: bool)
    requires d < b
    ensures IsIn(DigitChar(d, small), b) && DigitOf(DigitChar(d, small)) == d
  {
  }

  lemma HornerMore(t: seq<char>, c: char, b: Base)
    requires AllIn(t, b) && IsIn(c, b)
    ensures AllIn(t + [c], b) && Horner(t + [c], b) == Times(b, Horner(t, b)) + DigitOf(c)
  {
    var s := t + [c];
    assert s[..|s| - 1] == t && s[|s| - 1] == c;
    assert Horner(t, b) * b == Times(b, Horner(t, b));
  }

  /** Digits in printing order denote the value of the digits. */
  lemma {:induction false} HornerPrinted(ds: seq<nat>, b: Base, small: bool)
    requires forall i | 0 <= i < |ds| :: ds[i] < b
    ensures InRange(ds) && AllIn(Printed(ds, small), b) && Horner(Printed(ds, small), b) == Value(ds, b)
    decreases |ds|
  {
    if ds != [] {
      HornerPrinted(ds[1..], b, small);
      DigitCharReads(ds[0], b, small);
      HornerMore(Printed(ds[1..], small), DigitChar(ds[0], small), b);
    }
  }

  /** Zeros in front change nothing. */
  lemma {:induction false} HornerZeros(z: int, s: seq<char>, b: Base)
    requires AllIn(s, b)
    ensures AllIn(Repeat('0', z) + s, b) && Horner(Repeat('0', z) + s, b) == Horner(s, b)
    decreases z
  {
    if z <= 0 {
      assert Repeat('0', z) + s == s;
    } else {
      var t := ['0'] + s;
      assert t[1..] == s;
      LeadingZero(t, b);
      HornerZeros(z - 1, t, b);
      assert Repeat('0', z - 1) + t == Repeat('0', z) + s;
    }
  }

  /** The digits of a printed number with the zeros in front of them, an octal prefix among these. */
  function Body(num: nat, b: Base, z: nat, f: Flags): seq<char> {
    Repeat('0', z + if f.special && b == 8 then 1 else 0) + DigitText(num, b, f.small)
  }

  lemma BodyReads(num: nat, b: Base, z: nat, f: Flags)
    ensures var body := Body(num, b, z, f);
            body != [] && AllIn(body, b) && Horner(body, b) == num
  {
    DigitsAreCanonical(num, b);
    HornerPrinted(Digits(num, b), b, f.small);
    HornerZeros(z + if f.special && b == 8 then 1 else 0, DigitText(num, b, f.small), b);
  }

  /** The hexadecimal prefix. */
  function HexPrefix(b: Base, f: Flags): seq<char> {
    if f.special && b == 16 then (if f.small then "0x" else "0X") else ""
  }

  /** Without blanks in front, a layout is its head, zeros, the number and blanks. */
  lemma LayShape(head: seq<char>, number: seq<char>, pad: int, f: Flags) returns (z: nat, p: int)
    requires Lay(head, number, pad, f) != [] && Lay(head, number, pad, f)[0] != ' '
    ensures Lay(head, number, pad, f) == head + Repeat('0', z) + number + Repeat(' ', p)
  {
    if f.left {
      z, p := 0, pad;
      assert head + Repeat('0', 0) == head;
    } else if f.zeropad {
      z, p := Max(pad, 0), 0;
      assert Repeat('0', pad) == Repeat('0', z);
      assert head + Repeat('0', z) + number + Repeat(' ', 0) == head + Repeat('0', z) + number;
    } else {
      z, p := 0, 0;
      assert pad <= 0 by { NotPadded(head + number, pad); }
      Unpadded(head, number, pad);
    }
  }

  lemma NotPadded(text: seq<char>, pad: int)
    ensures pad > 0 ==> (Repeat(' ', pad) + text)[0] == ' '
  {
  }

  lemma Unpadded(head: seq<char>, number: seq<char>, pad: int)
    requires pad <= 0
    ensures Repeat(' ', pad) + head + number == head + Repeat('0', 0) + number + Repeat(' ', 0)
  {
    assert Repeat(' ', pad) + head == head == head + Repeat('0', 0);
  }

  lemma Zeros(a: nat, b: nat, rest: seq<char>)
    ensures Repeat('0', a) + (Repeat('0', b) + rest) == Repeat('0', a + b) + rest
  {
  }

  /** An octal prefix is one more zero. */
  lemma PrefixIsZero(b: Base, z: nat, digits: seq<char>, f: Flags)
    ensures PrefixText(b, f) + Repeat('0', z) + digits ==
            HexPrefix(b, f) + (Repeat('0', z + if f.special && b == 8 then 1 else 0) + digits)
  {
    if f.special && b == 8 {
      Zeros(1, z, digits);
      assert "0" == Repeat('0', 1);
      assert PrefixText(b, f) + Repeat('0', z) + digits == Repeat('0', 1) + (Repeat('0', z) + digits);
    } else {
      assert PrefixText(b, f) == HexPrefix(b, f);
    }
  }

  lemma ShapeOf(text: seq<char>, b: Base, digits: seq<char>, precision: int, room: int, f: Flags) returns (z: nat, p: int)
    requires text != [] && text[0] != ' '
    requires text == Lay(PrefixText(b, f), Repeat('0', precision - |digits|) + digits, room, f)
    ensures text == HexPrefix(b, f) + (Repeat('0', z + if f.special && b == 8 then 1 else 0) + digits) + Repeat(' ', p)
  {
    var k := precision - |digits|;
    z, p := LayShape(PrefixText(b, f), Repeat('0', k) + digits, room, f);
    Collect(PrefixText(b, f), z, k, digits, Repeat(' ', p));
    z := z + Max(k, 0);
    PrefixIsZero(b, z, digits, f);
  }

  /** Printed without a sign and without blanks in front, a number is a prefix, digits and blanks. */
  lemma Shape(num: nat, b: Base, width: int, precision: int, f: Flags) returns (z: nat, p: int)
    requires num < TWO_64 && SignText(num, f) == ""
    requires var text := NumberText(num, b, width, precision, f); text != [] && text[0] != ' '
    ensures NumberText(num, b, width, precision, f) == HexPrefix(b, f) + Body(num, b, z, f) + Repeat(' ', p)
  {
    var digits := DigitText(num, b, f.small);
    var prefix := PrefixText(b, f);
    assert SignText(num, f) + prefix == prefix;
    var room := width - |prefix| - Max(precision, |digits|);
    z, p := ShapeOf(NumberText(num, b, width, precision, f), b, digits, precision, room, f);
  }

  lemma Collect(head: seq<char>, a: nat, b: int, digits: seq<char>, tail: seq<char>)
    ensures head + Repeat('0', a) + (Repeat('0', b) + digits) + tail == head + Repeat('0', a + Max(b, 0)) + digits + tail
  {
    assert Repeat('0', b) == Repeat('0', Max(b, 0));
    Zeros(a, Max(b, 0), digits);
    assert head + Repeat('0', a) + (Repeat('0', b) + digits) == head + (Repeat('0', a) + (Repeat('0', b) + digits));
  }

  /** How far the text goes before it is padded. */
  function FirstBlank(s: seq<char>): (n: nat)
    ensures n <= |s|
  {
    if s == [] || s[0] == ' ' then 0 else 1 + FirstBlank(s[1..])
  }

  lemma {:induction false} FirstBlankAt(s: seq<char>, tail: seq<char>)
    requires Ended(tail) && forall k | 0 <= k < |s| :: s[k] != ' '
    ensures FirstBlank(s + tail) == |s|
    decreases |s|
  {
    if s == [] {
      assert s + tail == tail;
    } else {
      assert (s + tail)[1..] == s[1..] + tail;
      FirstBlankAt(s[1..], tail);
    }
  }

  /** Prefix and digits of a printed number are what comes before its first blank. */
  lemma Extent(num: nat, b: Base, z: nat, p: int, f: Flags)
    ensures FirstBlank(HexPrefix(b, f) + Body(num, b, z, f) + Repeat(' ', p)) == |HexPrefix(b, f)| + |Body(num, b, z, f)|
  {
    BodyReads(num, b, z, f);
    NoBlanks(HexPrefix(b, f), Body(num, b, z, f), b);
    FirstBlankAt(HexPrefix(b, f) + Body(num, b, z, f), Repeat(' ', p));
  }

  lemma NoBlanks(prefix: seq<char>, body: seq<char>, b: Base)
    requires AllIn(body, b) && (prefix == "" || prefix == "0x" || prefix == "0X")
    ensures forall k | 0 <= k < |prefix + body| :: (prefix + body)[k] != ' '
  {
    forall k | 0 <= k < |prefix + body| ensures (prefix + body)[k] != ' ' {
      if k >= |prefix| {
        assert IsIn(body[k - |prefix|], b);
      }
    }
  }

  lemma Recovered(text: seq<char>, num: nat, b: Base, body: seq<char>, tail: seq<char>, f: Flags)
    requires num < TWO_32 && text == HexPrefix(b, f) + body + tail
    requires body != [] && AllIn(body, b) && Horner(body, b) == num && Ended(tail)
    ensures f.special && b == 16 && !f.small ==> Parse(text, b) == (0, 1)
    ensures !(f.special && b == 16 && !f.small) ==> Parse(text, b) == (num, |HexPrefix(b, f)| + |body|)
  {
    if f.special && b == 16 {
      if f.small {
        assert text == "0x" + body + tail;
        ParsesHex(body, tail, 16, num);
        SmallRest(num);
      } else {
        assert text == "0X" + body + tail;
        CapitalStops(body, tail);
      }
    } else {
      assert HexPrefix(b, f) == "" && "" + body == body;
      assert text == body + tail;
      ParsesBody(body, tail, b, num);
      SmallRest(num);
    }
  }

  /** Print, then parse in the same base: number and length come back, except behind a capital `0X`. */
  lemma PrintThenParse(num: nat, b: Base, width: int, precision: int, f: Flags)
    requires num < TWO_32 && SignText(num, f) == ""
    requires var text := NumberText(num, b, width, precision, f); text != [] && text[0] != ' '
    ensures var text := NumberText(num, b, width, precision, f);
            Parse(text, b) == (num, FirstBlank(text)) <==> !(f.special && b == 16 && !f.small)
  {
    var body, tail := PrintedParts(NumberText(num, b, width, precision, f), num, b, width, precision, f);
    Recovered(NumberText(num, b, width, precision, f), num, b, body, tail, f);
  }

  /** The body and the blanks of a printed number. */
  lemma PrintedParts(text: seq<char>, num: nat, b: Base, width: int, precision: int, f: Flags)
    returns (body: seq<char>, tail: seq<char>)
    requires num < TWO_64 && SignText(num, f) == ""
    requires text == NumberText(num, b, width, precision, f) && text != [] && text[0] != ' '
    ensures text == HexPrefix(b, f) + body + tail && FirstBlank(text) == |HexPrefix(b, f)| + |body| && Ended(tail)
    ensures body != [] && AllIn(body, b) && Horner(body, b) == num && (f.special && b == 8 ==> body[0] == '0')
  {
    var z, p := Shape(num, b, width, precision, f);
    body, tail := Body(num, b, z, f), Repeat(' ', p);
    Extent(num, b, z, p, f);
    BodyReads(num, b, z, f);
  }

  // Detecting the base

  /** Octal digits mean less in base 8 than in base 10, as soon as they mean 8 or more there. */
  lemma {:induction false} OctalIsLess(s: seq<char>)
    requires AllIn(s, 8)
    ensures AllIn(s, 10) && Horner(s, 8) <= Horner(s, 10)
    ensures Horner(s, 10) >= 8 ==> Horner(s, 8) < Horner(s, 10)
    ensures Horner(s, 10) < 8 ==> Horner(s, 8) == Horner(s, 10)
    decreases |s|
  {
    if s != [] {
      OctalIsLess(s[..|s| - 1]);
    }
  }

  lemma {:induction false} SmallIsOctal(s: seq<char>)
    requires AllIn(s, 10) && Horner(s, 10) < 8
    ensures AllIn(s, 8)
    decreases |s|
  {
    if s != [] {
      SmallIsOctal(s[..|s| - 1]);
      assert s == s[..|s| - 1] + [s[|s| - 1]];
    }
  }

  /** A leading zero makes base 0 mean 8. */
  lemma ZeroMeansOctal(body: seq<char>, tail: seq<char>)
    requires body != [] && AllIn(body, 10) && Ended(tail) && body[0] == '0'
    ensures Parse(body + tail, 0) == Parse(body + tail, 8)
    ensures Parse(body + tail, 0).1 == |body| ==> AllIn(body, 8)
  {
    var s := body + tail;
    assert At(s, 1) != 'x' by {
      if |body| > 1 {
        assert IsIn(body[1], 10);
      }
    }
    if RunEnd(s, 1, 8) == |body| {
      forall k | 0 <= k < |body| ensures IsIn(body[k], 8) {
        assert s[k] == body[k];
      }
    }
  }

  lemma NonzeroMeansDecimal(body: seq<char>, tail: seq<char>)
    requires body != [] && body[0] != '0'
    ensures Parse(body + tail, 0) == Parse(body + tail, 10)
  {
    assert Start(body + tail, 0) == Start(body + tail, 10);
  }

  /** Base 0 reads decimal digits behind a zero as octal ones. */
  lemma DecimalDetected(body: seq<char>, tail: seq<char>, v: nat)
    requires body != [] && AllIn(body, 10) && Ended(tail) && v == Horner(body, 10) && v < TWO_32
    ensures Parse(body + tail, 0) == (v, |body|) <==> v < 8 || body[0] != '0'
  {
    if body[0] != '0' {
      NonzeroMeansDecimal(body, tail);
      ParsesBody(body, tail, 10, v);
      SmallRest(v);
    } else {
      ZeroMeansOctal(body, tail);
      if v < 8 {
        SmallIsOctal(body);
      }
      if AllIn(body, 8) {
        OctalIsLess(body);
        ParsesBody(body, tail, 8, Horner(body, 8));
        SmallRest(Horner(body, 8));
      }
    }
  }

  lemma Detected(text: seq<char>, num: nat, b: Base, body: seq<char>, tail: seq<char>, f: Flags)
    requires num < TWO_32 && text == HexPrefix(b, f) + body + tail && f.special && f.small
    requires body != [] && AllIn(body, b) && Horner(body, b) == num && Ended(tail)
    requires b == 8 ==> body[0] == '0'
    ensures text != []
    ensures Parse(text, 0) == (num, |HexPrefix(b, f)| + |body|) <==> b != 10 || num < 8 || text[0] != '0'
  {
    if b == 16 {
      ParsesHex(body, tail, 0, num);
      SmallRest(num);
    } else {
      assert "" + body == body;
      if b == 8 {
        OctalIsLess(body);
        ZeroMeansOctal(body, tail);
        ParsesBody(body, tail, 8, num);
        SmallRest(num);
      } else {
        DecimalDetected(body, tail, num);
      }
    }
  }

  /** When a decimal number above zero has zeros in front of it. */
  predicate ZerosInFront(num: nat, width: int, precision: int, f: Flags) {
    precision > |Digits(num, 10)| || (f.zeropad && !f.left && width > |Digits(num, 10)|)
  }

  lemma ZerosInFrontIff(num: nat, width: int, precision: int, f: Flags)
    requires 0 < num < TWO_64 && SignText(num, f) == ""
    requires var text := NumberText(num, 10, width, precision, f); text != [] && text[0] != ' '
    ensures NumberText(num, 10, width, precision, f)[0] == '0' <==> ZerosInFront(num, width, precision, f)
  {
    var digits := DigitText(num, 10, f.small);
    var number := Repeat('0', precision - |digits|) + digits;
    var pad := width - |number|;
    LeadingDigit(num, 10, f.small);
    assert NumberText(num, 10, width, precision, f) == Lay("", number, pad, f);
    LayStart(number, pad, f);
  }

  lemma LayStart(number: seq<char>, pad: int, f: Flags)
    requires number != "" && Lay("", number, pad, f)[0] != ' '
    ensures Lay("", number, pad, f)[0] == if f.zeropad && !f.left && pad > 0 then '0' else number[0]
  {
    if !f.left && !f.zeropad {
      NotPadded("" + number, pad);
    }
  }

  /** With the `#` flag and small letters, base 0 finds out the base by itself; only a decimal number
      above 7 with zeros in front of it, for a width or a precision, is misread. */
  lemma PrintThenDetect(num: nat, b: Base, width: int, precision: int, f: Flags)
    requires num < TWO_32 && SignText(num, f) == "" && f.special && f.small
    requires var text := NumberText(num, b, width, precision, f); text != [] && text[0] != ' '
    ensures var text := NumberText(num, b, width, precision, f);
            Parse(text, 0) == (num, FirstBlank(text)) <==>
            b != 10 || num < 8 || !ZerosInFront(num, width, precision, f)
  {
    DetectedIff(num, b, width, precision, f);
    if b == 10 && num > 0 {
      ZerosInFrontIff(num, width, precision, f);
    }
  }

  lemma DetectedIff(num: nat, b: Base, width: int, precision: int, f: Flags)
    requires num < TWO_32 && SignText(num, f) == "" && f.special && f.small
    requires var text := NumberText(num, b, width, precision, f); text != [] && text[0] != ' '
    ensures var text := NumberText(num, b, width, precision, f);
            Parse(text, 0) == (num, FirstBlank(text)) <==> b != 10 || num < 8 || text[0] != '0'
  {
    var body, tail := PrintedParts(NumberText(num, b, width, precision, f), num, b, width, precision, f);
    Detected(NumberText(num, b, width, precision, f), num, b, body, tail, f);
  }
}
