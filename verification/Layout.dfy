/** What the console prints for a number or a string: sign, prefix, digits and padding. */
module Layout {
  import opened Numerals
  import opened Div64
  import opened CText

  datatype Flags = Flags(zeropad: bool, sign: bool, plus: bool, space: bool, left: bool, small: bool, special: bool)

  function Max(a: int, b: int): int {
    if a > b then a else b
  }

  function DigitChar(d: nat, small: bool): char
    requires d < 16
  {
    if d < 10 then Char(d) else if small then 'a' + (d - 10) as char else 'A' + (d - 10) as char
  }

  ghost predicate InRange(ds: seq<nat>) {
    forall i | 0 <= i < |ds| :: ds[i] < 16
  }

  /** Digits, least significant first, as characters in printing order. */
  function Printed(ds: seq<nat>, small: bool): (r: seq<char>)
    requires InRange(ds)
    ensures |r| == |ds|
  {
    if ds == [] then [] else Printed(ds[1..], small) + [DigitChar(ds[0], small)]
  }

  function DigitText(n: nat, b: Base, small: bool): (r: seq<char>)
    ensures |r| == |Digits(n, b)| >= 1
  {
    DigitsAreCanonical(n, b);
    Printed(Digits(n, b), small)
  }

  lemma {:induction false} FirstPrinted(ds: seq<nat>, small: bool)
    requires InRange(ds) && ds != []
    ensures Printed(ds, small)[0] == DigitChar(ds[|ds| - 1], small)
    decreases |ds|
  {
    if |ds| > 1 {
      FirstPrinted(ds[1..], small);
      assert ds[1..][|ds| - 2] == ds[|ds| - 1];
    }
  }

  /** Only zero begins with a zero. */
  lemma LeadingDigit(n: nat, b: Base, small: bool)
    ensures DigitText(n, b, small)[0] == '0' <==> n == 0
  {
    DigitsAreCanonical(n, b);
    FirstPrinted(Digits(n, b), small);
  }

  /** A negative number when the format is signed. */
  predicate Negative(num: nat, f: Flags) {
    f.sign && num >= 0x8000_0000_0000_0000
  }

  function Magnitude(num: nat, f: Flags): nat
    requires num < TWO_64
  {
    if Negative(num, f) then TWO_64 - num else num
  }

  function SignText(num: nat, f: Flags): seq<char> {
    if !f.sign then "" else if Negative(num, f) then "-" else if f.plus then "+" else if f.space then " " else ""
  }

  function PrefixText(b: Base, f: Flags): seq<char> {
    if !f.special || b == 10 then "" else if b == 8 then "0" else if f.small then "0x" else "0X"
  }

  /** Sign and prefix, then zeros, then the number, with spaces on one side only. */
  function Lay(head: seq<char>, number: seq<char>, pad: int, f: Flags): seq<char> {
    if f.left then head + number + Repeat(' ', pad)
    else if f.zeropad then head + Repeat('0', pad) + number
    else Repeat(' ', pad) + head + number
  }

  function NumberText(num: nat, b: Base, width: int, precision: int, f: Flags): seq<char>
    requires num < TWO_64
  {
    var digits := DigitText(Magnitude(num, f), b, f.small);
    var room := width - |SignText(num, f)| - |PrefixText(b, f)| - Max(precision, |digits|);
    Lay(SignText(num, f) + PrefixText(b, f), Repeat('0', precision - |digits|) + digits, room, f)
  }

  /** An integer directive fills its width exactly, or takes what sign, prefix and digits need. */
  lemma NumberLength(num: nat, b: Base, width: int, precision: int, f: Flags)
    requires num < TWO_64
    ensures |NumberText(num, b, width, precision, f)| ==
            Max(width, |SignText(num, f)| + |PrefixText(b, f)| + Max(|DigitText(Magnitude(num, f), b, f.small)|, precision))
  {
  }

  /** A string, cut to the precision if there is one. */
  function Cut(s: seq<char>, precision: int): seq<char> {
    if 0 <= precision < |s| then s[..precision] else s
  }

  /** What `%s` shows for an argument. */
  function Shown(str: Pointer): seq<char> {
    if str.Null? then "<NULL>" else Contents(str.text)
  }

  function Justified(t: seq<char>, width: int, left: bool): seq<char> {
    if left then t + Repeat(' ', width - |t|) else Repeat(' ', width - |t|) + t
  }

  function StringText(str: Pointer, width: int, precision: int, left: bool): seq<char> {
    Justified(Cut(Shown(str), precision), width, left)
  }

  lemma StringLength(str: Pointer, width: int, precision: int, left: bool)
    ensures var n := |Shown(str)|;
            |StringText(str, width, precision, left)| == Max(width, if precision < 0 || precision > n then n else precision)
  {
  }
}
