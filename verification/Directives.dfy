/** Whole directives, from the format and its arguments to the text, against section 7.19.6.1 of ISO C99. */
module Directives {
  import opened Numerals
  import opened Div64
  import opened Layout
  import opened CText
  import opened Format
  import opened C99
  import opened Strtoul

  // What the digits of a text say

  /** The number that the digits of a text denote, read from the left; all other characters are passed over. */
  function Reading(s: seq<char>, b: Base, before: nat): nat {
    if s == [] then before
    else Reading(s[1..], b, if IsIn(s[0], b) then Times(b, before) + DigitOf(s[0]) else before)
  }

  lemma {:induction false} ReadBoth(s: seq<char>, t: seq<char>, b: Base, before: nat)
    ensures Reading(s + t, b, before) == Reading(t, b, Reading(s, b, before))
    decreases |s|
  {
    if s == [] {
      assert s + t == t;
    } else {
      assert (s + t)[1..] == s[1..] + t;
      ReadBoth(s[1..], t, b, if IsIn(s[0], b) then Times(b, before) + DigitOf(s[0]) else before);
    }
  }

  lemma {:induction false} ReadNothing(s: seq<char>, b: Base, before: nat)
    requires forall k | 0 <= k < |s| :: !IsIn(s[k], b)
    ensures Reading(s, b, before) == before
    decreases |s|
  {
    if s != [] {
      ReadNothing(s[1..], b, before);
    }
  }

  lemma {:induction false} ReadZeros(s: seq<char>, b: Base)
    requires forall k | 0 <= k < |s| :: s[k] == '0'
    ensures Reading(s, b, 0) == 0
    decreases |s|
  {
    if s != [] {
      ReadZeros(s[1..], b);
    }
  }

  lemma TableReads(d: nat, b: Base, small: bool)
    requires d < b
    ensures var c := (if small then SMALL_DIGITS else LARGE_DIGITS)[d]; IsIn(c, b) && DigitOf(c) == d
  {
  }

  lemma ReadOne(c: char, b: Base, before: nat)
    requires IsIn(c, b)
    ensures Reading([c], b, before) == Times(b, before) + DigitOf(c)
  {
    assert [c][1..] == [];
    assert Reading([], b, Times(b, before) + DigitOf(c)) == Times(b, before) + DigitOf(c);
  }

  lemma DigitAndRest(n: nat, b: Base)
    ensures Times(b, Over(n, b)) + Mod(n, b) == n && Mod(n, b) < b && (n < b ==> Mod(n, b) == n)
  {
  }

  lemma {:induction false} ReadNumeral(n: nat, b: Base, small: bool)
    ensures Reading(Numeral(n, b, small), b, 0) == n
    decreases n
  {
    var c := (if small then SMALL_DIGITS else LARGE_DIGITS)[Mod(n, b)];
    DigitAndRest(n, b);
    TableReads(Mod(n, b), b, small);
    if n < b {
      assert Numeral(n, b, small) == [c];
      ReadOne(c, b, 0);
    } else {
      ReadNumeral(Over(n, b), b, small);
      ReadBoth(Numeral(Over(n, b), b, small), [c], b, 0);
      ReadOne(c, b, Over(n, b));
    }
  }

  lemma ReadBlanks(n: int, b: Base, before: nat)
    ensures Reading(Repeat(' ', n), b, before) == before
  {
    ReadNothing(Repeat(' ', n), b, before);
  }

  /** However a number is laid out, its text denotes it. */
  lemma ReadLay(head: seq<char>, number: seq<char>, pad: int, f: Flags, b: Base, n: nat)
    requires Reading(head, b, 0) == 0 && Reading(number, b, 0) == n
    ensures Reading(Lay(head, number, pad, f), b, 0) == n
  {
    ReadBlanks(pad, b, 0);
    ReadBlanks(pad, b, n);
    ReadZeros(Repeat('0', pad), b);
    ReadBoth(head, number, b, 0);
    ReadBoth(head + number, Repeat(' ', pad), b, 0);
    ReadBoth(head, Repeat('0', pad), b, 0);
    ReadBoth(head + Repeat('0', pad), number, b, 0);
    ReadBoth(Repeat(' ', pad), head, b, 0);
    ReadBoth(Repeat(' ', pad) + head, number, b, 0);
  }

  lemma ReadHead(sign: seq<char>, prefix: seq<char>, b: Base)
    requires sign == "" || sign == "-" || sign == "+" || sign == " "
    requires prefix == "" || prefix == "0" || prefix == "0x" || prefix == "0X"
    ensures Reading(sign + prefix, b, 0) == 0
  {
    ReadNothing(sign, b, 0);
    ReadBoth(sign, prefix, b, 0);
    ReadPrefix(prefix, b);
  }

  lemma ReadPrefix(prefix: seq<char>, b: Base)
    requires prefix == "" || prefix == "0" || prefix == "0x" || prefix == "0X"
    ensures Reading(prefix, b, 0) == 0
  {
    if prefix != "" {
      assert prefix == "0" + prefix[1..];
      ReadBoth("0", prefix[1..], b, 0);
      ReadZeros("0", b);
      ReadNothing(prefix[1..], b, 0);
    }
  }

  lemma ReadPadded(n: nat, b: Base, precision: int, small: bool)
    ensures Reading(Padded(Numeral(n, b, small), precision), b, 0) == n
  {
    var digits := Numeral(n, b, small);
    ReadZeros(Repeat('0', precision - |digits|), b);
    ReadBoth(Repeat('0', precision - |digits|), digits, b, 0);
    ReadNumeral(n, b, small);
  }

  /** The digits of a printed number denote its magnitude, with any flags, width and precision. */
  lemma NumberReads(num: nat, b: Base, width: int, precision: int, f: Flags)
    requires num < TWO_64
    ensures Reading(NumberText(num, b, width, precision, f), b, 0) == Magnitude(num, f)
  {
    var n, sign := Magnitude(num, f), SignText(num, f);
    var number := Padded(DigitText(n, b, f.small), precision);
    NumeralIs(n, b, f.small);
    ReadPadded(n, b, precision, f.small);
    ReadHead(sign, PrefixText(b, f), b);
    NumberParts(num, b, width, precision, f, sign, number);
    ReadLay(sign + PrefixText(b, f), number, Room(num, b, width, precision, f), f, b, n);
  }

  lemma ReadAlternative(n: nat, b: Base, precision: int, f: Flags)
    ensures Reading(Alternative(StandardDigits(n, b, precision, f.small), b, f), b, 0) == n
  {
    var digits := StandardDigits(n, b, precision, f.small);
    assert Reading(digits, b, 0) == n by {
      ReadPadded(n, b, precision, f.small);
    }
    ReadBoth("0", digits, b, 0);
    ReadZeros("0", b);
  }

  /** So do those of the standard. */
  lemma StandardReads(num: nat, b: Base, width: int, precision: int, f: Flags)
    requires num < TWO_64
    ensures Reading(LaidText(num, b, width, precision, f), b, 0) == Magnitude(num, f)
  {
    var n := Magnitude(num, f);
    var head := SignText(num, f) + StandardPrefix(n, b, f);
    var digits := Alternative(StandardDigits(n, b, precision, f.small), b, f);
    ReadHead(SignText(num, f), StandardPrefix(n, b, f), b);
    ReadAlternative(n, b, precision, f);
    ReadLay(head, digits, width - |head| - |digits|, f.(zeropad := f.zeropad && precision < 0), b, n);
  }

  // What the sign of a text says

  lemma NoMinus(s: seq<char>, b: Base)
    requires AllIn(s, b)
    ensures '-' !in s
  {
    forall k | 0 <= k < |s| ensures s[k] != '-' {
      assert IsIn(s[k], b);
    }
  }

  lemma {:induction false} NumeralDigits(n: nat, b: Base, small: bool)
    ensures AllIn(Numeral(n, b, small), b)
    decreases n
  {
    DigitAndRest(n, b);
    TableReads(Mod(n, b), b, small);
    if n >= b {
      NumeralDigits(Over(n, b), b, small);
    }
  }

  lemma MinusInLay(head: seq<char>, number: seq<char>, pad: int, f: Flags)
    requires '-' !in number
    ensures '-' in Lay(head, number, pad, f) <==> '-' in head
  {
    assert '-' !in Repeat(' ', pad) && '-' !in Repeat('0', pad);
  }

  /** A minus is printed for negative numbers of signed conversions, and for no others. */
  lemma MinusShows(num: nat, b: Base, width: int, precision: int, f: Flags)
    requires num < TWO_64
    ensures '-' in NumberText(num, b, width, precision, f) <==> NumberValue(num, f.sign) < 0
  {
    var n, sign := Magnitude(num, f), SignText(num, f);
    var number := Padded(DigitText(n, b, f.small), precision);
    NumeralIs(n, b, f.small);
    NumeralDigits(n, b, f.small);
    NoMinus(Numeral(n, b, f.small), b);
    NumberParts(num, b, width, precision, f, sign, number);
    MinusInLay(sign + PrefixText(b, f), number, Room(num, b, width, precision, f), f);
  }

  lemma StandardMinusShows(num: nat, b: Base, width: int, precision: int, f: Flags)
    requires num < TWO_64
    ensures '-' in LaidText(num, b, width, precision, f) <==> NumberValue(num, f.sign) < 0
  {
    var n := Magnitude(num, f);
    var head := SignText(num, f) + StandardPrefix(n, b, f);
    var digits := Alternative(StandardDigits(n, b, precision, f.small), b, f);
    NumeralDigits(n, b, f.small);
    NoMinus(Numeral(n, b, f.small), b);
    MinusInLay(head, digits, width - |head| - |digits|, f.(zeropad := f.zeropad && precision < 0));
  }

  /** Texts of different numbers are different. */
  lemma ValueShows(num: nat, other: nat, b: Base, width: int, precision: int, f: Flags)
    requires num < TWO_64 && other < TWO_64
    requires NumberText(num, b, width, precision, f) == LaidText(other, b, width, precision, f)
    ensures NumberValue(num, f.sign) == NumberValue(other, f.sign)
  {
    NumberReads(num, b, width, precision, f);
    StandardReads(other, b, width, precision, f);
    MinusShows(num, b, width, precision, f);
    StandardMinusShows(other, b, width, precision, f);
    SignIs(num, f);
    SignIs(other, f);
  }

  // Integer directives

  /** What the standard asks for, conversion by conversion. */
  function StandardConversion(c: char, bits: nat, qualifier: char, width: int, precision: int, f: Flags): seq<char> {
    var signed, unsigned := StandardOperand(bits, qualifier, true), StandardOperand(bits, qualifier, false);
    match c
    case 'd' => StandardText(signed, 10, width, precision, f.(sign := true, small := false))
    case 'i' => StandardText(signed, 10, width, precision, f.(sign := true, small := false))
    case 'o' => StandardText(unsigned, 8, width, precision, f.(sign := false, small := false))
    case 'x' => StandardText(unsigned, 16, width, precision, f.(sign := false, small := true))
    case 'X' => StandardText(unsigned, 16, width, precision, f.(sign := false, small := false))
    case _ => StandardText(unsigned, 10, width, precision, f.(sign := false, small := false))
  }

  /** When the console prints that. */
  predicate ConversionConforms(c: char, bits: nat, qualifier: char, width: int, precision: int, f: Flags) {
    var signed := c == 'd' || c == 'i';
    var b := if c == 'o' then 8 else if c == 'x' || c == 'X' then 16 else 10;
    && OperandConforms(bits, qualifier, signed)
    && Conforms(StandardOperand(bits, qualifier, signed), b, width, precision, f.(sign := signed, small := c == 'x'))
  }

  lemma OperandInRange(bits: nat, qualifier: char, signed: bool) returns (num: nat)
    ensures num < TWO_64 && NumberValue(num, signed) == StandardOperand(bits, qualifier, signed)
  {
    var x := StandardOperand(bits, qualifier, signed);
    num := if x < 0 then x + 0x1_0000_0000_0000_0000 else x;
  }

  /** One conversion of a number, with its base and its signedness. */
  lemma NumberIff(bits: nat, qualifier: char, b: Base, width: int, precision: int, f: Flags)
    ensures var x := StandardOperand(bits, qualifier, f.sign);
            NumberText(Fetched(bits, qualifier, f.sign), b, width, precision, f) == StandardText(x, b, width, precision, f)
            <==> OperandConforms(bits, qualifier, f.sign) && Conforms(x, b, width, precision, f)
  {
    var num := Fetched(bits, qualifier, f.sign);
    var other := OperandInRange(bits, qualifier, f.sign);
    OperandIff(bits, qualifier, f.sign);
    StandardIsLaid(other, b, width, precision, f);
    if NumberText(num, b, width, precision, f) == LaidText(other, b, width, precision, f) {
      ValueShows(num, other, b, width, precision, f);
    }
    ConformsIff(num, b, width, precision, f);
  }

  lemma ConversionIs(c: char, qualifier: char, width: int, precision: int, f: Flags, v: Arg)
    requires c in "dioxXu"
    ensures var signed := c == 'd' || c == 'i';
            ConversionText(c, qualifier, width, precision, f, v) ==
            NumberText(Fetched(v.bits, qualifier, signed), if c == 'o' then 8 else if c == 'x' || c == 'X' then 16 else 10,
                       width, precision, f.(small := c == 'x', sign := signed))
  {
  }

  lemma StandardIs(c: char, bits: nat, qualifier: char, width: int, precision: int, f: Flags)
    requires c in "dioxXu"
    ensures var signed := c == 'd' || c == 'i';
            StandardConversion(c, bits, qualifier, width, precision, f) ==
            StandardText(StandardOperand(bits, qualifier, signed),
                         if c == 'o' then 8 else if c == 'x' || c == 'X' then 16 else 10,
                         width, precision, f.(small := c == 'x', sign := signed))
  {
  }

  /** An integer conversion prints what the standard asks for if and only if the qualifier has the signedness of the
      conversion, or that does not matter, and none of the four differences applies. */
  lemma ConversionIff(c: char, qualifier: char, width: int, precision: int, f: Flags, v: Arg)
    requires c in "dioxXu"
    ensures ConversionText(c, qualifier, width, precision, f, v)
              == StandardConversion(c, v.bits, qualifier, width, precision, f)
            <==> ConversionConforms(c, v.bits, qualifier, width, precision, f)
  {
    var signed := c == 'd' || c == 'i';
    ConversionIs(c, qualifier, width, precision, f, v);
    StandardIs(c, v.bits, qualifier, width, precision, f);
    NumberIff(v.bits, qualifier, if c == 'o' then 8 else if c == 'x' || c == 'X' then 16 else 10, width, precision,
              f.(small := c == 'x', sign := signed));
  }

  // With the arguments

  /** The number of asterisks in front of the operand. */
  function Asterisks(d: Directive): nat {
    (if d.width.FromArgument? then 1 else 0) + (if d.precision.FromArgument? then 1 else 0)
  }

  /** The field width, -1 if there is none; a negative argument is a flag `-` and a positive width. */
  function StandardWidth(d: Directive, args: Args, k: nat): int {
    match d.width
    case Absent => -1
    case Given(n) => n
    case FromArgument => var w := IntArgument(args, k); if w < 0 then -w else w
  }

  function StandardFlags(d: Directive, args: Args, k: nat): Flags {
    if d.width.FromArgument? && IntArgument(args, k) < 0 then d.flags.(left := true) else d.flags
  }

  /** The text of a directive whose arguments begin with number `k`: the width, the precision, the operand. */
  function StandardItem(d: Directive, args: Args, k: nat): seq<char> {
    StandardConversion(d.conversion, args(k + Asterisks(d)).bits, d.qualifier, StandardWidth(d, args, k),
                       StandardPrecision(d, args, k), StandardFlags(d, args, k))
  }

  predicate ItemConforms(d: Directive, args: Args, k: nat) {
    ConversionConforms(d.conversion, args(k + Asterisks(d)).bits, d.qualifier, StandardWidth(d, args, k),
                       StandardPrecision(d, args, k), StandardFlags(d, args, k))
  }

  lemma ArgumentsAgree(d: Directive, args: Args, k: nat)
    ensures Width(d, args, k) == StandardWidth(d, args, k)
    ensures d.flags.(left := IsLeft(d, args, k)) == StandardFlags(d, args, k)
    ensures Operand(d, args, k) == args(k + Asterisks(d))
    ensures Precision(d, args, k) == StandardPrecision(d, args, k) ||
            (Precision(d, args, k) == 0 && StandardPrecision(d, args, k) == -1)
  {
  }

  lemma SamePrecision(c: char, qualifier: char, width: int, f: Flags, v: Arg)
    requires c in "dioxXu"
    ensures ConversionText(c, qualifier, width, 0, f, v) == ConversionText(c, qualifier, width, -1, f, v)
  {
    var signed := c == 'd' || c == 'i';
    ZeroPrecisionPrints(Fetched(v.bits, qualifier, signed), NumberBase(c), width, f.(small := c == 'x', sign := signed));
  }

  lemma ItemIs(spelling: seq<char>, d: Directive, args: Args, k: nat) returns (p: int)
    ensures ItemText(Conversion(spelling, d), args, k) ==
            ConversionText(d.conversion, d.qualifier, StandardWidth(d, args, k), p, StandardFlags(d, args, k),
                           args(k + Asterisks(d)))
    ensures p == StandardPrecision(d, args, k) || (p == 0 && StandardPrecision(d, args, k) == -1)
  {
    p := Precision(d, args, k);
    ArgumentsAgree(d, args, k);
  }

  lemma EitherPrecision(c: char, qualifier: char, width: int, precision: int, p: int, f: Flags, v: Arg)
    requires c in "dioxXu" && (p == precision || (p == 0 && precision == -1))
    ensures ConversionText(c, qualifier, width, p, f, v) == ConversionText(c, qualifier, width, precision, f, v)
  {
    if p != precision {
      SamePrecision(c, qualifier, width, f, v);
    }
  }

  /** The text of an integer directive is that of its conversion, with what the standard makes of its arguments. */
  lemma DirectiveText(spelling: seq<char>, d: Directive, args: Args, k: nat) returns (text: seq<char>)
    requires d.conversion in "dioxXu"
    ensures text == ItemText(Conversion(spelling, d), args, k)
    ensures text == ConversionText(d.conversion, d.qualifier, StandardWidth(d, args, k), StandardPrecision(d, args, k),
                                   StandardFlags(d, args, k), args(k + Asterisks(d)))
  {
    text := ItemText(Conversion(spelling, d), args, k);
    var p := ItemIs(spelling, d, args, k);
    EitherPrecision(d.conversion, d.qualifier, StandardWidth(d, args, k), StandardPrecision(d, args, k), p,
                    StandardFlags(d, args, k), args(k + Asterisks(d)));
  }

  lemma TextIff(text: seq<char>, c: char, qualifier: char, width: int, precision: int, f: Flags, v: Arg)
    requires c in "dioxXu" && text == ConversionText(c, qualifier, width, precision, f, v)
    ensures text == StandardConversion(c, v.bits, qualifier, width, precision, f) <==>
            ConversionConforms(c, v.bits, qualifier, width, precision, f)
  {
    ConversionIff(c, qualifier, width, precision, f, v);
  }

  /** A whole integer directive, with its arguments, is printed as the standard asks if and only if its conversion is. */
  lemma DirectiveIff(spelling: seq<char>, d: Directive, args: Args, k: nat)
    requires d.conversion in "dioxXu"
    ensures ItemText(Conversion(spelling, d), args, k) == StandardItem(d, args, k) <==> ItemConforms(d, args, k)
  {
    var text := DirectiveText(spelling, d, args, k);
    TextIff(text, d.conversion, d.qualifier, StandardWidth(d, args, k), StandardPrecision(d, args, k),
            StandardFlags(d, args, k), args(k + Asterisks(d)));
  }

  /** How many arguments an item takes; a plain character takes none and is printed as it stands. */
  lemma ArgumentsTaken(spelling: seq<char>, d: Directive, c: char, args: Args, k: nat)
    ensures ArgCount(Conversion(spelling, d)) == Asterisks(d) + if d.conversion in "dioxXucspn" then 1 else 0
    ensures ArgCount(Plain(c)) == 0 && ItemText(Plain(c), args, k) == [c]
  {
  }

  // Other directives

  /** A text in its field: blanks in front of it, or behind it with the flag `-`. */
  ghost predicate InField(out: seq<char>, text: seq<char>, width: int, left: bool) {
    && |out| == Max(width, |text|)
    && (if left then out[..|text|] == text && forall i | |text| <= i < |out| :: out[i] == ' '
        else out[|out| - |text|..] == text && forall i | 0 <= i < |out| - |text| :: out[i] == ' ')
  }

  lemma JustifiedIsInField(text: seq<char>, width: int, left: bool)
    ensures InField(Justified(text, width, left), text, width, left)
  {
  }

  lemma CharacterInField(qualifier: char, width: int, precision: int, f: Flags, v: Arg)
    ensures InField(ConversionText('c', qualifier, width, precision, f, v), [(v.bits % 256) as char], width, f.left)
  {
    JustifiedIsInField([(v.bits % 256) as char], width, f.left);
  }

  /** A string up to its terminator, and no more of it than the precision allows. */
  lemma StringInField(s: seq<char>, qualifier: char, width: int, precision: int, f: Flags, v: Arg) returns (n: nat)
    requires v.text == To(s)
    ensures n <= |s| && (forall i | 0 <= i < n :: s[i] != NUL) && (precision >= 0 ==> n <= precision)
    ensures n == precision || n == |s| || s[n] == NUL
    ensures InField(ConversionText('s', qualifier, width, precision, f, v), s[..n], width, f.left)
  {
    n := if 0 <= precision < Length(s) then precision else Length(s);
    assert Cut(Contents(s), precision) == s[..n];
    JustifiedIsInField(s[..n], width, f.left);
  }

  /** A null pointer is shown as a word, cut like any other. */
  lemma NullInField(qualifier: char, width: int, precision: int, f: Flags, v: Arg)
    requires v.text == Null
    ensures InField(ConversionText('s', qualifier, width, precision, f, v),
                    if 0 <= precision < 6 then "<NULL>"[..precision] else "<NULL>", width, f.left)
  {
    JustifiedIsInField(Cut("<NULL>", precision), width, f.left);
  }

  /** A pointer is printed like an unsigned number in small hexadecimal digits, eight of them if there is no width. */
  lemma PointerIsHex(width: int, precision: int, f: Flags, v: Arg)
    requires !f.sign
    ensures ConversionText('p', NUL, width, precision, f, v) ==
            if width == -1 then ConversionText('x', NUL, 8, precision, f.(zeropad := true), v)
            else ConversionText('x', NUL, width, precision, f, v)
  {
    assert f.(small := true, zeropad := f.zeropad) == f.(small := true, sign := false);
    assert f.(small := true, zeropad := true) == f.(zeropad := true).(small := true, sign := false);
  }

  /** Counts print nothing, two percent signs one; any other conversion is printed as it stands. */
  lemma OthersPrint(c: char, qualifier: char, width: int, precision: int, f: Flags, v: Arg)
    requires c !in "dioxXucsp"
    ensures ConversionText(c, qualifier, width, precision, f, v) ==
            if c == 'n' then "" else if c == '%' || c == NUL then "%" else ['%', c]
  {
  }

  // All directives of a format

  lemma {:induction false} JoinedBoth(a: seq<Field>, b: seq<Field>)
    ensures Joined(a + b) == Joined(a) + Joined(b)
    decreases |a|
  {
    if a == [] {
      assert a + b == b;
    } else {
      assert (a + b)[1..] == a[1..] + b;
      JoinedBoth(a[1..], b);
      assert a[0].text + (Joined(a[1..]) + Joined(b)) == a[0].text + Joined(a[1..]) + Joined(b);
    }
  }

  lemma {:induction false} CountsBoth(a: seq<Field>, b: seq<Field>, count: nat)
    ensures Counts(a + b, count) == Counts(a, count) + Counts(b, count + |Joined(a)|)
    decreases |a|
  {
    if a == [] {
      assert a + b == b;
    } else {
      assert (a + b)[1..] == a[1..] + b;
      CountsBoth(a[1..], b, count + |a[0].text|);
    }
  }

  /** What `%n` stores is the length of the output in front of it. */
  lemma CountStored(before: seq<Field>, after: seq<Field>)
    ensures var fields := before + ([Field("", true)] + after);
            Counts(fields, 0) == Counts(before, 0) + ([|Joined(before)|] + Counts(after, |Joined(before)|))
  {
    CountsBoth(before, [Field("", true)] + after, 0);
    assert ([Field("", true)] + after)[1..] == after;
  }

  // Parts of the scanner

  /** Widths and precisions are decimal numbers. */
  lemma {:induction false} AtoiIsDecimal(s: seq<char>)
    requires forall k | 0 <= k < |s| :: '0' <= s[k] <= '9'
    ensures AllIn(s, 10) && Atoi(s) == Horner(s, 10)
    decreases |s|
  {
    if s != [] {
      AtoiIsDecimal(s[..|s| - 1]);
    }
  }

  /** Two l are read as one qualifier, for 64 bits; one is for a long, which has 32. */
  lemma LongLong(s: seq<char>, i: nat)
    requires i < |s| && s[i] == 'l'
    ensures QualifierAt(s, i) == if i + 1 < |s| && s[i + 1] == 'l' then ('L', i + 2) else ('l', i + 1)
  {
  }

  /** A point with neither digits nor an asterisk behind it means the precision zero. */
  lemma PointAlone(s: seq<char>, i: nat)
    requires i < |s| && s[i] == '.'
    requires i + 1 < |s| ==> s[i + 1] != '*' && !('0' <= s[i + 1] <= '9')
    ensures PrecisionAt(s, i) == (Given(0), i + 1)
  {
  }

  lemma {:induction false} LettersAndDigits(s: seq<char>, i: nat)
    requires i <= |s|
    ensures var j := AlnumEnd(s, i);
            && (forall k | i <= k < j :: '0' <= s[k] <= '9' || 'A' <= s[k] <= 'Z' || 'a' <= s[k] <= 'z')
            && (j < |s| ==> !('0' <= s[j] <= '9' || 'A' <= s[j] <= 'Z' || 'a' <= s[j] <= 'z'))
    decreases |s| - i
  {
    if i < |s| && IsAlnum(s[i]) {
      LettersAndDigits(s, i + 1);
    }
  }

  /** All letters and digits behind `%p` belong to the directive, and nothing behind another conversion character. */
  lemma SuffixSkipped(s: seq<char>, e: nat)
    requires e < |s|
    ensures s[e] != 'p' ==> After(s, e) == e + 1
    ensures s[e] == 'p' ==>
              var j := After(s, e);
              && (forall k | e < k < j :: '0' <= s[k] <= '9' || 'A' <= s[k] <= 'Z' || 'a' <= s[k] <= 'z')
              && (j < |s| ==> !('0' <= s[j] <= '9' || 'A' <= s[j] <= 'Z' || 'a' <= s[j] <= 'z'))
  {
    LettersAndDigits(s, e + 1);
  }
}
