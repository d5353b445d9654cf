/** Format strings: their grammar, the arguments they take, and the text they ask for. */
module Format {
  import opened Numerals
  import opened Div64
  import opened Layout
  import opened CText

  datatype Amount = Absent | Given(n: nat) | FromArgument

  datatype Directive = Directive(flags: Flags, width: Amount, precision: Amount, qualifier: char, conversion: char)

  /** A character, or a directive with its spelling. */
  datatype Item = Plain(c: char) | Conversion(spelling: seq<char>, d: Directive)

  // The grammar

  predicate IsFlag(c: char) {
    c == '-' || c == '+' || c == ' ' || c == '#' || c == '0'
  }

  predicate IsQualifier(c: char) {
    c == 'h' || c == 'l' || c == 'L' || c == 'Z' || c == 'z' || c == 't'
  }

  function FlagsEnd(s: seq<char>, i: nat): (j: nat)
    requires i <= |s|
    ensures i <= j <= |s|
    decreases |s| - i
  {
    if i < |s| && IsFlag(s[i]) then FlagsEnd(s, i + 1) else i
  }

  function FlagSet(run: seq<char>): Flags {
    Flags('0' in run, false, '+' in run, ' ' in run, '-' in run, false, '#' in run)
  }

  function DigitsEnd(s: seq<char>, i: nat): (j: nat)
    requires i <= |s|
    ensures i <= j <= |s| && forall k | i <= k < j :: IsDigit(s[k])
    decreases |s| - i
  {
    if i < |s| && IsDigit(s[i]) then DigitsEnd(s, i + 1) else i
  }

  function Atoi(s: seq<char>): nat
    requires forall k | 0 <= k < |s| :: IsDigit(s[k])
    decreases |s|
  {
    if s == [] then 0 else 10 * Atoi(s[..|s| - 1]) + DigitValue(s[|s| - 1])
  }

  function WidthAt(s: seq<char>, i: nat): (r: (Amount, nat))
    requires i <= |s|
    ensures i <= r.1 <= |s|
  {
    if IsDigit(At(s, i)) then (Given(Atoi(s[i..DigitsEnd(s, i)])), DigitsEnd(s, i))
    else if At(s, i) == '*' then (FromArgument, i + 1)
    else (Absent, i)
  }

  /** A point alone means zero. */
  function PrecisionAt(s: seq<char>, i: nat): (r: (Amount, nat))
    requires i <= |s|
    ensures i <= r.1 <= |s|
  {
    if At(s, i) != '.' then (Absent, i)
    else
      var (amount, j) := WidthAt(s, i + 1);
      (if amount.Absent? then Given(0) else amount, j)
  }

  function QualifierAt(s: seq<char>, i: nat): (r: (char, nat))
    requires i <= |s|
    ensures i <= r.1 <= |s|
  {
    if i < |s| && IsQualifier(s[i]) then
      if s[i] == 'l' && At(s, i + 1) == 'l' then ('L', i + 2) else (s[i], i + 1)
    else
      (NUL, i)
  }

  /** The directive whose percent sign is at `i`, and where its conversion character is. */
  function Scan(s: seq<char>, i: nat): (r: (Directive, nat))
    requires i < |s| && s[i] == '%'
    ensures i < r.1 <= |s| && At(s, r.1) == r.0.conversion
  {
    var a := FlagsEnd(s, i + 1);
    var (width, w) := WidthAt(s, a);
    var (precision, p) := PrecisionAt(s, w);
    var (qualifier, e) := QualifierAt(s, p);
    (Directive(FlagSet(s[i + 1..a]), width, precision, qualifier, At(s, e)), e)
  }

  function AlnumEnd(s: seq<char>, i: nat): (j: nat)
    requires i <= |s|
    ensures i <= j <= |s|
    decreases |s| - i
  {
    if i < |s| && IsAlnum(s[i]) then AlnumEnd(s, i + 1) else i
  }

  /** Where the next item begins: `%p` takes the letters and digits behind it along. */
  function After(s: seq<char>, e: nat): (j: nat)
    requires e <= |s|
    ensures e <= j <= |s| && (e < |s| ==> e < j)
  {
    if e == |s| then e else if s[e] == 'p' then AlnumEnd(s, e + 1) else e + 1
  }

  function Items(s: seq<char>, i: nat): seq<Item>
    requires i <= |s|
    decreases |s| - i
  {
    if i == |s| then []
    else if s[i] != '%' then [Plain(s[i])] + Items(s, i + 1)
    else
      var (d, e) := Scan(s, i);
      [Conversion(s[i..After(s, e)], d)] + Items(s, After(s, e))
  }

  function Spelling(items: seq<Item>): seq<char> {
    if items == [] then []
    else (match items[0] case Plain(c) => [c] case Conversion(spelling, _) => spelling) + Spelling(items[1..])
  }

  /** The items cover the format: nothing is skipped, and nothing behind its end is used. */
  lemma {:induction false} ItemsCover(s: seq<char>, i: nat)
    requires i <= |s|
    ensures Spelling(Items(s, i)) == s[i..]
    decreases |s| - i
  {
    if i < |s| {
      if s[i] != '%' {
        ItemsCover(s, i + 1);
        assert s[i..] == [s[i]] + s[i + 1..];
      } else {
        var j := After(s, Scan(s, i).1);
        ItemsCover(s, j);
        assert s[i..] == s[i..j] + s[j..];
      }
    }
  }

  // The arguments

  /** An argument: the bits that an integer conversion reads, the string that a `%s` reads. */
  datatype Arg = Arg(bits: nat, text: Pointer)

  type Args = nat -> Arg

  /** A 32-bit number as a signed one. */
  function Signed32(bits: nat): int {
    var x := bits % TWO_32;
    if x >= 0x8000_0000 then x - TWO_32 else x
  }

  function Signed16(bits: nat): int {
    var x := bits % 0x1_0000;
    if x >= 0x8000 then x - 0x1_0000 else x
  }

  /** A signed number in 64 bits. */
  function Wide(x: int): (r: nat)
    requires -0x8000_0000_0000_0000 <= x < TWO_64
    ensures r < TWO_64
  {
    if x < 0 then x + TWO_64 else x
  }

  /** The 64-bit number that an integer conversion makes of its argument, on a 32-bit machine. */
  function Fetched(bits: nat, qualifier: char, signed: bool): (r: nat)
    ensures r < TWO_64
  {
    if qualifier == 'L' then bits % TWO_64
    else if qualifier == 'Z' || qualifier == 'z' then bits % TWO_32
    else if qualifier == 't' then Wide(Signed32(bits))
    else if qualifier == 'h' then (if signed then Wide(Signed16(bits)) else bits % 0x1_0000)
    else if signed then Wide(Signed32(bits))
    else bits % TWO_32
  }

  /** A sign is printed exactly for what is negative in its own width, in front of its magnitude. */
  lemma SignedMagnitude(x: int, f: Flags)
    requires f.sign && -0x8000_0000_0000_0000 <= x < 0x8000_0000_0000_0000
    ensures Negative(Wide(x), f) <==> x < 0
    ensures Magnitude(Wide(x), f) == if x < 0 then -x else x
  {
  }

  function StarCount(amount: Amount): nat {
    if amount.FromArgument? then 1 else 0
  }

  /** The conversions that read an argument. */
  predicate Reads(c: char) {
    c == 'c' || c == 's' || c == 'p' || c == 'n' || IsInteger(c)
  }

  predicate IsInteger(c: char) {
    c == 'o' || c == 'x' || c == 'X' || c == 'd' || c == 'i' || c == 'u'
  }

  function ArgCount(item: Item): nat {
    match item
    case Plain(_) => 0
    case Conversion(_, d) =>
      StarCount(d.width) + StarCount(d.precision) + if Reads(d.conversion) then 1 else 0
  }

  /** Width and precision after looking at the arguments; -1 when not given. */
  function Width(d: Directive, args: Args, k: nat): int {
    match d.width
    case Absent => -1
    case Given(n) => n
    case FromArgument => var w := Signed32(args(k).bits); if w < 0 then -w else w
  }

  /** A negative width argument means left. */
  function IsLeft(d: Directive, args: Args, k: nat): bool {
    d.flags.left || (d.width.FromArgument? && Signed32(args(k).bits) < 0)
  }

  function Precision(d: Directive, args: Args, k: nat): int {
    match d.precision
    case Absent => -1
    case Given(n) => n
    case FromArgument => Max(Signed32(args(k + StarCount(d.width)).bits), 0)
  }

  function Operand(d: Directive, args: Args, k: nat): Arg {
    args(k + StarCount(d.width) + StarCount(d.precision))
  }

  // The text

  function NumberBase(c: char): Base {
    if c == 'o' then 8 else if c == 'x' || c == 'X' then 16 else 10
  }

  /** What a conversion makes of its operand. */
  function ConversionText(c: char, qualifier: char, width: int, precision: int, f: Flags, v: Arg): seq<char> {
    if c == 'c' then Justified([(v.bits % 256) as char], width, f.left)
    else if c == 's' then StringText(v.text, width, precision, f.left)
    else if c == 'p' then
      NumberText(v.bits % TWO_32, 16, if width == -1 then 8 else width, precision,
                 f.(small := true, zeropad := f.zeropad || width == -1))
    else if c == 'n' then ""
    else if IsInteger(c) then
      var signed := c == 'd' || c == 'i';
      NumberText(Fetched(v.bits, qualifier, signed), NumberBase(c), width, precision, f.(small := c == 'x', sign := signed))
    else if c == '%' || c == NUL then "%"
    else ['%', c]
  }

  function ItemText(item: Item, args: Args, k: nat): seq<char> {
    match item
    case Plain(c) => [c]
    case Conversion(_, d) =>
      ConversionText(d.conversion, d.qualifier, Width(d, args, k), Precision(d, args, k),
                     d.flags.(left := IsLeft(d, args, k)), Operand(d, args, k))
  }

  /** What becomes of an item: its text, and whether the length so far is stored. */
  datatype Field = Field(text: seq<char>, stores: bool)

  function Fields(items: seq<Item>, args: Args, k: nat): seq<Field> {
    if items == [] then []
    else
      [Field(ItemText(items[0], args, k), items[0].Conversion? && items[0].d.conversion == 'n')]
      + Fields(items[1..], args, k + ArgCount(items[0]))
  }

  function Joined(fields: seq<Field>): seq<char> {
    if fields == [] then [] else fields[0].text + Joined(fields[1..])
  }

  /** The counts that the `%n` directives store, in order, when `count` characters stand in front. */
  function Counts(fields: seq<Field>, count: nat): seq<nat> {
    if fields == [] then []
    else (if fields[0].stores then [count] else []) + Counts(fields[1..], count + |fields[0].text|)
  }

  /** All that a format asks for. */
  function Output(fmt: seq<char>, args: Args): seq<char> {
    Joined(Fields(Items(fmt, 0), args, 0))
  }

  function Stores(fmt: seq<char>, args: Args): seq<nat> {
    Counts(Fields(Items(fmt, 0), args, 0), 0)
  }

  // Its length

  function NumberRoom(num: nat, b: Base, width: int, precision: int, f: Flags): int
    requires num < TWO_64
  {
    var head := |SignText(num, f)| + |PrefixText(b, f)|;
    Max(width, head + Max(|Digits(Magnitude(num, f), b)|, precision))
  }

  function ConversionLength(c: char, qualifier: char, width: int, precision: int, f: Flags, v: Arg): int {
    if c == 'c' then Max(width, 1)
    else if c == 's' then
      var n := |Shown(v.text)|;
      Max(width, if precision < 0 || precision > n then n else precision)
    else if c == 'p' then NumberRoom(v.bits % TWO_32, 16, if width == -1 then 8 else width, precision, f)
    else if c == 'n' then 0
    else if IsInteger(c) then
      var signed := c == 'd' || c == 'i';
      NumberRoom(Fetched(v.bits, qualifier, signed), NumberBase(c), width, precision, f.(sign := signed))
    else if c == '%' || c == NUL then 1
    else 2
  }

  function ItemLength(item: Item, args: Args, k: nat): int {
    match item
    case Plain(_) => 1
    case Conversion(_, d) =>
      ConversionLength(d.conversion, d.qualifier, Width(d, args, k), Precision(d, args, k),
                       d.flags.(left := IsLeft(d, args, k)), Operand(d, args, k))
  }

  function TotalLength(items: seq<Item>, args: Args, k: nat): int {
    if items == [] then 0 else ItemLength(items[0], args, k) + TotalLength(items[1..], args, k + ArgCount(items[0]))
  }

  lemma NumberFills(num: nat, b: Base, width: int, precision: int, f: Flags, g: Flags)
    requires num < TWO_64 && f.sign == g.sign && f.plus == g.plus && f.space == g.space && f.special == g.special
    ensures |NumberText(num, b, width, precision, f)| == NumberRoom(num, b, width, precision, g)
  {
    NumberLength(num, b, width, precision, f);
  }

  lemma IntegerFills(c: char, qualifier: char, width: int, precision: int, f: Flags, v: Arg)
    requires IsInteger(c)
    ensures |ConversionText(c, qualifier, width, precision, f, v)| == ConversionLength(c, qualifier, width, precision, f, v)
  {
    var signed := c == 'd' || c == 'i';
    NumberFills(Fetched(v.bits, qualifier, signed), NumberBase(c), width, precision,
                f.(small := c == 'x', sign := signed), f.(sign := signed));
  }

  /** Every directive fills its field: the wider of the asked width and what it has to show. */
  lemma ConversionFills(c: char, qualifier: char, width: int, precision: int, f: Flags, v: Arg)
    ensures |ConversionText(c, qualifier, width, precision, f, v)| == ConversionLength(c, qualifier, width, precision, f, v)
  {
    if c == 's' {
      StringLength(v.text, width, precision, f.left);
    } else if c == 'p' {
      NumberFills(v.bits % TWO_32, 16, if width == -1 then 8 else width, precision,
                  f.(small := true, zeropad := f.zeropad || width == -1), f);
    } else if IsInteger(c) {
      IntegerFills(c, qualifier, width, precision, f, v);
    }
  }

  lemma ItemFills(item: Item, args: Args, k: nat)
    ensures |ItemText(item, args, k)| == ItemLength(item, args, k)
  {
    match item {
      case Plain(_) =>
      case Conversion(_, d) =>
        ConversionFills(d.conversion, d.qualifier, Width(d, args, k), Precision(d, args, k),
                        d.flags.(left := IsLeft(d, args, k)), Operand(d, args, k));
    }
  }

  lemma JoinedLength(first: Field, rest: seq<Field>)
    ensures |Joined([first] + rest)| == |first.text| + |Joined(rest)|
  {
    assert ([first] + rest)[1..] == rest;
  }

  /** The length of the whole output is the sum of the fields. */
  lemma {:induction false} OutputFills(items: seq<Item>, args: Args, k: nat)
    ensures |Joined(Fields(items, args, k))| == TotalLength(items, args, k)
  {
    if items != [] {
      var text := ItemText(items[0], args, k);
      ItemFills(items[0], args, k);
      OutputFills(items[1..], args, k + ArgCount(items[0]));
      JoinedLength(Fields(items, args, k)[0], Fields(items[1..], args, k + ArgCount(items[0])));
    }
  }
}
