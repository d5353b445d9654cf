/** `vsnprintf_internal`: one scan over the format, with its output. */
module Vsnprintf {
  import opened Numerals
  import opened Div64
  import opened Layout
  import opened CText
  import opened Format
  import Printer

  lemma OneLonger(s: seq<char>, i: nat, j: nat)
    requires i <= j < |s|
    ensures s[i..j + 1][..j - i] == s[i..j] && s[i..j + 1] == s[i..j] + [s[j]] && |s[i..j + 1]| == j + 1 - i
  {
  }

  /** `skip_atoi`. */
  method SkipAtoi(s: seq<char>, i: nat) returns (v: nat, j: nat)
    requires i <= |s|
    ensures j == DigitsEnd(s, i) && v == Atoi(s[i..j])
  {
    v, j := 0, i;
    while IsDigit(At(s, j))
      invariant i <= j <= |s| && DigitsEnd(s, j) == DigitsEnd(s, i)
      invariant (forall k | i <= k < j :: IsDigit(s[k])) && v == Atoi(s[i..j])
      decreases |s| - j
    {
      OneLonger(s, i, j);
      v := v * 10 + DigitValue(At(s, j));
      j := j + 1;
    }
  }

  /** The loop of `goto repeat`. */
  method TakeFlags(s: seq<char>, i: nat) returns (f: Flags, j: nat)
    requires i <= |s|
    ensures j == FlagsEnd(s, i) && f == FlagSet(s[i..j])
  {
    f, j := Flags(false, false, false, false, false, false, false), i;
    while IsFlag(At(s, j))
      invariant i <= j <= |s| && FlagsEnd(s, j) == FlagsEnd(s, i)
      invariant f == FlagSet(s[i..j])
      decreases |s| - j
    {
      OneLonger(s, i, j);
      match At(s, j) {
        case '-' => f := f.(left := true);
        case '+' => f := f.(plus := true);
        case ' ' => f := f.(space := true);
        case '#' => f := f.(special := true);
        case _ => f := f.(zeropad := true);
      }
      j := j + 1;
    }
  }

  /** A width, given or taken from the arguments. */
  method TakeWidth(s: seq<char>, i: nat, args: Args, k: nat) returns (width: int, left: bool, j: nat, used: nat)
    requires i <= |s|
    ensures var (amount, e) := WidthAt(s, i);
            && j == e && used == k + StarCount(amount)
            && (amount.Absent? ==> width == -1 && !left)
            && (amount.Given? ==> width == amount.n && !left)
            && (amount.FromArgument? ==>
                  var w := Signed32(args(k).bits); left == (w < 0) && width == if w < 0 then -w else w)
  {
    width, left, j, used := -1, false, i, k;
    if IsDigit(At(s, j)) {
      width, j := SkipAtoi(s, j);
    } else if At(s, j) == '*' {
      j := j + 1;
      width := Signed32(args(used).bits);
      used := used + 1;
      if width < 0 {
        width := -width;
        left := true;
      }
    }
  }

  method TakePrecision(s: seq<char>, i: nat, args: Args, k: nat) returns (precision: int, j: nat, used: nat)
    requires i <= |s|
    ensures var (amount, e) := PrecisionAt(s, i);
            && j == e && used == k + StarCount(amount)
            && (amount.Absent? ==> precision == -1)
            && (amount.Given? ==> precision == amount.n)
            && (amount.FromArgument? ==> precision == Max(Signed32(args(k).bits), 0))
  {
    precision, j, used := -1, i, k;
    if At(s, j) == '.' {
      j := j + 1;
      if IsDigit(At(s, j)) {
        precision, j := SkipAtoi(s, j);
      } else if At(s, j) == '*' {
        j := j + 1;
        precision := Signed32(args(used).bits);
        used := used + 1;
      }
      if precision < 0 {
        precision := 0;
      }
    }
  }

  method TakeQualifier(s: seq<char>, i: nat) returns (qualifier: char, j: nat)
    requires i <= |s|
    ensures (qualifier, j) == QualifierAt(s, i)
  {
    qualifier, j := NUL, i;
    if IsQualifier(At(s, j)) {
      qualifier := At(s, j);
      j := j + 1;
      if qualifier == 'l' && At(s, j) == 'l' {
        qualifier := 'L';
        j := j + 1;
      }
    }
  }

  /** Everything between the percent sign and the conversion character. */
  method TakeDirective(s: seq<char>, i: nat, args: Args, k: nat)
    returns (f: Flags, width: int, precision: int, qualifier: char, j: nat, used: nat)
    requires i < |s| && s[i] == '%'
    ensures var (d, e) := Scan(s, i);
            && j == e && qualifier == d.qualifier && used == k + StarCount(d.width) + StarCount(d.precision)
            && width == Width(d, args, k) && precision == Precision(d, args, k)
            && f == d.flags.(left := IsLeft(d, args, k))
  {
    ghost var d := Scan(s, i).0;
    f, j := TakeFlags(s, i + 1);
    assert f == d.flags;
    var left;
    width, left, j, used := TakeWidth(s, j, args, k);
    assert width == Width(d, args, k) && used == k + StarCount(d.width);
    if left {
      f := f.(left := true);
    }
    assert f == d.flags.(left := IsLeft(d, args, k));
    precision, j, used := TakePrecision(s, j, args, used);
    assert precision == Precision(d, args, k);
    qualifier, j := TakeQualifier(s, j);
  }

  method SkipAlnum(s: seq<char>, i: nat) returns (j: nat)
    requires i <= |s|
    ensures j == AlnumEnd(s, i)
  {
    j := i;
    while IsAlnum(At(s, j))
      invariant i <= j <= |s| && AlnumEnd(s, j) == AlnumEnd(s, i)
      decreases |s| - j
    {
      j := j + 1;
    }
  }

  /** The character conversion, with its own padding loops. */
  method PutChar(buf: seq<char>, c: char, width: int, left: bool) returns (out: seq<char>)
    ensures out == buf + Justified([c], width, left)
  {
    var w := width;
    out := buf;
    if !left {
      out, w := PadChar(out, w);
    }
    out := out + [c];
    out, w := PadChar(out, w);
    Printer.Framed(buf, [c], width - 1, left);
  }

  /** The padding loop of the character conversion, which leaves room for the character. */
  method PadChar(buf: seq<char>, width: int) returns (out: seq<char>, rest: int)
    ensures out == buf + Repeat(' ', width - 1) && rest <= 0
  {
    out := buf;
    rest := width - 1;
    while rest > 0
      invariant rest >= 0 || rest == width - 1
      invariant out == buf + Repeat(' ', width - 1 - rest)
    {
      out := out + [' '];
      rest := rest - 1;
    }
    assert Repeat(' ', width - 1 - rest) == Repeat(' ', width - 1);
  }

  /** `pointer`. */
  method PutPointer(buf: seq<char>, bits: nat, width: int, precision: int, f: Flags) returns (out: seq<char>)
    ensures out == buf + NumberText(bits % TWO_32, 16, if width == -1 then 8 else width, precision,
                                    f.(small := true, zeropad := f.zeropad || width == -1))
  {
    var g, w := f.(small := true), width;
    if w == -1 {
      w := 8;
      g := g.(zeropad := true);
    }
    out := Printer.Number(buf, bits % TWO_32, 16, w, precision, g);
  }

  /** The number of an integer conversion, by its qualifier. */
  method Fetch(bits: nat, qualifier: char, signed: bool) returns (num: nat)
    ensures num == Fetched(bits, qualifier, signed)
  {
    if qualifier == 'L' {
      num := bits % TWO_64;
    } else if qualifier == 'l' {
      num := bits % TWO_32;
      if signed {
        num := Wide(Signed32(bits));
      }
    } else if qualifier == 'Z' || qualifier == 'z' {
      num := bits % TWO_32;
    } else if qualifier == 't' {
      num := Wide(Signed32(bits));
    } else if qualifier == 'h' {
      num := bits % 0x1_0000;
      if signed {
        num := Wide(Signed16(num));
      }
    } else {
      num := bits % TWO_32;
      if signed {
        num := Wide(Signed32(num));
      }
    }
  }

  /** Base and flags of an integer conversion. */
  method TakeBase(c: char, flags: Flags) returns (base: Base, f: Flags)
    requires IsInteger(c)
    ensures base == NumberBase(c) && f == flags.(small := c == 'x', sign := c == 'd' || c == 'i')
  {
    base, f := 10, flags.(small := false, sign := false);
    match c {
      case 'o' => base := 8;
      case 'x' => f := f.(small := true); base := 16;
      case 'X' => base := 16;
      case 'd' => f := f.(sign := true);
      case 'i' => f := f.(sign := true);
      case _ =>
    }
  }

  method PutInteger(buf: seq<char>, c: char, bits: nat, qualifier: char, width: int, precision: int, flags: Flags)
    returns (out: seq<char>)
    requires IsInteger(c)
    ensures var signed := c == 'd' || c == 'i';
            out == buf + NumberText(Fetched(bits, qualifier, signed), NumberBase(c), width, precision,
                                    flags.(small := c == 'x', sign := signed))
  {
    var base, f := TakeBase(c, flags);
    var num := Fetch(bits, qualifier, f.sign);
    out := Printer.Number(buf, num, base, width, precision, f);
  }

  /** The switch over the conversion character. */
  method Convert(buf: seq<char>, c: char, qualifier: char, width: int, precision: int, f: Flags, args: Args, k: nat)
    returns (out: seq<char>, used: nat, stored: bool)
    ensures out == buf + ConversionText(c, qualifier, width, precision, f, args(k))
    ensures used == k + (if Reads(c) then 1 else 0)
    ensures stored <==> c == 'n'
  {
    var v := args(k);
    used, stored := k + 1, false;
    match c {
      case 'c' => out := PutChar(buf, (v.bits % 256) as char, width, f.left);
      case 's' => out := Printer.StringField(buf, v.text, width, precision, f.left);
      case 'p' => out := PutPointer(buf, v.bits, width, precision, f);
      case 'n' => out, stored := buf, true;
      case '%' => out, used := buf + ['%'], k;
      case _ =>
        if IsInteger(c) {
          out := PutInteger(buf, c, v.bits, qualifier, width, precision, f);
        } else {
          out, used := buf + ['%'], k;
          if c != NUL {
            out := out + [c];
          }
        }
    }
  }

  /** The steps to the next item, past a pointer's suffix, but not past the terminator. */
  method Advance(s: seq<char>, e: nat) returns (j: nat)
    requires e <= |s| && NUL !in s
    ensures j == After(s, e)
  {
    var last: int := e;
    if At(s, e) == NUL {
      last := last - 1;
    } else if At(s, e) == 'p' {
      last := SkipAlnum(s, e + 1);
      last := last - 1;
    }
    j := last + 1;
  }

  lemma DirectiveText(spelling: seq<char>, d: Directive, args: Args, k: nat, width: int, precision: int, f: Flags, used: nat)
    requires width == Width(d, args, k) && precision == Precision(d, args, k) && f == d.flags.(left := IsLeft(d, args, k))
    requires used == k + StarCount(d.width) + StarCount(d.precision)
    ensures ItemText(Conversion(spelling, d), args, k) ==
            ConversionText(d.conversion, d.qualifier, width, precision, f, args(used))
  {
    var item := Conversion(spelling, d);
    assert item.d == d && Operand(d, args, k) == args(used);
  }

  /** One directive: its text, its arguments, and whether it stores the count. */
  method PutDirective(fmt: seq<char>, i: nat, args: Args, k: nat, out: seq<char>)
    returns (out': seq<char>, i': nat, k': nat, stored: bool, ghost item: Item, ghost text: seq<char>)
    requires i < |fmt| && NUL !in fmt && fmt[i] == '%'
    ensures i < i' <= |fmt| && Items(fmt, i) == [item] + Items(fmt, i')
    ensures text == ItemText(item, args, k) && out' == out + text && k' == k + ArgCount(item)
    ensures stored <==> item.Conversion? && item.d.conversion == 'n'
  {
    ghost var (d, e) := Scan(fmt, i);
    var f, width, precision, qualifier;
    f, width, precision, qualifier, i', k' := TakeDirective(fmt, i, args, k);
    DirectiveText(fmt[i..After(fmt, e)], d, args, k, width, precision, f, k');
    text := ConversionText(d.conversion, d.qualifier, width, precision, f, args(k'));
    out', k', stored := Convert(out, At(fmt, i'), qualifier, width, precision, f, args, k');
    i' := Advance(fmt, i');
    item := Conversion(fmt[i..i'], d);
  }

  /** One item. */
  method PutOne(fmt: seq<char>, i: nat, args: Args, k: nat, out: seq<char>)
    returns (out': seq<char>, i': nat, k': nat, stored: bool, ghost item: Item, ghost text: seq<char>)
    requires i < |fmt| && NUL !in fmt
    ensures i < i' <= |fmt| && Items(fmt, i) == [item] + Items(fmt, i')
    ensures text == ItemText(item, args, k) && out' == out + text && k' == k + ArgCount(item)
    ensures stored <==> item.Conversion? && item.d.conversion == 'n'
  {
    if fmt[i] != '%' {
      out', i', k', stored := out + [fmt[i]], i + 1, k, false;
      item, text := Plain(fmt[i]), [fmt[i]];
    } else {
      out', i', k', stored, item, text := PutDirective(fmt, i, args, k, out);
    }
  }

  /** One item, with the fields that are then left. */
  method PutItem(fmt: seq<char>, i: nat, args: Args, k: nat, out: seq<char>)
    returns (out': seq<char>, i': nat, k': nat, stored: bool, ghost text: seq<char>, ghost rest: seq<Field>)
    requires i < |fmt| && NUL !in fmt
    ensures i < i' <= |fmt| && out' == out + text && rest == Fields(Items(fmt, i'), args, k')
    ensures Fields(Items(fmt, i), args, k) == [Field(text, stored)] + rest
  {
    ghost var item;
    out', i', k', stored, item, text := PutOne(fmt, i, args, k, out);
    rest := Fields(Items(fmt, i'), args, k');
    FieldsGrow(Items(fmt, i), item, Items(fmt, i'), args, k);
  }

  lemma FieldsGrow(items: seq<Item>, item: Item, rest: seq<Item>, args: Args, k: nat)
    requires items == [item] + rest
    ensures Fields(items, args, k) ==
            [Field(ItemText(item, args, k), item.Conversion? && item.d.conversion == 'n')] + Fields(rest, args, k + ArgCount(item))
  {
    assert items[0] == item && items[1..] == rest;
  }

  lemma JoinedGrows(out: seq<char>, first: Field, rest: seq<Field>)
    ensures out + Joined([first] + rest) == (out + first.text) + Joined(rest)
  {
    assert ([first] + rest)[1..] == rest;
    assert out + (first.text + Joined(rest)) == (out + first.text) + Joined(rest);
  }

  lemma CountsGrow(stores: seq<nat>, first: Field, rest: seq<Field>, count: nat)
    ensures stores + Counts([first] + rest, count) ==
            (if first.stores then stores + [count] else stores) + Counts(rest, count + |first.text|)
  {
    assert ([first] + rest)[1..] == rest;
    var more := Counts(rest, count + |first.text|);
    if first.stores {
      assert stores + ([count] + more) == (stores + [count]) + more;
    } else {
      assert [] + more == more;
    }
  }

  /** One item, and what is left to put out and to store. */
  method Step(fmt: seq<char>, i: nat, args: Args, k: nat, out: seq<char>, stores: seq<nat>, ghost fields: seq<Field>)
    returns (out': seq<char>, stores': seq<nat>, i': nat, k': nat, ghost rest: seq<Field>)
    requires i < |fmt| && NUL !in fmt && fields == Fields(Items(fmt, i), args, k)
    ensures i < i' <= |fmt| && rest == Fields(Items(fmt, i'), args, k')
    ensures out' + Joined(rest) == out + Joined(fields)
    ensures stores' + Counts(rest, |out'|) == stores + Counts(fields, |out|)
  {
    var stored;
    ghost var text;
    out', i', k', stored, text, rest := PutItem(fmt, i, args, k, out);
    JoinedGrows(out, Field(text, stored), rest);
    CountsGrow(stores, Field(text, stored), rest, |out|);
    stores' := if stored then stores + [|out|] else stores;
  }

  /** The loop over the format. */
  method PutItems(fmt: seq<char>, args: Args, ghost fields: seq<Field>) returns (out: seq<char>, stores: seq<nat>)
    requires NUL !in fmt && fields == Fields(Items(fmt, 0), args, 0)
    ensures out == Joined(fields) && stores == Counts(fields, 0)
  {
    var i, k := 0, 0;
    out, stores := [], [];
    ghost var left := fields;
    while At(fmt, i) != NUL
      invariant i <= |fmt| && left == Fields(Items(fmt, i), args, k)
      invariant out + Joined(left) == Joined(fields)
      invariant stores + Counts(left, |out|) == Counts(fields, 0)
      decreases |fmt| - i
    {
      out, stores, i, k, left := Step(fmt, i, args, k, out, stores, left);
    }
    assert left == [];
  }

  /** `vsnprintf_internal`. The value it returns is the length of `out`; `stores` are the counts that
      `%n` directives store. The scan reads no character behind the end except the terminator at it. */
  method Vsnprintf(fmt: seq<char>, args: Args) returns (out: seq<char>, stores: seq<nat>, count: nat)
    requires NUL !in fmt
    ensures out == Output(fmt, args) && stores == Stores(fmt, args)
    ensures count == |out| == TotalLength(Items(fmt, 0), args, 0)
  {
    out, stores := PutItems(fmt, args, Fields(Items(fmt, 0), args, 0));
    count := |out|;
    OutputFills(Items(fmt, 0), args, 0);
  }
}
