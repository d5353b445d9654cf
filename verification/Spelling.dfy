/** Writing directives, and reading them back with the scanner of formats. */
module Spelling {
  import opened Layout
  import opened CText
  import opened Format

  /** A character, if its flag is on. */
  function One(on: bool, c: char): seq<char> {
    if on then [c] else []
  }

  function FlagText(f: Flags): seq<char> {
    One(f.left, '-') + (One(f.plus, '+') + (One(f.space, ' ') + (One(f.special, '#') + One(f.zeropad, '0'))))
  }

  /** `t` are digits for the amount, if it is given. */
  ghost predicate Denotes(a: Amount, t: seq<char>) {
    a.Given? ==> t != [] && (forall k | 0 <= k < |t| :: IsDigit(t[k])) && Atoi(t) == a.n
  }

  function AmountText(a: Amount, t: seq<char>): seq<char> {
    match a
    case Absent => ""
    case Given(_) => t
    case FromArgument => "*"
  }

  function PrecisionText(a: Amount, t: seq<char>): seq<char> {
    if a.Absent? then "" else "." + AmountText(a, t)
  }

  function QualifierText(q: char): seq<char> {
    if q == NUL then "" else [q]
  }

  /** A directive, with some digits for its width and its precision. */
  function Written(d: Directive, width: seq<char>, precision: seq<char>): seq<char> {
    "%" + (FlagText(d.flags)
           + (AmountText(d.width, width)
              + (PrecisionText(d.precision, precision) + (QualifierText(d.qualifier) + [d.conversion]))))
  }

  /** Width digits that begin with a zero would read as a flag, and a conversion character that means
      something before the end would be taken for that. */
  ghost predicate Writable(d: Directive, width: seq<char>, precision: seq<char>) {
    && !d.flags.sign && !d.flags.small && Denotes(d.width, width) && Denotes(d.precision, precision)
    && (d.width.Given? ==> width[0] != '0')
    && (d.qualifier == NUL || IsQualifier(d.qualifier)) && IsConversion(d.conversion)
  }

  predicate IsConversion(c: char) {
    c != NUL && !IsFlag(c) && !IsDigit(c) && !IsQualifier(c) && c != '*' && c != '.'
  }

  // Runs of characters

  lemma {:induction false} FlagsCover(s: seq<char>, i: nat, j: nat)
    requires i <= j <= |s| && (forall k | i <= k < j :: IsFlag(s[k])) && (j < |s| ==> !IsFlag(s[j]))
    ensures FlagsEnd(s, i) == j
    decreases j - i
  {
    if i < j {
      FlagsCover(s, i + 1, j);
    }
  }

  lemma {:induction false} DigitsCover(s: seq<char>, i: nat, j: nat)
    requires i <= j <= |s| && (forall k | i <= k < j :: IsDigit(s[k])) && (j < |s| ==> !IsDigit(s[j]))
    ensures DigitsEnd(s, i) == j
    decreases j - i
  {
    if i < j {
      DigitsCover(s, i + 1, j);
    }
  }

  lemma InOne(on: bool, c: char, t: seq<char>, x: char)
    ensures x in One(on, c) + t <==> (on && x == c) || x in t
  {
  }

  lemma InFlagText(f: Flags, x: char)
    ensures x in FlagText(f) <==>
            || (f.left && x == '-') || (f.plus && x == '+') || (f.space && x == ' ')
            || (f.special && x == '#') || (f.zeropad && x == '0')
  {
    var t1 := One(f.zeropad, '0');
    var t2 := One(f.special, '#') + t1;
    var t3 := One(f.space, ' ') + t2;
    var t4 := One(f.plus, '+') + t3;
    InOne(f.special, '#', t1, x);
    InOne(f.space, ' ', t2, x);
    InOne(f.plus, '+', t3, x);
    InOne(f.left, '-', t4, x);
  }

  lemma FlagsRead(f: Flags)
    requires !f.sign && !f.small
    ensures FlagSet(FlagText(f)) == f && forall k | 0 <= k < |FlagText(f)| :: IsFlag(FlagText(f)[k])
  {
    InFlagText(f, '-');
    InFlagText(f, '+');
    InFlagText(f, ' ');
    InFlagText(f, '#');
    InFlagText(f, '0');
    var text := FlagText(f);
    forall k | 0 <= k < |text| ensures IsFlag(text[k]) {
      InFlagText(f, text[k]);
    }
  }

  // Reading each part

  /** `part` stands in `s` at `i`. */
  predicate Stands(s: seq<char>, i: nat, part: seq<char>) {
    i + |part| <= |s| && s[i..i + |part|] == part
  }

  lemma StandsParts(s: seq<char>, i: nat, x: seq<char>, y: seq<char>)
    requires Stands(s, i, x + y)
    ensures Stands(s, i, x) && Stands(s, i + |x|, y)
    ensures x != [] ==> s[i] == x[0]
    ensures y != [] ==> At(s, i + |x|) == y[0]
  {
    var z := x + y;
    assert z[..|x|] == x && z[|x|..] == y;
    assert s[i..i + |x|] == s[i..i + |z|][..|x|];
    assert s[i + |x|..i + |x| + |y|] == s[i..i + |z|][|x|..];
  }

  lemma FlagRun(s: seq<char>, i: nat, t: seq<char>, rest: seq<char>)
    requires Stands(s, i, t + rest) && rest != [] && !IsFlag(rest[0]) && forall k | 0 <= k < |t| :: IsFlag(t[k])
    ensures FlagsEnd(s, i) == i + |t| && s[i..i + |t|] == t && Stands(s, i + |t|, rest)
  {
    StandsParts(s, i, t, rest);
    forall k | i <= k < i + |t| ensures IsFlag(s[k]) {
      assert s[k] == s[i..i + |t|][k - i] == t[k - i];
    }
    FlagsCover(s, i, i + |t|);
  }

  lemma DigitRun(s: seq<char>, i: nat, t: seq<char>, rest: seq<char>)
    requires Stands(s, i, t + rest) && rest != [] && !IsDigit(rest[0]) && forall k | 0 <= k < |t| :: IsDigit(t[k])
    ensures DigitsEnd(s, i) == i + |t| && s[i..i + |t|] == t
  {
    StandsParts(s, i, t, rest);
    forall k | i <= k < i + |t| ensures IsDigit(s[k]) {
      assert s[k] == s[i..i + |t|][k - i] == t[k - i];
    }
    DigitsCover(s, i, i + |t|);
  }

  lemma AmountRead(s: seq<char>, i: nat, a: Amount, t: seq<char>, text: seq<char>, rest: seq<char>)
    requires Denotes(a, t) && text == AmountText(a, t) && Stands(s, i, text + rest)
    requires rest != [] && !IsDigit(rest[0]) && (a.Absent? ==> rest[0] != '*')
    ensures WidthAt(s, i) == (a, i + |text|) && Stands(s, i + |text|, rest)
  {
    StandsParts(s, i, text, rest);
    if a.Given? {
      DigitRun(s, i, t, rest);
    }
  }

  lemma PrecisionRead(s: seq<char>, i: nat, a: Amount, t: seq<char>, text: seq<char>, rest: seq<char>)
    requires Denotes(a, t) && text == PrecisionText(a, t) && Stands(s, i, text + rest)
    requires rest != [] && !IsDigit(rest[0]) && (a.Absent? ==> rest[0] != '.')
    ensures PrecisionAt(s, i) == (a, i + |text|) && Stands(s, i + |text|, rest)
  {
    StandsParts(s, i, text, rest);
    if !a.Absent? {
      var amount := AmountText(a, t);
      assert text + rest == "." + (amount + rest);
      StandsParts(s, i, ".", amount + rest);
      AmountRead(s, i + 1, a, t, amount, rest);
    }
  }

  lemma QualifierRead(s: seq<char>, i: nat, q: char, text: seq<char>, c: char)
    requires text == QualifierText(q) && (q == NUL || IsQualifier(q)) && !IsQualifier(c) && Stands(s, i, text + [c])
    ensures QualifierAt(s, i) == (q, i + |text|) && At(s, i + |text|) == c
  {
    StandsParts(s, i, text, [c]);
  }

  // Reading a directive

  lemma ScanIs(s: seq<char>, i: nat, a: nat, w: nat, p: nat, e: nat, d: Directive)
    requires i < |s| && s[i] == '%' && FlagsEnd(s, i + 1) == a && FlagSet(s[i + 1..a]) == d.flags
    requires WidthAt(s, a) == (d.width, w) && PrecisionAt(s, w) == (d.precision, p)
    requires QualifierAt(s, p) == (d.qualifier, e) && At(s, e) == d.conversion
    ensures Scan(s, i) == (d, e)
  {
  }

  // No part is taken for more of the part in front of it

  lemma QualifierStarts(q: char, c: char, text: seq<char>)
    requires (q == NUL || IsQualifier(q)) && IsConversion(c) && text == QualifierText(q) + [c]
    ensures text != [] && !IsFlag(text[0]) && !IsDigit(text[0]) && text[0] != '*' && text[0] != '.'
  {
  }

  lemma PrecisionStarts(a: Amount, t: seq<char>, text: seq<char>, rest: seq<char>)
    requires text == PrecisionText(a, t) && rest != [] && !IsFlag(rest[0]) && !IsDigit(rest[0]) && rest[0] != '*'
    ensures var c := (text + rest)[0]; !IsFlag(c) && !IsDigit(c) && c != '*'
  {
    assert text != [] ==> text[0] == '.';
  }

  lemma WidthStarts(a: Amount, t: seq<char>, text: seq<char>, rest: seq<char>)
    requires Denotes(a, t) && (a.Given? ==> t[0] != '0') && text == AmountText(a, t) && rest != [] && !IsFlag(rest[0])
    ensures !IsFlag((text + rest)[0])
  {
  }

  lemma EndReads(s: seq<char>, i: nat, d: Directive, pt: seq<char>, p: seq<char>, q: seq<char>, rest: seq<char>)
    requires Denotes(d.precision, pt) && p == PrecisionText(d.precision, pt) && q == QualifierText(d.qualifier)
    requires (d.qualifier == NUL || IsQualifier(d.qualifier)) && IsConversion(d.conversion)
    requires rest == q + [d.conversion] && Stands(s, i, p + rest)
    ensures PrecisionAt(s, i) == (d.precision, i + |p|)
    ensures QualifierAt(s, i + |p|) == (d.qualifier, i + |p| + |q|) && At(s, i + |p| + |q|) == d.conversion
  {
    QualifierStarts(d.qualifier, d.conversion, rest);
    PrecisionRead(s, i, d.precision, pt, p, rest);
    QualifierRead(s, i + |p|, d.qualifier, q, d.conversion);
  }

  lemma HeadReads(s: seq<char>, i: nat, f: seq<char>, rest: seq<char>)
    requires Stands(s, i, "%" + (f + rest)) && rest != [] && !IsFlag(rest[0]) && forall k | 0 <= k < |f| :: IsFlag(f[k])
    ensures i < |s| && s[i] == '%' && FlagsEnd(s, i + 1) == i + 1 + |f| && s[i + 1..i + 1 + |f|] == f
    ensures Stands(s, i + 1 + |f|, rest)
  {
    StandsParts(s, i, "%", f + rest);
    FlagRun(s, i + 1, f, rest);
  }

  lemma RestStarts(d: Directive, wt: seq<char>, pt: seq<char>, w: seq<char>, p: seq<char>, tail: seq<char>, rest: seq<char>)
    requires Writable(d, wt, pt) && tail == QualifierText(d.qualifier) + [d.conversion] && rest == p + tail
    requires w == AmountText(d.width, wt) && p == PrecisionText(d.precision, pt)
    ensures rest != [] && !IsDigit(rest[0]) && rest[0] != '*' && !IsFlag((w + rest)[0])
  {
    QualifierStarts(d.qualifier, d.conversion, tail);
    PrecisionStarts(d.precision, pt, p, tail);
    WidthStarts(d.width, wt, w, rest);
  }

  lemma TailReads(s: seq<char>, a: nat, d: Directive, wt: seq<char>, pt: seq<char>,
                  w: seq<char>, p: seq<char>, q: seq<char>, tail: seq<char>, rest: seq<char>)
    requires Denotes(d.width, wt) && Denotes(d.precision, pt) && tail == q + [d.conversion] && rest == p + tail
    requires (d.qualifier == NUL || IsQualifier(d.qualifier)) && IsConversion(d.conversion)
    requires w == AmountText(d.width, wt) && p == PrecisionText(d.precision, pt) && q == QualifierText(d.qualifier)
    requires rest != [] && !IsDigit(rest[0]) && rest[0] != '*' && Stands(s, a, w + rest)
    ensures WidthAt(s, a) == (d.width, a + |w|) && PrecisionAt(s, a + |w|) == (d.precision, a + |w| + |p|)
    ensures QualifierAt(s, a + |w| + |p|) == (d.qualifier, a + |w| + |p| + |q|)
    ensures At(s, a + |w| + |p| + |q|) == d.conversion
  {
    AmountRead(s, a, d.width, wt, w, rest);
    EndReads(s, a + |w|, d, pt, p, q, tail);
  }

  lemma HeadParts(s: seq<char>, i: nat, d: Directive, wt: seq<char>, pt: seq<char>,
                  f: seq<char>, w: seq<char>, p: seq<char>, tail: seq<char>, rest: seq<char>)
    requires Writable(d, wt, pt) && forall k | 0 <= k < |f| :: IsFlag(f[k])
    requires w == AmountText(d.width, wt) && p == PrecisionText(d.precision, pt)
    requires tail == QualifierText(d.qualifier) + [d.conversion] && rest == p + tail && Stands(s, i, "%" + (f + (w + rest)))
    ensures i < |s| && s[i] == '%' && FlagsEnd(s, i + 1) == i + 1 + |f| && s[i + 1..i + 1 + |f|] == f
    ensures rest != [] && !IsDigit(rest[0]) && rest[0] != '*' && Stands(s, i + 1 + |f|, w + rest)
  {
    RestStarts(d, wt, pt, w, p, tail, rest);
    HeadReads(s, i, f, w + rest);
  }

  lemma ScanParts(s: seq<char>, i: nat, d: Directive, wt: seq<char>, pt: seq<char>,
                  f: seq<char>, w: seq<char>, p: seq<char>, q: seq<char>, tail: seq<char>, rest: seq<char>)
    requires Writable(d, wt, pt) && FlagSet(f) == d.flags && forall k | 0 <= k < |f| :: IsFlag(f[k])
    requires w == AmountText(d.width, wt) && p == PrecisionText(d.precision, pt) && q == QualifierText(d.qualifier)
    requires tail == q + [d.conversion] && rest == p + tail && Stands(s, i, "%" + (f + (w + rest)))
    ensures i < |s| && s[i] == '%' && Scan(s, i) == (d, i + 1 + |f| + |w| + |p| + |q|)
  {
    var a := i + 1 + |f|;
    HeadParts(s, i, d, wt, pt, f, w, p, tail, rest);
    TailReads(s, a, d, wt, pt, w, p, q, tail, rest);
    ScanIs(s, i, a, a + |w|, a + |w| + |p|, a + |w| + |p| + |q|, d);
  }

  /** Wherever a directive is written, the scanner reads exactly this directive, and ends at its last character. */
  lemma ScanReads(s: seq<char>, i: nat, d: Directive, width: seq<char>, precision: seq<char>)
    requires Writable(d, width, precision) && Stands(s, i, Written(d, width, precision))
    ensures i < |s| && s[i] == '%' && Scan(s, i) == (d, i + |Written(d, width, precision)| - 1)
  {
    FlagsRead(d.flags);
    var p, q := PrecisionText(d.precision, precision), QualifierText(d.qualifier);
    var tail := q + [d.conversion];
    ScanParts(s, i, d, width, precision, FlagText(d.flags), AmountText(d.width, width), p, q, tail, p + tail);
  }
}
