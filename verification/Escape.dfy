/** The decoder for escape sequences: `ESC [`, parameter bytes, a final byte. */
module Escape {
  import opened EditLine

  const ESC := 27 as char
  const ESC_BUFF_SIZE := 8

  /** Final bytes, as in section 5.4 of ECMA-48. */
  predicate IsFinal(c: char) {
    64 as char <= c <= 126 as char
  }

  /** What the saved bytes look like whenever another byte is waited for. */
  ghost predicate Saved(esc: seq<char>) {
    && |esc| < ESC_BUFF_SIZE - 1
    && (|esc| >= 1 ==> esc[0] == ESC) && (|esc| >= 2 ==> esc[1] == '[')
    && forall i | 2 <= i < |esc| :: !IsFinal(esc[i])
  }

  /** More bytes are needed; a key was pressed; the sequence was ignored; or it is too long, so that
      its bytes are text and the last one is a key as well. */
  datatype Decoded = More(esc: seq<char>) | Key(c: char) | Ignored | Overflow(esc: seq<char>, c: char)

  function Arrow(c: char): char {
    if c == 'D' then CTL_B else if c == 'C' then CTL_F else if c == 'H' then CTL_A
    else if c == 'A' then CTL_P else if c == 'B' then CTL_N else c
  }

  /** A byte behind an escape byte. The comparison with a two-byte name is decided by its second byte,
      because a third one is only saved behind a byte that is not final. */
  function Decode(esc: seq<char>, c: char): Decoded
    requires Saved(esc) && esc != []
  {
    var n := esc + [c];
    if |n| == 2 then (if c == '[' then More(n) else Key(c))
    else if |n| == 3 then (if IsFinal(c) then Key(Arrow(c)) else More(n))
    else if !IsFinal(c) && |n| < ESC_BUFF_SIZE - 1 then More(n)
    else if n[2..] == "2~" then Key(CTL_A)
    else if n[2..] == "5~" then Key(CTL_E)
    else if IsFinal(c) then Ignored
    else Overflow(n, c)
  }

  /** The saved bytes keep their form, and never more than seven are there. */
  lemma SavedStays(esc: seq<char>, c: char)
    requires Saved(esc) && esc != []
    ensures var d := Decode(esc, c);
            && (d.More? ==> d.esc != [] && Saved(d.esc))
            && (d.Overflow? ==> |d.esc| == ESC_BUFF_SIZE - 1 && d.esc[..2] == [ESC, '['] && !IsFinal(c))
  {
  }

  /** A whole sequence, parameters and final byte, as the key it stands for. */
  function Meaning(params: seq<char>, final: char): Decoded {
    if params == [] then Key(Arrow(final))
    else if params == "2" && final == '~' then Key(CTL_A)
    else if params == "5" && final == '~' then Key(CTL_E)
    else Ignored
  }

  /** Parameter bytes and a final byte. */
  ghost predicate IsControl(params: seq<char>, final: char) {
    IsFinal(final) && forall i | 0 <= i < |params| :: !IsFinal(params[i])
  }

  /** With parameter bytes that fit the buffer together with the bytes around them. */
  ghost predicate IsSequence(params: seq<char>, final: char) {
    |params| <= 4 && IsControl(params, final)
  }

  /** Up to four parameter bytes are collected, the next one is too much; the final byte gives the meaning. */
  lemma Collects(params: seq<char>, k: nat, final: char)
    requires IsControl(params, final) && k <= |params| && k <= 4
    ensures Saved([ESC, '['] + params[..k])
    ensures k < |params| ==>
              Decode([ESC, '['] + params[..k], params[k]) ==
              if k < 4 then More([ESC, '['] + params[..k + 1]) else Overflow([ESC, '['] + params[..k + 1], params[k])
    ensures k == |params| ==> Decode([ESC, '['] + params[..k], final) == Meaning(params, final)
  {
    var esc := [ESC, '['] + params[..k];
    if k < |params| {
      assert esc + [params[k]] == [ESC, '['] + params[..k + 1];
    } else {
      assert params[..k] == params;
      assert (esc + [final])[2..] == params + [final];
      TwoBytes(params, final, '2');
      TwoBytes(params, final, '5');
    }
  }

  lemma TwoBytes(params: seq<char>, final: char, c: char)
    ensures params + [final] == [c, '~'] <==> params == [c] && final == '~'
  {
    if params + [final] == [c, '~'] {
      assert |params + [final]| == 2;
      assert (params + [final])[0] == c && (params + [final])[1] == '~';
    }
  }
}
