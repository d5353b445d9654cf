/** C strings: a sequence read through a pointer, with a NUL character behind its end. */
module CText {

  const NUL := 0 as char

  /** A character of the string or the terminator; nothing behind it can be read. */
  function At(s: seq<char>, i: nat): char
    requires i <= |s|
  {
    if i < |s| then s[i] else NUL
  }

  predicate IsDigit(c: char) {
    '0' <= c <= '9'
  }

  function DigitValue(c: char): (v: nat)
    requires IsDigit(c)
    ensures v < 10
  {
    c as int - '0' as int
  }

  predicate IsUpper(c: char) {
    'A' <= c <= 'Z'
  }

  predicate IsLower(c: char) {
    'a' <= c <= 'z'
  }

  predicate IsAlnum(c: char) {
    IsDigit(c) || IsUpper(c) || IsLower(c)
  }

  predicate IsHexDigit(c: char) {
    IsDigit(c) || 'A' <= c <= 'F' || 'a' <= c <= 'f'
  }

  /** Where the NUL character is: in the sequence, or behind its end. */
  function Length(s: seq<char>): (n: nat)
    ensures n <= |s| && At(s, n) == NUL && forall i | 0 <= i < n :: s[i] != NUL
  {
    if s == [] || s[0] == NUL then 0 else 1 + Length(s[1..])
  }

  /** What a string function sees. */
  function Contents(s: seq<char>): seq<char> {
    s[..Length(s)]
  }

  datatype Pointer = Null | To(text: seq<char>)

  /** `n` times the same character; none when `n` is negative. */
  function Repeat(c: char, n: int): (r: seq<char>)
    ensures |r| == if n < 0 then 0 else n
    ensures forall k | 0 <= k < |r| :: r[k] == c
  {
    seq(if n < 0 then 0 else n, _ => c)
  }
}
