/**
 * Hexadecimal digits as the wire protocol and the C++ stream library read them:
 * digits '0'..'9', then letters of either case for the values 10..15.
 */
module HexDigits {

  predicate IsHexDigit(c: char) {
    '0' <= c <= '9' || 'a' <= c <= 'f' || 'A' <= c <= 'F'
  }

  /** The digits the encoder produces: no upper-case letters. */
  predicate IsLowerHexDigit(c: char) {
    '0' <= c <= '9' || 'a' <= c <= 'f'
  }

  predicate AllHex(s: seq<char>) {
    forall i :: 0 <= i < |s| ==> IsHexDigit(s[i])
  }

  function HexDigitValue(c: char): (v: nat)
    requires IsHexDigit(c)
    ensures v < 16
    ensures IsLowerHexDigit(c) ==> (v < 10 <==> '0' <= c <= '9')
  {
    if '0' <= c <= '9' then c as int - '0' as int
    else if 'a' <= c <= 'f' then c as int - 'a' as int + 10
    else c as int - 'A' as int + 10
  }

  /** The value of a string of hex digits, most significant digit first. */
  function ParseHex(s: seq<char>): nat
    requires AllHex(s)
  {
    if s == [] then 0 else ParseHex(s[..|s| - 1]) * 16 + HexDigitValue(s[|s| - 1])
  }

  /** Parsing two more digits shifts the value by one byte. */
  lemma ParseHexPair(s: seq<char>, hi: char, lo: char)
    requires AllHex(s) && IsHexDigit(hi) && IsHexDigit(lo)
    ensures AllHex(s + [hi, lo])
    ensures ParseHex(s + [hi, lo]) == ParseHex(s) * 256 + HexDigitValue(hi) * 16 + HexDigitValue(lo)
  {
    var t := s + [hi, lo];
    assert t[..|t| - 1] == s + [hi];
    assert (s + [hi])[..|s|] == s;
  }
}
