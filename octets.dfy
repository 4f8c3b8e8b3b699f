/** Bytes, and the "binary string" view of bytes that `String.fromCharCode`
    and `charCodeAt` give in the browser: one character per byte, whose
    code equals the byte (Latin-1). */
module Octets {

  newtype uint8 = x: int | 0 <= x < 256

  type Bytes = seq<uint8>

  /** Every character of `s` has a code below 256 (what `btoa` accepts). */
  predicate IsLatin1(s: string) {
    forall i :: 0 <= i < |s| ==> s[i] as int < 256
  }

  /** The binary string of `b`: character `i` has code `b[i]`. */
  function Latin1(b: Bytes): (s: string)
    ensures |s| == |b| && IsLatin1(s)
    ensures forall i :: 0 <= i < |b| ==> s[i] as int == b[i] as int
  {
    seq(|b|, i requires 0 <= i < |b| => (b[i] as int) as char)
  }

  /** The byte values of a Latin-1 string (`charCodeAt` at every index). */
  function CharCodes(s: string): (b: Bytes)
    requires IsLatin1(s)
    ensures |b| == |s|
    ensures forall i :: 0 <= i < |s| ==> b[i] as int == s[i] as int
  {
    seq(|s|, i requires 0 <= i < |s| => (s[i] as int) as uint8)
  }

  lemma CharCodesOfLatin1(b: Bytes)
    ensures CharCodes(Latin1(b)) == b
  {
  }

  lemma Latin1OfCharCodes(s: string)
    requires IsLatin1(s)
    ensures Latin1(CharCodes(s)) == s
  {
  }
}
