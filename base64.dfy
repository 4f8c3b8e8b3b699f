/** The browser's `btoa` and `atob`: the base64 encoding of section 4 of
    RFC 4648 (alphabet A-Z a-z 0-9 + /, padding with '='), applied to
    binary strings, and its decoding by the "forgiving-base64 decode"
    algorithm of the WHATWG HTML standard that `atob` uses. */
module Base64 {
  import opened Wrappers
  import opened Octets

  predicate IsAlphabet(c: char) {
    'A' <= c <= 'Z' || 'a' <= c <= 'z' || '0' <= c <= '9' || c == '+' || c == '/'
  }

  predicate AllAlphabet(s: string) {
    forall i :: 0 <= i < |s| ==> IsAlphabet(s[i])
  }

  /** The character for a 6-bit value (table 1 of RFC 4648). */
  function Digit(v: nat): (c: char)
    requires v < 64
    ensures IsAlphabet(c)
  {
    if v < 26 then ('A' as int + v) as char
    else if v < 52 then ('a' as int + v - 26) as char
    else if v < 62 then ('0' as int + v - 52) as char
    else if v == 62 then '+'
    else '/'
  }

  /** The 6-bit value of an alphabet character. */
  function DigitValue(c: char): (v: nat)
    requires IsAlphabet(c)
    ensures v < 64 && Digit(v) == c
  {
    if 'A' <= c <= 'Z' then c as int - 'A' as int
    else if 'a' <= c <= 'z' then c as int - 'a' as int + 26
    else if '0' <= c <= '9' then c as int - '0' as int + 52
    else if c == '+' then 62
    else 63
  }

  lemma DigitValueOfDigit(v: nat)
    requires v < 64
    ensures DigitValue(Digit(v)) == v
  {
  }

  /** One quantum: 1, 2 or 3 bytes become 2, 3 or 4 digits, the bits of
      the bytes read high to low six at a time, the last digit's missing
      low bits zero. */
  function Quantum(b: Bytes): (q: string)
    requires 1 <= |b| <= 3
    ensures |q| == |b| + 1 && AllAlphabet(q)
  {
    var b0 := b[0] as int;
    if |b| == 1 then [Digit(b0 / 4), Digit(b0 % 4 * 16)]
    else
      var b1 := b[1] as int;
      if |b| == 2 then [Digit(b0 / 4), Digit(b0 % 4 * 16 + b1 / 16), Digit(b1 % 16 * 4)]
      else
        var b2 := b[2] as int;
        [Digit(b0 / 4), Digit(b0 % 4 * 16 + b1 / 16), Digit(b1 % 16 * 4 + b2 / 64), Digit(b2 % 64)]
  }

  /** The encoding without its padding: every 3 bytes become 4 digits, and a
      final 1 or 2 bytes become 2 or 3 digits. */
  function EncodeUnpadded(b: Bytes): (s: string)
    ensures |s| == 4 * (|b| / 3) + (if |b| % 3 == 0 then 0 else |b| % 3 + 1)
    ensures AllAlphabet(s)
  {
    if |b| == 0 then ""
    else if |b| <= 3 then Quantum(b)
    else Quantum(b[..3]) + EncodeUnpadded(b[3..])
  }

  /** The '=' characters that complete the last quantum. */
  function Padding(n: nat): (p: string)
    ensures |p| == if n % 3 == 0 then 0 else 3 - n % 3
    ensures forall i :: 0 <= i < |p| ==> p[i] == '='
  {
    if n % 3 == 1 then "==" else if n % 3 == 2 then "=" else ""
  }

  /** Base64 encoding of bytes (section 4 of RFC 4648). */
  function Encode(b: Bytes): (s: string)
    ensures |s| == 4 * (|b| / 3) + (if |b| % 3 == 0 then 0 else 4)
  {
    EncodeUnpadded(b) + Padding(|b|)
  }

  /** `btoa`: throws (here `None`) on a character above U+00FF, and otherwise
      encodes the string's character codes. */
  function Btoa(s: string): (r: Option<string>)
    ensures r.Some? <==> IsLatin1(s)
  {
    if IsLatin1(s) then Some(Encode(CharCodes(s))) else None
  }

  /** TAB, LF, FF, CR and SPACE. */
  predicate IsAsciiWhitespace(c: char) {
    c as int in {0x09, 0x0A, 0x0C, 0x0D, 0x20}
  }

  function RemoveWhitespace(s: string): (t: string)
    ensures forall i :: 0 <= i < |t| ==> !IsAsciiWhitespace(t[i])
    ensures |t| <= |s|
  {
    if s == [] then []
    else (if IsAsciiWhitespace(s[0]) then [] else [s[0]]) + RemoveWhitespace(s[1..])
  }

  /** Drops one or two final '=' characters. */
  function StripPadding(t: string): (u: string)
    ensures u <= t && |t| - 2 <= |u|
    ensures forall k :: |u| <= k < |t| ==> t[k] == '='
  {
    if |t| >= 2 && t[|t| - 2] == '=' && t[|t| - 1] == '=' then t[..|t| - 2]
    else if |t| >= 1 && t[|t| - 1] == '=' then t[..|t| - 1]
    else t
  }

  /** Reads 2, 3 or 4 digits back into 1, 2 or 3 bytes, dropping the
      leftover low bits. */
  function Unquantum(u: string): (b: Bytes)
    requires 2 <= |u| <= 4 && AllAlphabet(u)
    ensures |b| == |u| - 1
  {
    var v0, v1 := DigitValue(u[0]), DigitValue(u[1]);
    if |u| == 2 then [(v0 * 4 + v1 / 16) as uint8]
    else
      var v2 := DigitValue(u[2]);
      if |u| == 3 then [(v0 * 4 + v1 / 16) as uint8, (v1 % 16 * 16 + v2 / 4) as uint8]
      else
        var v3 := DigitValue(u[3]);
        [(v0 * 4 + v1 / 16) as uint8, (v1 % 16 * 16 + v2 / 4) as uint8, (v2 % 4 * 64 + v3) as uint8]
  }

  /** Decodes digits in groups of 4 into 3 bytes; a final 2 or 3 digits give
      1 or 2 bytes. */
  function DecodeUnpadded(u: string): (b: Bytes)
    requires AllAlphabet(u) && |u| % 4 != 1
    ensures |b| == 3 * (|u| / 4) + (if |u| % 4 == 0 then 0 else |u| % 4 - 1)
  {
    if |u| == 0 then []
    else if |u| <= 4 then Unquantum(u)
    else
      var group, rest := u[..4], u[4..];
      assert AllAlphabet(group) && AllAlphabet(rest) by {
        assert forall i :: 0 <= i < 4 ==> group[i] == u[i];
        assert forall i :: 0 <= i < |rest| ==> rest[i] == u[i + 4];
      }
      assert |u| / 4 == 1 + |rest| / 4 && |u| % 4 == |rest| % 4;
      Unquantum(group) + DecodeUnpadded(rest)
  }

  /** `atob`: forgiving-base64 decode. ASCII whitespace is ignored; when the
      length is a multiple of 4, one or two final '=' are removed; a length of
      1 modulo 4 or any other character outside the alphabet is a failure
      (`atob` throws, here `None`); the result is a binary string. */
  function Atob(s: string): (r: Option<string>)
    ensures r.Some? ==> IsLatin1(r.value)
  {
    var t := RemoveWhitespace(s);
    var u := if |t| % 4 == 0 then StripPadding(t) else t;
    if |u| % 4 == 1 || !AllAlphabet(u) then None
    else Some(Latin1(DecodeUnpadded(u)))
  }

  /** The first byte is the first digit's six bits then the second digit's top two. */
  lemma HighBits(b0: int, b1: int)
    requires 0 <= b0 < 256 && 0 <= b1 < 256
    ensures (b0 / 4) * 4 + (b0 % 4 * 16 + b1 / 16) / 16 == b0
  {
  }

  /** The second byte is the second digit's low four bits then the third digit's top four. */
  lemma MiddleBits(b0: int, b1: int, b2: int)
    requires 0 <= b0 < 256 && 0 <= b1 < 256 && 0 <= b2 < 256
    ensures (b0 % 4 * 16 + b1 / 16) % 16 * 16 + (b1 % 16 * 4 + b2 / 64) / 4 == b1
  {
    var h, l, k := b1 / 16, b1 % 16, b0 % 4;
    assert b1 == h * 16 + l && h < 16;
    assert (k * 16 + h) % 16 == h;
    assert (l * 4 + b2 / 64) / 4 == l;
  }

  /** The third byte is the third digit's low two bits then the fourth digit. */
  lemma LowBits(b1: int, b2: int)
    requires 0 <= b1 < 256 && 0 <= b2 < 256
    ensures (b1 % 16 * 4 + b2 / 64) % 4 * 64 + b2 % 64 == b2
  {
  }

  lemma QuantumRoundTrip(b: Bytes)
    requires 1 <= |b| <= 3
    ensures Unquantum(Quantum(b)) == b
  {
    if |b| == 1 {
      OneByteRoundTrip(b);
    } else if |b| == 2 {
      TwoBytesRoundTrip(b);
    } else {
      ThreeBytesRoundTrip(b);
    }
  }

  /** Unquantum of two, three or four digits, spelled out on their values. */
  lemma TwoDigits(v0: nat, v1: nat)
    requires v0 < 64 && v1 < 64
    ensures Unquantum([Digit(v0), Digit(v1)]) == [(v0 * 4 + v1 / 16) as uint8]
  {
    DigitValueOfDigit(v0);
    DigitValueOfDigit(v1);
  }

  lemma ThreeDigits(v0: nat, v1: nat, v2: nat)
    requires v0 < 64 && v1 < 64 && v2 < 64
    ensures Unquantum([Digit(v0), Digit(v1), Digit(v2)])
      == [(v0 * 4 + v1 / 16) as uint8, (v1 % 16 * 16 + v2 / 4) as uint8]
  {
    DigitValueOfDigit(v0);
    DigitValueOfDigit(v1);
    DigitValueOfDigit(v2);
  }

  lemma FourDigits(v0: nat, v1: nat, v2: nat, v3: nat)
    requires v0 < 64 && v1 < 64 && v2 < 64 && v3 < 64
    ensures Unquantum([Digit(v0), Digit(v1), Digit(v2), Digit(v3)])
      == [(v0 * 4 + v1 / 16) as uint8, (v1 % 16 * 16 + v2 / 4) as uint8, (v2 % 4 * 64 + v3) as uint8]
  {
    DigitValueOfDigit(v0);
    DigitValueOfDigit(v1);
    DigitValueOfDigit(v2);
    DigitValueOfDigit(v3);
  }

  lemma OneByteRoundTrip(b: Bytes)
    requires |b| == 1
    ensures Unquantum(Quantum(b)) == b
  {
    var b0 := b[0] as int;
    var v0, v1 := b0 / 4, b0 % 4 * 16;
    var q := [Digit(v0), Digit(v1)];
    assert Quantum(b) == q;
    TwoDigits(v0, v1);
    var u := Unquantum(q);
    assert u[0] == b[0] by { HighBits(b0, 0); }
  }

  lemma TwoBytesRoundTrip(b: Bytes)
    requires |b| == 2
    ensures Unquantum(Quantum(b)) == b
  {
    assert b == [b[0], b[1]];
    TwoOctetsRoundTrip(b[0], b[1]);
  }

  lemma TwoOctetsRoundTrip(x0: uint8, x1: uint8)
    ensures Unquantum(Quantum([x0, x1])) == [x0, x1]
  {
    var b0, b1 := x0 as int, x1 as int;
    assert Quantum([x0, x1]) == [Digit(b0 / 4), Digit(b0 % 4 * 16 + b1 / 16), Digit(b1 % 16 * 4)];
    HighBits(b0, b1);
    MiddleBits(b0, b1, 0);
    ThreeDigitBytes(b0 / 4, b0 % 4 * 16 + b1 / 16, b1 % 16 * 4, b0, b1);
  }

  lemma ThreeDigitBytes(v0: nat, v1: nat, v2: nat, b0: int, b1: int)
    requires v0 < 64 && v1 < 64 && v2 < 64
    requires v0 * 4 + v1 / 16 == b0 && v1 % 16 * 16 + v2 / 4 == b1
    ensures Unquantum([Digit(v0), Digit(v1), Digit(v2)]) == [b0 as uint8, b1 as uint8]
  {
    ThreeDigits(v0, v1, v2);
  }

  lemma ThreeBytesRoundTrip(b: Bytes)
    requires |b| == 3
    ensures Unquantum(Quantum(b)) == b
  {
    assert b == [b[0], b[1], b[2]];
    ThreeOctetsRoundTrip(b[0], b[1], b[2]);
  }

  lemma ThreeOctetsRoundTrip(x0: uint8, x1: uint8, x2: uint8)
    ensures Unquantum(Quantum([x0, x1, x2])) == [x0, x1, x2]
  {
    var b0, b1, b2 := x0 as int, x1 as int, x2 as int;
    assert Quantum([x0, x1, x2])
      == [Digit(b0 / 4), Digit(b0 % 4 * 16 + b1 / 16), Digit(b1 % 16 * 4 + b2 / 64), Digit(b2 % 64)];
    HighBits(b0, b1);
    MiddleBits(b0, b1, b2);
    LowBits(b1, b2);
    FourDigitBytes(b0 / 4, b0 % 4 * 16 + b1 / 16, b1 % 16 * 4 + b2 / 64, b2 % 64, b0, b1, b2);
  }

  lemma FourDigitBytes(v0: nat, v1: nat, v2: nat, v3: nat, b0: int, b1: int, b2: int)
    requires v0 < 64 && v1 < 64 && v2 < 64 && v3 < 64
    requires v0 * 4 + v1 / 16 == b0 && v1 % 16 * 16 + v2 / 4 == b1 && v2 % 4 * 64 + v3 == b2
    ensures Unquantum([Digit(v0), Digit(v1), Digit(v2), Digit(v3)]) == [b0 as uint8, b1 as uint8, b2 as uint8]
  {
    FourDigits(v0, v1, v2, v3);
  }

  /** Decoding the unpadded digits of `b` gives `b` back. */
  lemma {:induction false} DecodeEncodeUnpadded(b: Bytes)
    ensures DecodeUnpadded(EncodeUnpadded(b)) == b
  {
    if 1 <= |b| <= 3 {
      QuantumRoundTrip(b);
    } else if |b| > 3 {
      var q, rest := Quantum(b[..3]), EncodeUnpadded(b[3..]);
      assert (q + rest)[..4] == q && (q + rest)[4..] == rest;
      QuantumRoundTrip(b[..3]);
      DecodeEncodeUnpadded(b[3..]);
      assert b == b[..3] + b[3..];
    }
  }

  /** `atob` of an encoding yields the binary string of the encoded bytes:
      the encoding holds no whitespace, its padding is exactly what
      `atob` strips, and the digits decode back. */
  lemma AtobEncode(b: Bytes)
    ensures Atob(Encode(b)) == Some(Latin1(b))
  {
    var s := Encode(b);
    assert forall i :: 0 <= i < |s| ==> IsAlphabet(s[i]) || s[i] == '=' by {
      var e, p := EncodeUnpadded(b), Padding(|b|);
      assert s == e + p;
      forall i | 0 <= i < |s| ensures IsAlphabet(s[i]) || s[i] == '=' {
        if i < |e| { assert s[i] == e[i]; } else { assert s[i] == p[i - |e|]; }
      }
    }
    NoWhitespaceKept(s);
    StripPaddingOfEncode(b);
    DecodeEncodeUnpadded(b);
    EncodeLengths(b);
  }

  lemma EncodeLengths(b: Bytes)
    ensures |Encode(b)| % 4 == 0 && |EncodeUnpadded(b)| % 4 != 1
  {
    var q, r := |b| / 3, |b| % 3;
    var groups := if r == 0 then q else q + 1;
    assert |Encode(b)| == 4 * groups;
    ModFour(groups, 0);
    if r == 0 {
      ModFour(q, 0);
    } else {
      ModFour(q, r + 1);
    }
  }

  lemma ModFour(k: nat, r: nat)
    requires r < 4
    ensures (4 * k + r) % 4 == r
  {
  }

  lemma StripPaddingOfEncode(b: Bytes)
    ensures StripPadding(Encode(b)) == EncodeUnpadded(b)
  {
    var e := EncodeUnpadded(b);
    assert |e| == 0 || IsAlphabet(e[|e| - 1]);
    assert |b| % 3 != 0 ==> |e| >= 2;
    StripPaddingAfter(e, Padding(|b|));
  }

  lemma StripPaddingAfter(e: string, p: string)
    requires |e| == 0 || e[|e| - 1] != '='
    requires p == "" || p == "=" || (p == "==" && |e| >= 0)
    requires p == "=" ==> |e| >= 1
    ensures StripPadding(e + p) == e
  {
    var s := e + p;
    if p == "==" {
      assert s[..|s| - 2] == e;
    } else if p == "=" {
      assert s[|s| - 2] == e[|e| - 1];
      assert s[..|s| - 1] == e;
    } else {
      assert s == e;
    }
  }

  lemma {:induction false} NoWhitespaceKept(s: string)
    requires forall i :: 0 <= i < |s| ==> IsAlphabet(s[i]) || s[i] == '='
    ensures RemoveWhitespace(s) == s
  {
    if s != [] {
      NoWhitespaceKept(s[1..]);
    }
  }

  /** `btoa` of a binary string encodes exactly its bytes. */
  lemma BtoaLatin1(b: Bytes)
    ensures Btoa(Latin1(b)) == Some(Encode(b))
  {
    CharCodesOfLatin1(b);
  }

  /** A character that is neither whitespace, '=' nor in the alphabet makes
      `atob` fail, wherever it stands. */
  lemma AtobRejectsForeignCharacter(s: string, i: nat)
    requires i < |s| && !IsAlphabet(s[i]) && !IsAsciiWhitespace(s[i]) && s[i] != '='
    ensures Atob(s) == None
  {
    var t := RemoveWhitespace(s);
    KeptCharacter(s, i);
    var u := if |t| % 4 == 0 then StripPadding(t) else t;
    var j :| 0 <= j < |t| && t[j] == s[i];
    assert j < |u|;
    assert u[j] == t[j];
  }

  lemma {:induction false} KeptCharacter(s: string, i: nat)
    requires i < |s| && !IsAsciiWhitespace(s[i])
    ensures exists j :: 0 <= j < |RemoveWhitespace(s)| && RemoveWhitespace(s)[j] == s[i]
  {
    var c := s[i];
    var rest := RemoveWhitespace(s[1..]);
    if i == 0 {
      assert RemoveWhitespace(s)[0] == c;
    } else {
      KeptCharacter(s[1..], i - 1);
      var j :| 0 <= j < |rest| && rest[j] == c;
      var k := |RemoveWhitespace(s)| - |rest|;
      assert RemoveWhitespace(s)[k + j] == c;
    }
  }

  /** Whitespace aside, a text whose length is 1 modulo 4 is never valid. */
  lemma AtobRejectsLengthOneModFour(s: string)
    requires |RemoveWhitespace(s)| % 4 == 1
    ensures Atob(s) == None
  {
  }
}
