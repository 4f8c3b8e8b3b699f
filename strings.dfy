/** The JavaScript string operations the system relies on: `split` with a
    one-character separator, `startsWith`, `charAt(0).toUpperCase()` and
    Node's `Buffer.toString('hex')`. Strings are sequences of characters. */
module Strings {
  import opened Wrappers
  import opened Octets

  /** JavaScript truthiness of a string that may be null or undefined. */
  predicate Truthy(s: Option<string>) {
    s.Some? && s.value != ""
  }

  /** Position of the first occurrence of `d` in `s`. */
  function IndexOf(s: string, d: char): (i: nat)
    requires d in s
    ensures i < |s| && s[i] == d && d !in s[..i]
  {
    if s[0] == d then 0 else 1 + IndexOf(s[1..], d)
  }

  /** `s.split(d)`: the fields between occurrences of `d`; `"".split(d)` is `[""]`. */
  function Split(s: string, d: char): (parts: seq<string>)
    ensures |parts| >= 1
    ensures forall k :: 0 <= k < |parts| ==> d !in parts[k]
    decreases |s|
  {
    if d !in s then [s]
    else
      var i := IndexOf(s, d);
      [s[..i]] + Split(s[i + 1..], d)
  }

  /** `parts.join(d)`. */
  function Join(parts: seq<string>, d: char): string
    requires |parts| >= 1
  {
    if |parts| == 1 then parts[0] else parts[0] + [d] + Join(parts[1..], d)
  }

  /** Splitting at a field that holds no separator peels that field off. */
  lemma SplitAfterField(x: string, d: char, y: string)
    requires d !in x
    ensures Split(x + [d] + y, d) == [x] + Split(y, d)
  {
    var s := x + [d] + y;
    assert s[|x|] == d;
    assert s[..|x|] == x;
    IndexOfPrefix(x, d, y);
    assert s[|x| + 1..] == y;
  }

  lemma {:induction false} IndexOfPrefix(x: string, d: char, y: string)
    requires d !in x
    ensures d in x + [d] + y && IndexOf(x + [d] + y, d) == |x|
  {
    var s := x + [d] + y;
    assert s[|x|] == d;
    if x != [] {
      assert s[1..] == x[1..] + [d] + y;
      IndexOfPrefix(x[1..], d, y);
    }
  }

  /** `split` and `join` are inverse: joining the fields restores the string. */
  lemma {:induction false} JoinSplit(s: string, d: char)
    ensures Join(Split(s, d), d) == s
    decreases |s|
  {
    if d in s {
      var i := IndexOf(s, d);
      var rest := s[i + 1..];
      var parts := Split(s, d);
      assert parts == [s[..i]] + Split(rest, d);
      assert |parts| > 1 && parts[0] == s[..i] && parts[1..] == Split(rest, d);
      JoinSplit(rest, d);
      assert s == s[..i] + [d] + rest;
    }
  }

  /** ... and splitting a join of separator-free fields gives the fields back. */
  lemma {:induction false} SplitJoin(parts: seq<string>, d: char)
    requires |parts| >= 1
    requires forall k :: 0 <= k < |parts| ==> d !in parts[k]
    ensures Split(Join(parts, d), d) == parts
  {
    if |parts| == 1 {
    } else {
      SplitJoin(parts[1..], d);
      SplitAfterField(parts[0], d, Join(parts[1..], d));
    }
  }

  /** The first field is the text before the first separator (all of `s` when there is none). */
  lemma FirstField(s: string, d: char)
    ensures d in s ==> Split(s, d)[0] == s[..IndexOf(s, d)]
    ensures d !in s ==> Split(s, d)[0] == s
  {
  }

  /** `s.split(d)[k]`, which is `undefined` past the last field. */
  function Field(s: string, d: char, k: nat): (f: Option<string>)
    ensures f.Some? <==> k < |Split(s, d)|
  {
    var parts := Split(s, d);
    if k < |parts| then Some(parts[k]) else None
  }

  /** There is a second field exactly when the separator occurs. */
  lemma SecondFieldExists(s: string, d: char)
    ensures Field(s, d, 1).Some? <==> d in s
  {
    if d in s {
      var i := IndexOf(s, d);
      assert s == s[..i] + [d] + s[i + 1..];
      FieldAfterSeparator(s[..i], d, s[i + 1..]);
    }
  }

  /** The second field is the text between the first and the second separator. */
  lemma {:induction false} SecondField(x: string, d: char, y: string, rest: seq<char>)
    requires d !in x && d !in y
    ensures Field(x + [d] + y, d, 1) == Some(y)
    ensures Field(x + [d] + y + [d] + rest, d, 1) == Some(y)
  {
    FieldAfterSeparator(x, d, y);
    FirstField(y, d);
    var t := y + [d] + rest;
    assert x + [d] + y + [d] + rest == x + [d] + t;
    FieldAfterSeparator(x, d, t);
    SplitAfterField(y, d, rest);
  }

  lemma FieldAfterSeparator(x: string, d: char, t: string)
    requires d !in x
    ensures Field(x + [d] + t, d, 1) == Some(Split(t, d)[0])
  {
    SplitAfterField(x, d, t);
  }

  predicate StartsWith(s: string, prefix: string) {
    |prefix| <= |s| && s[..|prefix|] == prefix
  }

  /** `toUpperCase` on one character, for the ASCII letters. */
  function UpperAscii(c: char): (u: char)
    ensures 'a' <= c <= 'z' ==> 'A' <= u <= 'Z' && u as int == c as int - 32
    ensures !('a' <= c <= 'z') ==> u == c
  {
    if 'a' <= c <= 'z' then (c as int - 32) as char else c
  }

  predicate IsHexDigit(c: char) {
    '0' <= c <= '9' || 'a' <= c <= 'f'
  }

  function HexDigit(n: nat): (c: char)
    requires n < 16
    ensures IsHexDigit(c)
  {
    if n < 10 then ('0' as int + n) as char else ('a' as int + n - 10) as char
  }

  /** `Buffer.toString('hex')`: two lower-case digits per byte, high nibble first. */
  function Hex(b: Bytes): (h: string)
    ensures |h| == 2 * |b|
    ensures forall i :: 0 <= i < |h| ==> IsHexDigit(h[i])
  {
    if b == [] then ""
    else [HexDigit(b[0] as int / 16), HexDigit(b[0] as int % 16)] + Hex(b[1..])
  }

  function HexValue(c: char): (v: nat)
    requires IsHexDigit(c)
    ensures v < 16 && HexDigit(v) == c
  {
    if '0' <= c <= '9' then c as int - '0' as int else c as int - 'a' as int + 10
  }

  /** Reads back what `Hex` writes. */
  function Unhex(h: string): Bytes
    requires |h| % 2 == 0
    requires forall i :: 0 <= i < |h| ==> IsHexDigit(h[i])
  {
    if h == [] then []
    else [(HexValue(h[0]) * 16 + HexValue(h[1])) as uint8] + Unhex(h[2..])
  }

  /** The hex text of a byte string determines the bytes. */
  lemma {:induction false} UnhexHex(b: Bytes)
    ensures Unhex(Hex(b)) == b
  {
    if b != [] {
      var h := Hex(b);
      assert h[2..] == Hex(b[1..]);
      assert HexValue(h[0]) == b[0] as int / 16;
      assert HexValue(h[1]) == b[0] as int % 16;
      UnhexHex(b[1..]);
    }
  }
}
