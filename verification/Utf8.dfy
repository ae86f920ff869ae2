/** UTF-8 as Python encodes it and as it decodes with `errors="replace"`. */
module Utf8 {

  type Byte = b: int | 0 <= b < 256

  /** A Dafny `char` is a Unicode scalar value: what `encode("utf-8")` accepts. */
  function EncodeChar(c: char): seq<Byte> {
    var n := c as int;
    if n < 0x80 then [n]
    else if n < 0x800 then [0xC0 + n / 64, 0x80 + n % 64]
    else if n < 0x10000 then [0xE0 + n / 64 / 64, 0x80 + n / 64 % 64, 0x80 + n % 64]
    else [0xF0 + n / 64 / 64 / 64, 0x80 + n / 64 / 64 % 64, 0x80 + n / 64 % 64, 0x80 + n % 64]
  }

  function Encode(s: string): seq<Byte> {
    if s == "" then [] else EncodeChar(s[0]) + Encode(s[1..])
  }

  const REPLACEMENT: char := '\U{FFFD}'

  predicate Tail(b: Byte) { 0x80 <= b < 0xC0 }

  /** The second bytes that may follow a lead byte: shorter forms, surrogates and values past the end are out. */
  predicate Second(lead: Byte, b: Byte) {
    if 0xC2 <= lead < 0xE0 then Tail(b)
    else if lead == 0xE0 then 0xA0 <= b < 0xC0
    else if lead == 0xED then 0x80 <= b < 0xA0
    else if 0xE1 <= lead < 0xF0 then Tail(b)
    else if lead == 0xF0 then 0x90 <= b < 0xC0
    else if 0xF1 <= lead < 0xF4 then Tail(b)
    else lead == 0xF4 && 0x80 <= b < 0x90
  }

  function Length(lead: Byte): nat { if lead < 0xE0 then 2 else if lead < 0xF0 then 3 else 4 }

  function Two(a: Byte, b: Byte): int { (a - 0xC0) * 64 + (b - 0x80) }
  function Three(a: Byte, b: Byte, c: Byte): int { ((a - 0xE0) * 64 + (b - 0x80)) * 64 + (c - 0x80) }
  function Four(a: Byte, b: Byte, c: Byte, d: Byte): int {
    (((a - 0xF0) * 64 + (b - 0x80)) * 64 + (c - 0x80)) * 64 + (d - 0x80)
  }

  predicate Scalar(n: int) { 0 <= n < 0xD800 || 0xE000 <= n < 0x110000 }

  function AsChar(n: int): char { if Scalar(n) then n as char else REPLACEMENT }

  /** The first character and how many bytes it took; a broken sequence gives U+FFFD for its longest good start. */
  function First(bs: seq<Byte>): (r: (char, nat))
    requires bs != []
    ensures 1 <= r.1 <= |bs|
  {
    if bs[0] < 0x80 then (bs[0] as char, 1)
    else if |bs| < 2 || !Second(bs[0], bs[1]) then (REPLACEMENT, 1)
    else if Length(bs[0]) == 2 then (AsChar(Two(bs[0], bs[1])), 2)
    else if |bs| < 3 || !Tail(bs[2]) then (REPLACEMENT, 2)
    else if Length(bs[0]) == 3 then (AsChar(Three(bs[0], bs[1], bs[2])), 3)
    else if |bs| < 4 || !Tail(bs[3]) then (REPLACEMENT, 3)
    else (AsChar(Four(bs[0], bs[1], bs[2], bs[3])), 4)
  }

  function Decode(bs: seq<Byte>): string
    decreases |bs|
  {
    if bs == [] then "" else [First(bs).0] + Decode(bs[First(bs).1..])
  }

  lemma FirstOfTwo(c: char, bs: seq<Byte>)
    requires 0x80 <= c as int < 0x800 && EncodeChar(c) <= bs
    ensures First(bs) == (c, 2)
  {
    var n := c as int;
    assert bs[0] == 0xC0 + n / 64 && bs[1] == 0x80 + n % 64;
    assert Two(bs[0], bs[1]) == n;
  }

  lemma FirstOfThree(c: char, bs: seq<Byte>)
    requires 0x800 <= c as int < 0x10000 && EncodeChar(c) <= bs
    ensures First(bs) == (c, 3)
  {
    var n := c as int;
    var q := n / 64;
    assert bs[0] == 0xE0 + q / 64 && bs[1] == 0x80 + q % 64 && bs[2] == 0x80 + n % 64;
    assert Three(bs[0], bs[1], bs[2]) == n;
    assert Scalar(n);
  }

  lemma FirstOfFour(c: char, bs: seq<Byte>)
    requires 0x10000 <= c as int && EncodeChar(c) <= bs
    ensures First(bs) == (c, 4)
  {
    var n := c as int;
    var q := n / 64;
    var p := q / 64;
    assert bs[0] == 0xF0 + p / 64 && bs[1] == 0x80 + p % 64 && bs[2] == 0x80 + q % 64 && bs[3] == 0x80 + n % 64;
    assert Four(bs[0], bs[1], bs[2], bs[3]) == n;
  }

  lemma FirstIsEncoded(c: char, r: seq<Byte>)
    ensures First(EncodeChar(c) + r) == (c, |EncodeChar(c)|)
  {
    var bs := EncodeChar(c) + r;
    if c as int < 0x80 {
      assert bs[0] == c as int;
    } else if c as int < 0x800 {
      FirstOfTwo(c, bs);
    } else if c as int < 0x10000 {
      FirstOfThree(c, bs);
    } else {
      FirstOfFour(c, bs);
    }
  }

  lemma {:induction false} DecodeEncode(s: string)
    ensures Decode(Encode(s)) == s
  {
    if s != "" {
      var r := Encode(s[1..]);
      FirstIsEncoded(s[0], r);
      assert (EncodeChar(s[0]) + r)[|EncodeChar(s[0])|..] == r;
      DecodeEncode(s[1..]);
    }
  }
}
