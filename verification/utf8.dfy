/** UTF-8, as `TextEncoder.encode` produces it and as `Buffer.prototype.toString("utf-8")`
    reads it back.  Every Dafny `char` is a Unicode scalar value, so encoding never
    meets a lone surrogate. */
module Utf8 {
  import opened Bytes

  predicate IsContinuation(b: uint8) { 0x80 <= b < 0xC0 }

  /** The one to four bytes of a code point. */
  function EncodeChar(c: char): (b: seq<uint8>)
    ensures 1 <= |b| <= 4
    ensures |b| == 1 <==> c as int < 0x80
    ensures forall i | 1 <= i < |b| :: IsContinuation(b[i])
  {
    var cp := c as int;
    if cp < 0x80 then [cp]
    else if cp < 0x800 then [0xC0 + cp / 64, 0x80 + cp % 64]
    else if cp < 0x10000 then [0xE0 + cp / 4096, 0x80 + (cp / 64) % 64, 0x80 + cp % 64]
    else [0xF0 + cp / 0x40000, 0x80 + (cp / 4096) % 64, 0x80 + (cp / 64) % 64, 0x80 + cp % 64]
  }

  /** `new TextEncoder().encode(s)`. */
  function Encode(s: string): (b: seq<uint8>)
    ensures |b| >= |s|
    ensures (forall i | 0 <= i < |s| :: s[i] as int < 0x80) ==> |b| == |s|
  {
    if s == "" then [] else EncodeChar(s[0]) + Encode(s[1..])
  }

  /** The character a decoder emits for a byte that starts no well-formed sequence. */
  const Replacement: char := '\U{FFFD}'

  /** The first character of `b` and the number of bytes it takes: a well-formed
      (shortest-form, non-surrogate, at most U+10FFFF) sequence gives its code
      point; anything else gives U+FFFD for one byte. */
  function DecodeFirst(b: seq<uint8>): (r: (char, nat))
    requires |b| > 0
    ensures 1 <= r.1 <= |b|
  {
    var b0: int := b[0];
    if b0 < 0x80 then (b0 as char, 1)
    else if 0xC2 <= b0 < 0xE0 && |b| >= 2 && IsContinuation(b[1]) then
      (((b0 - 0xC0) * 64 + (b[1] - 0x80)) as char, 2)
    else if 0xE0 <= b0 < 0xF0 && |b| >= 3 && IsContinuation(b[1]) && IsContinuation(b[2]) then
      var b1: int, b2: int := b[1], b[2];
      var cp := (b0 - 0xE0) * 4096 + (b1 - 0x80) * 64 + (b2 - 0x80);
      if 0x800 <= cp && !(0xD800 <= cp < 0xE000) then (cp as char, 3) else (Replacement, 1)
    else if 0xF0 <= b0 < 0xF5 && |b| >= 4 && IsContinuation(b[1]) && IsContinuation(b[2])
         && IsContinuation(b[3]) then
      var b1: int, b2: int, b3: int := b[1], b[2], b[3];
      var cp := (b0 - 0xF0) * 0x40000 + (b1 - 0x80) * 4096 + (b2 - 0x80) * 64 + (b3 - 0x80);
      if 0x10000 <= cp < 0x110000 then (cp as char, 4) else (Replacement, 1)
    else (Replacement, 1)
  }

  /** `Buffer.from(b).toString("utf-8")`. */
  function Decode(b: seq<uint8>): (s: string)
    ensures |s| <= |b|
    decreases |b|
  {
    if |b| == 0 then "" else
      var (c, n) := DecodeFirst(b);
      [c] + Decode(b[n..])
  }

  lemma SplitBase64(x: int)
    requires x >= 0
    ensures x == (x / 64) * 64 + x % 64
    ensures x / 4096 == (x / 64) / 64
    ensures x / 0x40000 == (x / 4096) / 64
  {
  }

  lemma DecodeFirstTwo(c: char, rest: seq<uint8>)
    requires 0x80 <= c as int < 0x800
    ensures DecodeFirst(EncodeChar(c) + rest) == (c, 2)
  {
    SplitBase64(c as int);
  }

  lemma DecodeFirstThree(c: char, rest: seq<uint8>)
    requires 0x800 <= c as int < 0x10000
    ensures DecodeFirst(EncodeChar(c) + rest) == (c, 3)
  {
    var cp := c as int;
    SplitBase64(cp);
    SplitBase64(cp / 64);
    assert (cp / 4096) * 4096 + ((cp / 64) % 64) * 64 + cp % 64 == cp;
  }

  lemma DecodeFirstFour(c: char, rest: seq<uint8>)
    requires 0x10000 <= c as int
    ensures DecodeFirst(EncodeChar(c) + rest) == (c, 4)
  {
    var cp := c as int;
    SplitBase64(cp);
    SplitBase64(cp / 64);
    SplitBase64(cp / 4096);
    assert (cp / 0x40000) * 0x40000 + ((cp / 4096) % 64) * 4096 + ((cp / 64) % 64) * 64 + cp % 64 == cp;
  }

  /** The decoder reads a code point's own encoding back as that code point. */
  lemma DecodeFirstEncodeChar(c: char, rest: seq<uint8>)
    ensures DecodeFirst(EncodeChar(c) + rest) == (c, |EncodeChar(c)|)
  {
    var cp := c as int;
    if cp < 0x80 {
    } else if cp < 0x800 {
      DecodeFirstTwo(c, rest);
    } else if cp < 0x10000 {
      DecodeFirstThree(c, rest);
    } else {
      DecodeFirstFour(c, rest);
    }
  }

  /** Decoding undoes encoding for every string, so the text a client signs and the
      text it sends agree character for character. */
  lemma {:induction false} DecodeEncode(s: string)
    ensures Decode(Encode(s)) == s
  {
    if s != "" {
      var e := EncodeChar(s[0]);
      var b := e + Encode(s[1..]);
      DecodeFirstEncodeChar(s[0], Encode(s[1..]));
      assert b[|e|..] == Encode(s[1..]);
      DecodeEncode(s[1..]);
      assert s == [s[0]] + s[1..];
    }
  }
}
