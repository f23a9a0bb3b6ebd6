/** Base58 with the Bitcoin alphabet, as the `bs58` package implements it:
    the decode-success check the server's schemas apply to addresses, and the
    encoder the wallet client uses for keys and signatures. */
module Base58 {
  import opened Bytes
  import opened Chars

  /** A character of the alphabet: digits and letters except `0`, `O`, `I` and `l`. */
  predicate IsAlphabetChar(c: char) {
    ('1' <= c <= '9') || ('A' <= c <= 'H') || ('J' <= c <= 'N') || ('P' <= c <= 'Z')
    || ('a' <= c <= 'k') || ('m' <= c <= 'z')
  }

  /** The character of digit `d`, in alphabet order
      `123456789ABCDEFGHJKLMNPQRSTUVWXYZabcdefghijkmnopqrstuvwxyz`. */
  function DigitChar(d: nat): (c: char)
    requires d < 58
    ensures IsAlphabetChar(c)
    ensures c == '1' <==> d == 0
  {
    if d < 9 then ('1' as int + d) as char
    else if d < 17 then ('A' as int + (d - 9)) as char
    else if d < 22 then ('J' as int + (d - 17)) as char
    else if d < 33 then ('P' as int + (d - 22)) as char
    else if d < 44 then ('a' as int + (d - 33)) as char
    else ('m' as int + (d - 44)) as char
  }

  /** `bs58.decode(s)` returns instead of throwing: every character is in the alphabet
      (the empty string decodes to no bytes). */
  predicate Decodes(s: string) {
    forall i | 0 <= i < |s| :: IsAlphabetChar(s[i])
  }

  /** The digits of `n` in base 58, most significant first, without leading zero digits. */
  function Digits(n: nat): (s: string)
    ensures Decodes(s)
    ensures n == 0 <==> s == ""
    ensures |s| > 0 ==> s[0] != '1'
    decreases n
  {
    if n == 0 then "" else Digits(n / 58) + [DigitChar(n % 58)]
  }

  /** The big-endian value of a byte sequence. */
  function Value(b: seq<uint8>): nat {
    if |b| == 0 then 0 else Value(b[..|b| - 1]) * 256 + b[|b| - 1]
  }

  /** `bs58.encode(b)`: one `1` per leading zero byte, then the base-58 digits of
      the value of the remaining bytes. */
  function Encode(b: seq<uint8>): (s: string)
    ensures Decodes(s)
    decreases |b|
  {
    if |b| > 0 && b[0] == 0 then "1" + Encode(b[1..]) else Digits(Value(b))
  }

  /** The number of leading zero bytes. */
  function LeadingZeros(b: seq<uint8>): (n: nat)
    ensures n <= |b|
  {
    if |b| > 0 && b[0] == 0 then 1 + LeadingZeros(b[1..]) else 0
  }

  /** Leading zero bytes and leading `1` characters correspond one to one. */
  lemma {:induction false} EncodeLeadingZeros(b: seq<uint8>)
    ensures |Encode(b)| >= LeadingZeros(b)
    ensures Encode(b)[..LeadingZeros(b)] == Repeat('1', LeadingZeros(b))
    ensures |Encode(b)| > LeadingZeros(b) ==> Encode(b)[LeadingZeros(b)] != '1'
  {
    if |b| > 0 && b[0] == 0 {
      EncodeLeadingZeros(b[1..]);
      assert Encode(b) == "1" + Encode(b[1..]);
    }
  }

  /** The digit an alphabet character stands for: the inverse of `DigitChar`. */
  function DigitOf(c: char): (d: nat)
    requires IsAlphabetChar(c)
    ensures d < 58 && DigitChar(d) == c
  {
    if c <= '9' then c as int - '1' as int
    else if c <= 'H' then c as int - 'A' as int + 9
    else if c <= 'N' then c as int - 'J' as int + 17
    else if c <= 'Z' then c as int - 'P' as int + 22
    else if c <= 'k' then c as int - 'a' as int + 33
    else c as int - 'm' as int + 44
  }

  /** The number a base-58 text denotes, most significant digit first. */
  function DigitsValue(s: string): nat
    requires Decodes(s)
  {
    if s == [] then 0 else DigitsValue(s[..|s| - 1]) * 58 + DigitOf(s[|s| - 1])
  }

  lemma DigitOfDigitChar(d: nat)
    requires d < 58
    ensures DigitOf(DigitChar(d)) == d
  {
  }

  /** `Digits` writes `n` in base 58: reading the digits back gives `n`. */
  lemma {:induction false} DigitsValueOfDigits(n: nat)
    ensures DigitsValue(Digits(n)) == n
    decreases n
  {
    if n > 0 {
      var s := Digits(n);
      assert s[..|s| - 1] == Digits(n / 58);
      DigitsValueOfDigits(n / 58);
      DigitOfDigitChar(n % 58);
    }
  }

  /** A leading zero byte adds nothing to the value. */
  lemma {:induction false} ValueDropsLeadingZero(b: seq<uint8>)
    requires |b| > 0 && b[0] == 0
    ensures Value(b) == Value(b[1..])
    decreases |b|
  {
    if |b| > 1 {
      var init := b[..|b| - 1];
      ValueDropsLeadingZero(init);
      assert init[1..] == b[1..][..|b| - 2];
    }
  }

  /** The encoding is one `1` per leading zero byte followed by the base-58 digits
      of the value of all the bytes. */
  lemma {:induction false} EncodeSplits(b: seq<uint8>)
    ensures Encode(b) == Repeat('1', LeadingZeros(b)) + Digits(Value(b))
    decreases |b|
  {
    if |b| > 0 && b[0] == 0 {
      EncodeSplits(b[1..]);
      ValueDropsLeadingZero(b);
      assert Repeat('1', LeadingZeros(b)) == "1" + Repeat('1', LeadingZeros(b[1..]));
    }
  }

  /** After the leading `1`s, the encoding denotes exactly the bytes' big-endian value. */
  lemma EncodeValue(b: seq<uint8>)
    ensures |Encode(b)| >= LeadingZeros(b)
    ensures DigitsValue(Encode(b)[LeadingZeros(b)..]) == Value(b)
  {
    EncodeSplits(b);
    var k := LeadingZeros(b);
    assert Encode(b)[k..] == Digits(Value(b));
    DigitsValueOfDigits(Value(b));
  }

  lemma EncodeOf58()
    ensures Encode([58]) == "21"
  {
    assert [58][..0] == [];
    assert Value([58]) == 58;
    assert Digits(1) == [DigitChar(1)];
    assert Digits(58) == Digits(1) + [DigitChar(0)];
  }

  /** A concrete encoding: `k` zero bytes followed by the byte 58. */
  lemma {:induction false} EncodeZerosThen58(k: nat)
    ensures Encode(Zeros(k) + [58]) == Repeat('1', k) + "21"
  {
    if k == 0 {
      assert Zeros(0) + [58] == [58];
      EncodeOf58();
    } else {
      var b := Zeros(k) + [58];
      assert b[0] == 0 && b[1..] == Zeros(k - 1) + [58];
      EncodeZerosThen58(k - 1);
      assert Encode(b) == "1" + (Repeat('1', k - 1) + "21");
      assert Repeat('1', k) == "1" + Repeat('1', k - 1);
    }
  }
}
