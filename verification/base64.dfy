/** Base64 as the server's sign-in check uses it: the padded encoder of section 4
    of RFC 4648 (`Buffer.prototype.toString("base64")`), Node's forgiving decoder
    (`Buffer.from(s, "base64")`), and the canonical-form check built from the two. */
module Base64 {
  import opened Wrappers
  import opened Bytes

  type sextet = x: int | 0 <= x < 64

  /** A character of the standard alphabet of section 4 of RFC 4648. */
  predicate IsStandardChar(c: char) {
    'A' <= c <= 'Z' || 'a' <= c <= 'z' || '0' <= c <= '9' || c == '+' || c == '/'
  }

  /** The standard-alphabet character for a sextet. */
  function CharOf(v: sextet): (c: char)
    ensures IsStandardChar(c)
  {
    if v < 26 then ('A' as int + v) as char
    else if v < 52 then ('a' as int + (v - 26)) as char
    else if v < 62 then ('0' as int + (v - 52)) as char
    else if v == 62 then '+'
    else '/'
  }

  /** Node's decoding table: the standard alphabet and also the URL-safe
      `-` and `_` of section 5 of RFC 4648; every other character has no value. */
  function SextetOf(c: char): (r: Option<sextet>)
    ensures IsStandardChar(c) ==> r.Some? && CharOf(r.value) == c
    ensures r.Some? <==> IsStandardChar(c) || c == '-' || c == '_'
  {
    if 'A' <= c <= 'Z' then Some(c as int - 'A' as int)
    else if 'a' <= c <= 'z' then Some(c as int - 'a' as int + 26)
    else if '0' <= c <= '9' then Some(c as int - '0' as int + 52)
    else if c == '+' || c == '-' then Some(62)
    else if c == '/' || c == '_' then Some(63)
    else None
  }

  lemma SextetOfCharOf(v: sextet)
    ensures SextetOf(CharOf(v)) == Some(v)
  {
  }

  /** The four sextets of a three-byte group `a b c`; a missing byte counts as zero. */
  function Hi(a: uint8): sextet { a / 4 }
  function MidHi(a: uint8, b: uint8): sextet { (a % 4) * 16 + b / 16 }
  function MidLo(b: uint8, c: uint8): sextet { (b % 16) * 4 + c / 64 }
  function Lo(c: uint8): sextet { c % 64 }

  /** The characters of a sequence of sextets. */
  function Chars(v: seq<sextet>): (s: string)
    ensures |s| == |v|
    ensures forall i | 0 <= i < |s| :: IsStandardChar(s[i])
  {
    if v == [] then "" else [CharOf(v[0])] + Chars(v[1..])
  }

  /** Padded base64: every three bytes become four characters and a final group of
      one or two bytes is completed with `==` or `=`. */
  function Encode(b: seq<uint8>): (s: string)
    ensures |s| % 4 == 0
    ensures |b| > 0 ==> |s| > 0
    ensures forall i | 0 <= i < |s| :: IsStandardChar(s[i]) || s[i] == '='
    decreases |b|
  {
    if |b| == 0 then ""
    else if |b| == 1 then Chars([Hi(b[0]), MidHi(b[0], 0)]) + "=="
    else if |b| == 2 then Chars([Hi(b[0]), MidHi(b[0], b[1]), MidLo(b[1], 0)]) + "="
    else Chars([Hi(b[0]), MidHi(b[0], b[1]), MidLo(b[1], b[2]), Lo(b[2])]) + Encode(b[3..])
  }

  /** The sextets Node's decoder reads from `s`: characters with no value are
      skipped and the first `=` ends the input. */
  function Sextets(s: string): (v: seq<sextet>)
    ensures |v| <= |s|
  {
    if |s| == 0 || s[0] == '=' then []
    else match SextetOf(s[0])
      case None => Sextets(s[1..])
      case Some(x) => [x] + Sextets(s[1..])
  }

  /** Packs sextets into bytes, eight bits at a time; bits that do not fill a
      whole byte are dropped, so a single leftover sextet yields nothing. */
  function FromSextets(v: seq<sextet>): (b: seq<uint8>)
    ensures |b| == (|v| * 3) / 4
  {
    if |v| < 2 then []
    else if |v| == 2 then [First(v[0], v[1])]
    else if |v| == 3 then [First(v[0], v[1]), Second(v[1], v[2])]
    else [First(v[0], v[1]), Second(v[1], v[2]), Third(v[2], v[3])] + FromSextets(v[4..])
  }

  /** The three bytes packed from sextets `w x y z`. */
  function First(w: sextet, x: sextet): uint8 { w * 4 + x / 16 }
  function Second(x: sextet, y: sextet): uint8 { (x % 16) * 16 + y / 4 }
  function Third(y: sextet, z: sextet): uint8 { (y % 4) * 64 + z }

  /** `Buffer.from(s, "base64")`: never fails. */
  function Decode(s: string): seq<uint8> {
    FromSextets(Sextets(s))
  }

  /** The sign-in schema's signature check: decoding and re-encoding gives `s` back. */
  predicate IsCanonical(s: string) {
    Encode(Decode(s)) == s
  }

  /** The decoder reads back the sextets of standard-alphabet characters. */
  lemma {:induction false} SextetsOfChars(v: seq<sextet>, rest: string)
    ensures Sextets(Chars(v) + rest) == v + Sextets(rest)
  {
    if v != [] {
      var t := Chars(v[1..]) + rest;
      assert Chars(v) + rest == [CharOf(v[0])] + t;
      assert ([CharOf(v[0])] + t)[1..] == t;
      SextetOfCharOf(v[0]);
      assert Sextets([CharOf(v[0])] + t) == [v[0]] + Sextets(t);
      SextetsOfChars(v[1..], rest);
      assert v + Sextets(rest) == [v[0]] + (v[1..] + Sextets(rest));
    } else {
      assert Chars(v) + rest == rest;
    }
  }

  lemma FirstByte(a: uint8, b: uint8)
    ensures First(Hi(a), MidHi(a, b)) == a
  {
  }

  lemma SecondByte(a: uint8, b: uint8, c: uint8)
    ensures Second(MidHi(a, b), MidLo(b, c)) == b
  {
    assert MidHi(a, b) % 16 == b / 16;
    assert MidLo(b, c) / 4 == b % 16;
  }

  lemma ThirdByte(b: uint8, c: uint8)
    ensures Third(MidLo(b, c), Lo(c)) == c
  {
  }

  /** Four sextets pack into three bytes ahead of the rest. */
  lemma FromSextetsOfGroup(a: uint8, b: uint8, c: uint8, rest: seq<sextet>)
    ensures FromSextets([Hi(a), MidHi(a, b), MidLo(b, c), Lo(c)] + rest) == [a, b, c] + FromSextets(rest)
  {
    var v := [Hi(a), MidHi(a, b), MidLo(b, c), Lo(c)] + rest;
    assert v[4..] == rest;
    FirstByte(a, b);
    SecondByte(a, b, c);
    ThirdByte(b, c);
  }

  lemma DecodeEncodeOne(a: uint8)
    ensures Decode(Encode([a])) == [a]
  {
    SextetsOfChars([Hi(a), MidHi(a, 0)], "==");
    FirstByte(a, 0);
  }

  lemma DecodeEncodeTwo(a: uint8, b: uint8)
    ensures Decode(Encode([a, b])) == [a, b]
  {
    SextetsOfChars([Hi(a), MidHi(a, b), MidLo(b, 0)], "=");
    FirstByte(a, b);
    SecondByte(a, b, 0);
  }

  /** One step of the round trip: a three-byte group in front of an input that already round-trips. */
  lemma DecodeEncodeGroup(b: seq<uint8>)
    requires |b| >= 3 && Decode(Encode(b[3..])) == b[3..]
    ensures Decode(Encode(b)) == b
  {
    var rest := Encode(b[3..]);
    var quad := [Hi(b[0]), MidHi(b[0], b[1]), MidLo(b[1], b[2]), Lo(b[2])];
    assert Encode(b) == Chars(quad) + rest;
    SextetsOfChars(quad, rest);
    FromSextetsOfGroup(b[0], b[1], b[2], Sextets(rest));
    SplitGroup(b);
  }

  lemma SplitGroup(b: seq<uint8>)
    requires |b| >= 3
    ensures b == [b[0], b[1], b[2]] + b[3..]
  {
  }

  /** Decoding undoes encoding, for every byte sequence. */
  lemma {:induction false} DecodeEncode(b: seq<uint8>)
    ensures Decode(Encode(b)) == b
    decreases |b|
  {
    if |b| == 0 {
    } else if |b| == 1 {
      DecodeEncodeOne(b[0]);
      assert b == [b[0]];
    } else if |b| == 2 {
      DecodeEncodeTwo(b[0], b[1]);
      assert b == [b[0], b[1]];
    } else {
      DecodeEncode(b[3..]);
      DecodeEncodeGroup(b);
    }
  }

  /** Every padded encoding passes the signature check. */
  lemma EncodedIsCanonical(b: seq<uint8>)
    ensures IsCanonical(Encode(b))
  {
    DecodeEncode(b);
  }

  /** The signature check accepts exactly the padded encodings of byte sequences. */
  lemma CanonicalIffEncoding(s: string)
    ensures IsCanonical(s) <==> exists b :: Encode(b) == s
  {
    if IsCanonical(s) {
      assert Encode(Decode(s)) == s;
    }
    if exists b :: Encode(b) == s {
      var b :| Encode(b) == s;
      EncodedIsCanonical(b);
    }
  }

  /** What the check demands of a string's shape: a length that is a multiple of
      four and only standard-alphabet characters and `=`. */
  lemma CanonicalShape(s: string)
    requires IsCanonical(s)
    ensures |s| % 4 == 0
    ensures forall i | 0 <= i < |s| :: IsStandardChar(s[i]) || s[i] == '='
  {
    var e := Encode(Decode(s));
    assert e == s;
  }

  /** The encoding of a byte count that is not a multiple of three ends in `=`. */
  lemma {:induction false} EncodePadding(b: seq<uint8>)
    requires |b| % 3 != 0
    ensures |Encode(b)| > 0 && Encode(b)[|Encode(b)| - 1] == '='
    decreases |b|
  {
    if |b| >= 3 {
      EncodePadding(b[3..]);
      var head := Chars([Hi(b[0]), MidHi(b[0], b[1]), MidLo(b[1], b[2]), Lo(b[2])]);
      assert Encode(b) == head + Encode(b[3..]);
    }
  }

  /** A string without `=` passes the check only if it decodes to a whole number
      of three-byte groups. */
  lemma UnpaddedDecodesToGroups(s: string)
    requires IsCanonical(s)
    requires forall i | 0 <= i < |s| :: s[i] != '='
    ensures |Decode(s)| % 3 == 0
  {
    if |Decode(s)| % 3 != 0 {
      EncodePadding(Decode(s));
      assert false;
    }
  }

  /** A string with a URL-safe character, whitespace or any other foreign
      character is rejected, although the decoder itself accepts it. */
  lemma ForeignCharRejected(s: string, i: nat)
    requires i < |s| && !IsStandardChar(s[i]) && s[i] != '='
    ensures !IsCanonical(s)
  {
  }

  /** Missing padding is rejected. */
  lemma UnpaddedRejected()
    ensures !IsCanonical("QQ")
  {
  }

  /** Non-zero bits after the last whole byte are rejected: `QR==` decodes to the
      same single byte as `QQ==`. */
  lemma TrailingBitsRejected()
    ensures Decode("QR==") == Decode("QQ==") == [65]
    ensures !IsCanonical("QR==") && IsCanonical("QQ==")
  {
    assert Sextets("QR==") == [16, 17] by {
      assert "QR=="[1..] == "R==";
      assert "R=="[1..] == "==";
    }
    assert Sextets("QQ==") == [16, 16] by {
      assert "QQ=="[1..] == "Q==";
      assert "Q=="[1..] == "==";
    }
    assert Chars([16]) == "Q";
    assert Chars([16, 16]) == "QQ";
    assert Encode([65]) == "QQ==";
  }

  /** The URL-safe alphabet and embedded whitespace are rejected. */
  lemma UrlSafeAndWhitespaceRejected()
    ensures !IsCanonical("-_==") && !IsCanonical("QQ ==")
  {
    ForeignCharRejected("-_==", 0);
    ForeignCharRejected("QQ ==", 2);
  }
}
