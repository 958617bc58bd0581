/**
 Unpadded URL-safe base64 (section 5 of RFC 4648) with a strict decoder, in two layers: bytes as
 six-bit digits, and digits as characters.
 */
module Base64 {
  import opened Base

  type Digit = d: int | 0 <= d < 64

  function DigitChar(d: Digit): char {
    if d < 26 then 'A' + d as char
    else if d < 52 then 'a' + (d - 26) as char
    else if d < 62 then '0' + (d - 52) as char
    else if d == 62 then '-'
    else '_'
  }

  function CharDigit(c: char): Option<Digit> {
    if 'A' <= c <= 'Z' then Some((c - 'A') as int)
    else if 'a' <= c <= 'z' then Some((c - 'a') as int + 26)
    else if '0' <= c <= '9' then Some((c - '0') as int + 52)
    else if c == '-' then Some(62)
    else if c == '_' then Some(63)
    else None
  }

  function Chars(digits: seq<Digit>): string {
    seq(|digits|, i requires 0 <= i < |digits| => DigitChar(digits[i]))
  }

  /** Every character must be a digit. */
  function Digits(s: string): Option<seq<Digit>> {
    if exists i | 0 <= i < |s| :: CharDigit(s[i]).None? then None
    else Some(seq(|s|, i requires 0 <= i < |s| => CharDigit(s[i]).value))
  }

  /** Three bytes make four digits; a tail of one or two bytes makes two or three, padded with zero bits. */
  function Pack(b: seq<Byte>): seq<Digit> {
    if b == [] then []
    else if |b| == 1 then [b[0] / 4, b[0] % 4 * 16]
    else if |b| == 2 then [b[0] / 4, b[0] % 4 * 16 + b[1] / 16, b[1] % 16 * 4]
    else [b[0] / 4, b[0] % 4 * 16 + b[1] / 16, b[1] % 16 * 4 + b[2] / 64, b[2] % 64] + Pack(b[3..])
  }

  function First(d0: Digit, d1: Digit): Byte {
    d0 * 4 + d1 / 16
  }

  function Second(d1: Digit, d2: Digit): Byte {
    d1 % 16 * 16 + d2 / 4
  }

  function Third(d2: Digit, d3: Digit): Byte {
    d2 % 4 * 64 + d3
  }

  /** The decoder refuses an impossible length and non-zero padding bits. */
  function Unpack(d: seq<Digit>): Option<seq<Byte>> {
    if d == [] then Some([])
    else if |d| == 1 then None
    else if |d| == 2 then
      if d[1] % 16 == 0 then Some([First(d[0], d[1])]) else None
    else if |d| == 3 then
      if d[2] % 4 == 0 then Some([First(d[0], d[1]), Second(d[1], d[2])]) else None
    else
      match Unpack(d[4..])
      case None => None
      case Some(rest) => Some([First(d[0], d[1]), Second(d[1], d[2]), Third(d[2], d[3])] + rest)
  }

  function Encode(b: seq<Byte>): string {
    Chars(Pack(b))
  }

  function Decode(s: string): Option<seq<Byte>> {
    match Digits(s)
    case None => None
    case Some(digits) => Unpack(digits)
  }

  lemma BitsOfBytes(x: Byte, y: Byte, z: Byte)
    ensures First(x / 4, x % 4 * 16 + y / 16) == x
    ensures Second(x % 4 * 16 + y / 16, y % 16 * 4 + z / 64) == y
    ensures Third(y % 16 * 4 + z / 64, z % 64) == z
    ensures First(x / 4, x % 4 * 16) == x && x % 4 * 16 % 16 == 0
    ensures Second(x % 4 * 16 + y / 16, y % 16 * 4) == y && y % 16 * 4 % 4 == 0
  {
  }

  lemma BitsOfDigits(p: Digit, q: Digit, r: Digit, s: Digit)
    ensures First(p, q) / 4 == p && Third(r, s) % 64 == s
    ensures First(p, q) % 4 * 16 + Second(q, r) / 16 == q
    ensures Second(q, r) % 16 * 4 + Third(r, s) / 64 == r
    ensures q % 16 == 0 ==> First(p, q) % 4 * 16 == q
    ensures r % 4 == 0 ==> Second(q, r) % 16 * 4 == r
  {
  }

  lemma UnpackGroup(p: Digit, q: Digit, r: Digit, s: Digit, rest: seq<Digit>)
    requires Unpack(rest).Some?
    ensures Unpack([p, q, r, s] + rest) == Some([First(p, q), Second(q, r), Third(r, s)] + Unpack(rest).value)
  {
    assert ([p, q, r, s] + rest)[4..] == rest;
  }

  lemma UnpackTails(x: Byte, y: Byte)
    ensures Unpack([x / 4, x % 4 * 16]) == Some([x])
    ensures Unpack([x / 4, x % 4 * 16 + y / 16, y % 16 * 4]) == Some([x, y])
  {
    BitsOfBytes(x, y, 0);
  }

  lemma {:induction false} UnpackPack(b: seq<Byte>)
    ensures Unpack(Pack(b)) == Some(b)
  {
    if b == [] {
    } else if |b| <= 2 {
      UnpackTails(b[0], b[|b|-1]);
      assert b == if |b| == 1 then [b[0]] else [b[0], b[1]];
    } else {
      var x, y, z, rest := b[0], b[1], b[2], b[3..];
      UnpackPack(rest);
      assert b == [x, y, z] + rest;
      PackGroup(x, y, z, rest);
      BitsOfBytes(x, y, z);
      UnpackGroup(x / 4, x % 4 * 16 + y / 16, y % 16 * 4 + z / 64, z % 64, Pack(rest));
    }
  }

  lemma {:induction false} PackUnpack(d: seq<Digit>)
    requires Unpack(d).Some?
    ensures Pack(Unpack(d).value) == d
  {
    if |d| > 1 {
      BitsOfDigits(d[0], d[1], if |d| > 2 then d[2] else 0, if |d| > 3 then d[3] else 0);
    }
    if |d| > 3 {
      PackUnpack(d[4..]);
      PackGroup(First(d[0], d[1]), Second(d[1], d[2]), Third(d[2], d[3]), Unpack(d[4..]).value);
      assert d == [d[0], d[1], d[2], d[3]] + d[4..];
    }
  }

  lemma PackGroup(x: Byte, y: Byte, z: Byte, rest: seq<Byte>)
    ensures Pack([x, y, z] + rest) == [x / 4, x % 4 * 16 + y / 16, y % 16 * 4 + z / 64, z % 64] + Pack(rest)
  {
    assert ([x, y, z] + rest)[3..] == rest;
  }

  lemma CharsAreDigits(d: Digit)
    ensures CharDigit(DigitChar(d)) == Some(d) && DigitChar(d) != '.'
  {
  }

  lemma DigitsChars(digits: seq<Digit>)
    ensures Digits(Chars(digits)) == Some(digits)
  {
    forall i | 0 <= i < |digits|
      ensures CharDigit(Chars(digits)[i]) == Some(digits[i])
    {
      CharsAreDigits(digits[i]);
    }
    assert Digits(Chars(digits)).Some?;
    assert Digits(Chars(digits)).value == digits;
  }

  lemma DecodeEncode(b: seq<Byte>)
    ensures Decode(Encode(b)) == Some(b)
  {
    DigitsChars(Pack(b));
    UnpackPack(b);
  }

  /** Accepted text is canonical: it is what the encoder writes for the decoded bytes. */
  lemma EncodeDecode(s: string)
    requires Decode(s).Some?
    ensures Encode(Decode(s).value) == s
  {
    var digits := Digits(s).value;
    PackUnpack(digits);
    assert Chars(digits) == s;
  }

  lemma {:induction false} PackedLength(b: seq<Byte>)
    ensures |Pack(b)| == (4 * |b| + 2) / 3
  {
    if |b| > 2 {
      PackedLength(b[3..]);
    }
  }

  lemma EncodedLength(b: seq<Byte>)
    ensures |Encode(b)| == (4 * |b| + 2) / 3
    ensures '.' !in Encode(b)
  {
    PackedLength(b);
    forall i | 0 <= i < |Encode(b)|
      ensures Encode(b)[i] != '.'
    {
      CharsAreDigits(Pack(b)[i]);
    }
  }

  /** The alphabet of table 2 of RFC 4648: A to Z, a to z, 0 to 9, minus, underscore. */
  lemma AlphabetIsUrlSafe()
    ensures forall d: Digit | d < 26 :: DigitChar(d) == ('A' as int + d) as char
    ensures forall d: Digit | 26 <= d < 52 :: DigitChar(d) == ('a' as int + d - 26) as char
    ensures forall d: Digit | 52 <= d < 62 :: DigitChar(d) == ('0' as int + d - 52) as char
    ensures DigitChar(25) == 'Z' && DigitChar(51) == 'z' && DigitChar(61) == '9' && DigitChar(62) == '-' && DigitChar(63) == '_'
  {
  }

  /** The number whose digits in base `base` these are, the first one the most significant. */
  function Number(digits: seq<nat>, base: nat): nat {
    if digits == [] then 0 else Number(digits[..|digits|-1], base) * base + digits[|digits|-1]
  }

  lemma FourDigits(d: seq<nat>, base: nat)
    requires |d| == 4
    ensures Number(d, base) == ((d[0] * base + d[1]) * base + d[2]) * base + d[3]
  {
    assert d[..3][..2] == d[..2] && d[..2][..1] == d[..1];
    assert Number(d[..1], base) == d[0];
    assert Number(d[..2], base) == d[0] * base + d[1];
  }

  lemma ThreeDigits(d: seq<nat>, base: nat)
    requires |d| == 3
    ensures Number(d, base) == (d[0] * base + d[1]) * base + d[2]
  {
    assert d[..2][..1] == d[..1];
    assert Number(d[..1], base) == d[0];
  }

  /** Section 4 of RFC 4648: each 24-bit group of input is four digits, most significant bits first, on both sides. */
  lemma GroupKeepsNumber(b: seq<Byte>)
    requires |b| >= 3
    ensures |Pack(b)| >= 4 && Number(Pack(b)[..4], 64) == Number(b[..3], 256) && Pack(b)[4..] == Pack(b[3..])
  {
    FourDigits(Pack(b)[..4], 64);
    ThreeDigits(b[..3], 256);
  }

  /** The unpadded ends of section 10 of RFC 4648. */
  lemma TestVectors()
    ensures Encode([0x66]) == "Zg" && Encode([0x66, 0x6f]) == "Zm8" && Encode([0x66, 0x6f, 0x6f]) == "Zm9v"
    ensures Encode([0x66, 0x6f, 0x6f, 0x62, 0x61]) == "Zm9vYmE"
  {
    assert Pack([0x66, 0x6f, 0x6f, 0x62, 0x61][3..]) == Pack([0x62, 0x61]);
  }
}
