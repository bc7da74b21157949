/**
 * Python's default `bytes.decode()` / `str.encode()`: strict UTF-8.
 * The decoder rejects overlong forms, surrogates and values above U+10FFFF,
 * exactly the byte sequences Python's strict decoder refuses with UnicodeDecodeError.
 */
module Utf8 {
  import opened Base

  predicate IsCont(b: byte) { 0x80 <= b <= 0xBF }

  /** Lowest and highest second byte allowed after a three-byte lead (no overlongs, no surrogates). */
  function Low3(b0: byte): byte { if b0 == 0xE0 then 0xA0 else 0x80 }
  function High3(b0: byte): byte { if b0 == 0xED then 0x9F else 0xBF }

  /** Lowest and highest second byte allowed after a four-byte lead (no overlongs, nothing above U+10FFFF). */
  function Low4(b0: byte): byte { if b0 == 0xF0 then 0x90 else 0x80 }
  function High4(b0: byte): byte { if b0 == 0xF4 then 0x8F else 0xBF }

  /** The first scalar value of `bs` and the number of bytes it occupies, or None if `bs` does not start well-formed. */
  function DecodeFirst(bs: seq<byte>): (r: Option<(char, nat)>)
    requires bs != []
    ensures r.Some? ==> 1 <= r.value.1 <= 4 && r.value.1 <= |bs|
  {
    var b0: int := bs[0];
    if b0 < 0x80 then Some((b0 as char, 1))
    else if 0xC2 <= b0 <= 0xDF then
      if |bs| >= 2 && IsCont(bs[1]) then Some((((b0 - 0xC0) * 64 + (bs[1] as int - 0x80)) as char, 2))
      else None
    else if 0xE0 <= b0 <= 0xEF then
      if |bs| >= 3 && Low3(b0) <= bs[1] <= High3(b0) && IsCont(bs[2]) then
        Some((((b0 - 0xE0) * 4096 + (bs[1] as int - 0x80) * 64 + (bs[2] as int - 0x80)) as char, 3))
      else None
    else if 0xF0 <= b0 <= 0xF4 then
      if |bs| >= 4 && Low4(b0) <= bs[1] <= High4(b0) && IsCont(bs[2]) && IsCont(bs[3]) then
        Some((((b0 - 0xF0) * 262144 + (bs[1] as int - 0x80) * 4096 + (bs[2] as int - 0x80) * 64 + (bs[3] as int - 0x80)) as char, 4))
      else None
    else None
  }

  /** `bs.decode()`: the text, or None where Python raises UnicodeDecodeError. */
  function Decode(bs: seq<byte>): Option<string>
    decreases |bs|
  {
    if bs == [] then Some([])
    else match DecodeFirst(bs)
      case None => None
      case Some((c, n)) =>
        match Decode(bs[n..])
        case None => None
        case Some(rest) => Some([c] + rest)
  }

  /** The UTF-8 form of one scalar value. */
  function EncodeChar(c: char): (r: seq<byte>)
    ensures 1 <= |r| <= 4
  {
    var n := c as int;
    if n < 0x80 then [n]
    else if n < 0x800 then [0xC0 + n / 64, 0x80 + n % 64]
    else if n < 0x10000 then [0xE0 + n / 4096, 0x80 + (n / 64) % 64, 0x80 + n % 64]
    else [0xF0 + n / 262144, 0x80 + (n / 4096) % 64, 0x80 + (n / 64) % 64, 0x80 + n % 64]
  }

  /** `s.encode()`. */
  function Encode(s: string): seq<byte>
  {
    if s == [] then [] else EncodeChar(s[0]) + Encode(s[1..])
  }

  predicate IsAscii(s: string) { forall i :: 0 <= i < |s| ==> s[i] as int < 0x80 }

  /** Decoding the encoding of a character, followed by anything, reads that character back. */
  lemma DecodeFirstEncodeChar(c: char, rest: seq<byte>)
    ensures DecodeFirst(EncodeChar(c) + rest) == Some((c, |EncodeChar(c)|))
  {
    var n := c as int;
    if n < 0x80 {
      assert (EncodeChar(c) + rest)[0] == n;
    } else if n < 0x800 {
      DecodeFirstEncode2(c, rest);
    } else if n < 0x10000 {
      DecodeFirstEncode3(c, rest);
    } else {
      DecodeFirstEncode4(c, rest);
    }
  }

  lemma DecodeFirstEncode2(c: char, rest: seq<byte>)
    requires 0x80 <= c as int < 0x800
    ensures DecodeFirst(EncodeChar(c) + rest) == Some((c, 2))
  {
    var n := c as int;
    var bs := EncodeChar(c) + rest;
    assert bs[0] == 0xC0 + n / 64 && bs[1] == 0x80 + n % 64;
  }

  lemma DecodeFirstEncode3(c: char, rest: seq<byte>)
    requires 0x800 <= c as int < 0x10000
    ensures DecodeFirst(EncodeChar(c) + rest) == Some((c, 3))
  {
    var n := c as int;
    var bs := EncodeChar(c) + rest;
    assert bs[0] == 0xE0 + n / 4096 && bs[1] == 0x80 + (n / 64) % 64 && bs[2] == 0x80 + n % 64;
    assert n / 64 == (n / 4096) * 64 + (n / 64) % 64;
  }

  lemma DecodeFirstEncode4(c: char, rest: seq<byte>)
    requires 0x10000 <= c as int
    ensures DecodeFirst(EncodeChar(c) + rest) == Some((c, 4))
  {
    var n := c as int;
    var bs := EncodeChar(c) + rest;
    assert bs[0] == 0xF0 + n / 262144 && bs[1] == 0x80 + (n / 4096) % 64;
    assert bs[2] == 0x80 + (n / 64) % 64 && bs[3] == 0x80 + n % 64;
    assert n / 4096 == (n / 262144) * 64 + (n / 4096) % 64;
    assert n / 64 == (n / 4096) * 64 + (n / 64) % 64;
  }

  /** Digit extraction in base 64, for two, three and four digits. */
  lemma Base64Digits2(n: int, x0: int, x1: int)
    requires 0 <= x1 < 64 && n == x0 * 64 + x1
    ensures n / 64 == x0 && n % 64 == x1
  {
  }

  lemma Base64Digits3(n: int, x0: int, x1: int, x2: int)
    requires 0 <= x1 < 64 && 0 <= x2 < 64 && n == x0 * 4096 + x1 * 64 + x2
    ensures n / 4096 == x0 && (n / 64) % 64 == x1 && n % 64 == x2
  {
    Base64Digits2(n, x0 * 64 + x1, x2);
    Base64Digits2(n / 64, x0, x1);
    assert n / 4096 == (n / 64) / 64;
  }

  lemma Base64Digits4(n: int, x0: int, x1: int, x2: int, x3: int)
    requires 0 <= x1 < 64 && 0 <= x2 < 64 && 0 <= x3 < 64
    requires n == x0 * 262144 + x1 * 4096 + x2 * 64 + x3
    ensures n / 262144 == x0 && (n / 4096) % 64 == x1 && (n / 64) % 64 == x2 && n % 64 == x3
  {
    Base64Digits2(n, x0 * 4096 + x1 * 64 + x2, x3);
    Base64Digits3(n / 64, x0, x1, x2);
    assert n / 4096 == (n / 64) / 64;
    assert n / 262144 == (n / 64) / 4096;
  }

  /** A well-formed first sequence is exactly the encoding of the character it decodes to. */
  lemma DecodeFirstIsEncoding(bs: seq<byte>)
    requires bs != [] && DecodeFirst(bs).Some?
    ensures bs[..DecodeFirst(bs).value.1] == EncodeChar(DecodeFirst(bs).value.0)
  {
    var b0: int := bs[0];
    var (c, k) := DecodeFirst(bs).value;
    var n := c as int;
    if b0 < 0x80 {
    } else if b0 <= 0xDF {
      Base64Digits2(n, b0 - 0xC0, bs[1] as int - 0x80);
    } else if b0 <= 0xEF {
      Base64Digits3(n, b0 - 0xE0, bs[1] as int - 0x80, bs[2] as int - 0x80);
    } else {
      Base64Digits4(n, b0 - 0xF0, bs[1] as int - 0x80, bs[2] as int - 0x80, bs[3] as int - 0x80);
    }
  }

  /** Round trip: decoding what `encode()` produced gives the text back. */
  lemma {:induction false} DecodeEncode(s: string)
    ensures Decode(Encode(s)) == Some(s)
  {
    if s != [] {
      var head := EncodeChar(s[0]);
      var tail := Encode(s[1..]);
      DecodeFirstEncodeChar(s[0], tail);
      assert (head + tail)[|head|..] == tail;
      DecodeEncode(s[1..]);
      assert [s[0]] + s[1..] == s;
    }
  }

  /** Bytes that decode start with a well-formed character, and the rest decodes too. */
  lemma DecodeFront(bs: seq<byte>)
    requires bs != [] && Decode(bs).Some?
    ensures DecodeFirst(bs).Some?
    ensures var k := DecodeFirst(bs).value.1;
      Decode(bs[k..]).Some? && Decode(bs).value == [DecodeFirst(bs).value.0] + Decode(bs[k..]).value
  {
  }

  /** The converse: bytes that decode are the encoding of their text, so decoding is one-to-one. */
  lemma {:induction false} EncodeDecode(bs: seq<byte>, s: string)
    requires Decode(bs) == Some(s)
    ensures Encode(s) == bs
    decreases |bs|
  {
    if bs != [] {
      DecodeFront(bs);
      var c, k := DecodeFirst(bs).value.0, DecodeFirst(bs).value.1;
      var rest := Decode(bs[k..]).value;
      DecodeFirstIsEncoding(bs);
      EncodeDecode(bs[k..], rest);
      Reassemble(bs, k, c, rest, s);
    }
  }

  /** Bytes that consist of a character's encoding followed by a text's encoding encode that character and text. */
  lemma Reassemble(bs: seq<byte>, k: nat, c: char, rest: string, s: string)
    requires k <= |bs| && bs[..k] == EncodeChar(c) && Encode(rest) == bs[k..] && s == [c] + rest
    ensures Encode(s) == bs
  {
    EncodeCons(c, rest);
    assert bs[..k] + bs[k..] == bs;
  }

  /** Encoding a character followed by text is the character's bytes followed by the text's. */
  lemma EncodeCons(c: char, s: string)
    ensures Encode([c] + s) == EncodeChar(c) + Encode(s)
  {
    assert ([c] + s)[1..] == s;
  }

  /** Encoding text of one ASCII character gives that character's code as the single byte. */
  lemma {:induction false} EncodeAscii(s: string)
    requires IsAscii(s)
    ensures |Encode(s)| == |s|
    ensures forall i :: 0 <= i < |s| ==> Encode(s)[i] == s[i] as int
  {
    if s != [] {
      EncodeAscii(s[1..]);
    }
  }

  /** Encoding distributes over concatenation. */
  lemma {:induction false} EncodeAppend(s: string, t: string)
    ensures Encode(s + t) == Encode(s) + Encode(t)
  {
    if s == [] {
      assert s + t == t;
    } else {
      assert (s + t)[0] == s[0] && (s + t)[1..] == s[1..] + t;
      EncodeAppend(s[1..], t);
    }
  }
}
