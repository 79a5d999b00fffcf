/**
 * Bytes and UTF-8 (RFC 3629, section 4): the validation `str::from_utf8`
 * performs before the SSDP parser and the volume reply are read as text.
 */
module Utf8 {
  import opened Wrappers

  newtype byte = x: int | 0 <= x < 256

  /** Whether a byte is a continuation byte in the given range (80..BF unless narrowed). */
  predicate InRange(b: byte, lo: int, hi: int) {
    lo <= b as int <= hi
  }

  /**
   * The first character of a non-empty byte string and its length in bytes,
   * following the UTF8-char rule of RFC 3629: the shortest form only, no
   * surrogates, nothing above U+10FFFF.
   */
  function DecodeFirst(bs: seq<byte>): (r: Option<(char, nat)>)
    requires |bs| > 0
    ensures r.Some? ==> 1 <= r.value.1 <= 4 && r.value.1 <= |bs|
    ensures bs[0] < 0x80 ==> r == Some((bs[0] as char, 1))
  {
    var b0 := bs[0] as int;
    if b0 < 0x80 then Some((b0 as char, 1))
    else if 0xC2 <= b0 <= 0xDF then
      if |bs| >= 2 && InRange(bs[1], 0x80, 0xBF) then
        var cp := (b0 - 0xC0) * 64 + (bs[1] as int - 0x80);
        Some((cp as char, 2))
      else None
    else if 0xE0 <= b0 <= 0xEF then
      var lo := if b0 == 0xE0 then 0xA0 else 0x80;
      var hi := if b0 == 0xED then 0x9F else 0xBF;
      if |bs| >= 3 && InRange(bs[1], lo, hi) && InRange(bs[2], 0x80, 0xBF) then
        var cp := (b0 - 0xE0) * 4096 + (bs[1] as int - 0x80) * 64 + (bs[2] as int - 0x80);
        assert 0x800 <= cp < 0x10000 && !(0xD800 <= cp < 0xE000);
        Some((cp as char, 3))
      else None
    else if 0xF0 <= b0 <= 0xF4 then
      var lo := if b0 == 0xF0 then 0x90 else 0x80;
      var hi := if b0 == 0xF4 then 0x8F else 0xBF;
      if |bs| >= 4 && InRange(bs[1], lo, hi) && InRange(bs[2], 0x80, 0xBF) && InRange(bs[3], 0x80, 0xBF) then
        var cp := (b0 - 0xF0) * 262144 + (bs[1] as int - 0x80) * 4096 + (bs[2] as int - 0x80) * 64 + (bs[3] as int - 0x80);
        assert 0x10000 <= cp < 0x11_0000;
        Some((cp as char, 4))
      else None
    else None
  }

  /** `str::from_utf8`: the text, or None when any byte sequence is not well formed. */
  function Decode(bs: seq<byte>): (r: Option<string>)
    ensures r.Some? ==> |r.value| <= |bs|
    decreases |bs|
  {
    if |bs| == 0 then Some([])
    else match DecodeFirst(bs)
      case None => None
      case Some((c, n)) =>
        match Decode(bs[n..])
        case None => None
        case Some(s) => Some([c] + s)
  }

  /** The encoding of one character, in the shortest form. */
  function EncodeChar(c: char): (bs: seq<byte>)
    ensures 1 <= |bs| <= 4
  {
    var cp := c as int;
    if cp < 0x80 then [cp as byte]
    else if cp < 0x800 then [(0xC0 + cp / 64) as byte, (0x80 + cp % 64) as byte]
    else if cp < 0x10000 then
      [(0xE0 + cp / 4096) as byte, (0x80 + (cp / 64) % 64) as byte, (0x80 + cp % 64) as byte]
    else
      [(0xF0 + cp / 262144) as byte, (0x80 + (cp / 4096) % 64) as byte,
       (0x80 + (cp / 64) % 64) as byte, (0x80 + cp % 64) as byte]
  }

  function Encode(s: string): (bs: seq<byte>)
    ensures |s| <= |bs|
    decreases |s|
  {
    if |s| == 0 then [] else EncodeChar(s[0]) + Encode(s[1..])
  }

  lemma DecodeEncode2(c: char, rest: seq<byte>)
    requires 0x80 <= c as int < 0x800
    ensures DecodeFirst(EncodeChar(c) + rest) == Some((c, 2))
  {
    var cp := c as int;
    var bs := EncodeChar(c) + rest;
    assert bs[0] as int == 0xC0 + cp / 64 && bs[1] as int == 0x80 + cp % 64;
    assert (cp / 64) * 64 + cp % 64 == cp;
  }

  lemma DecodeEncode3(c: char, rest: seq<byte>)
    requires 0x800 <= c as int < 0x10000
    ensures DecodeFirst(EncodeChar(c) + rest) == Some((c, 3))
  {
    var cp := c as int;
    var q := cp / 64;
    var bs := EncodeChar(c) + rest;
    assert bs[0] as int == 0xE0 + cp / 4096 && bs[1] as int == 0x80 + q % 64 && bs[2] as int == 0x80 + cp % 64;
    assert cp / 4096 == q / 64;
    assert (q / 64) * 64 + q % 64 == q;
    assert q * 64 + cp % 64 == cp;
  }

  lemma DecodeEncode4(c: char, rest: seq<byte>)
    requires 0x10000 <= c as int
    ensures DecodeFirst(EncodeChar(c) + rest) == Some((c, 4))
  {
    var cp := c as int;
    var q := cp / 64;
    var r := q / 64;
    var bs := EncodeChar(c) + rest;
    assert bs[0] as int == 0xF0 + cp / 262144 && bs[1] as int == 0x80 + (cp / 4096) % 64;
    assert bs[2] as int == 0x80 + q % 64 && bs[3] as int == 0x80 + cp % 64;
    assert cp / 4096 == r && cp / 262144 == r / 64;
    assert (r / 64) * 64 + r % 64 == r;
    assert r * 64 + q % 64 == q;
    assert q * 64 + cp % 64 == cp;
  }

  /** One character's encoding, followed by anything, decodes to that character first. */
  lemma DecodeEncodeChar(c: char, rest: seq<byte>)
    ensures DecodeFirst(EncodeChar(c) + rest) == Some((c, |EncodeChar(c)|))
  {
    var cp := c as int;
    if cp < 0x80 {
    } else if cp < 0x800 {
      DecodeEncode2(c, rest);
    } else if cp < 0x10000 {
      DecodeEncode3(c, rest);
    } else {
      DecodeEncode4(c, rest);
    }
  }

  /** Decoding the encoding of any text gives the text back. */
  lemma {:induction false} DecodeEncode(s: string)
    ensures Decode(Encode(s)) == Some(s)
    decreases |s|
  {
    if |s| > 0 {
      var head := EncodeChar(s[0]);
      var bs := head + Encode(s[1..]);
      DecodeEncodeChar(s[0], Encode(s[1..]));
      assert bs[|head|..] == Encode(s[1..]);
      DecodeEncode(s[1..]);
      assert [s[0]] + s[1..] == s;
    }
  }

  predicate IsAscii(bs: seq<byte>) {
    forall i :: 0 <= i < |bs| ==> bs[i] < 0x80
  }

  /** ASCII bytes are always valid and decode one character per byte, code for code. */
  lemma {:induction false} DecodeAscii(bs: seq<byte>)
    requires IsAscii(bs)
    ensures Decode(bs).Some?
    ensures |Decode(bs).value| == |bs|
    ensures forall i :: 0 <= i < |bs| ==> Decode(bs).value[i] as int == bs[i] as int
    decreases |bs|
  {
    if |bs| > 0 {
      DecodeAscii(bs[1..]);
    }
  }

  /** A stray continuation byte at the start is rejected. */
  lemma RejectsLeadingContinuation(bs: seq<byte>)
    requires |bs| > 0 && 0x80 <= bs[0] < 0xC2
    ensures Decode(bs).None?
  {
  }

  /** The shortest form is enforced: an encoded surrogate (ED A0..BF ..) is rejected. */
  lemma RejectsSurrogate(bs: seq<byte>)
    requires |bs| >= 3 && bs[0] == 0xED && 0xA0 <= bs[1] <= 0xBF
    ensures Decode(bs).None?
  {
  }
}
