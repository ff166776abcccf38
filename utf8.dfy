/**
  UTF-8 as Python's `str.encode()` and strict `bytes.decode("utf-8")` apply it:
  the encoder writes the shortest form of each scalar value, the decoder accepts
  exactly the well-formed byte sequences of the Unicode standard (Table 3-7 of
  chapter 3) and fails on anything else.
 */
module Utf8 {
  import opened Wrappers
  import opened Builtins

  predicate InRange(b: byte, lo: int, hi: int) {
    lo <= b <= hi
  }

  /** The bytes of one character, shortest form. */
  function EncodeChar(c: char): (bs: seq<byte>)
    ensures 1 <= |bs| <= 4
  {
    var cp := c as int;
    if cp < 0x80 then [cp]
    else if cp < 0x800 then [0xC0 + cp / 64, 0x80 + cp % 64]
    else if cp < 0x10000 then [0xE0 + cp / 4096, 0x80 + (cp / 64) % 64, 0x80 + cp % 64]
    else [0xF0 + cp / 0x40000, 0x80 + (cp / 4096) % 64, 0x80 + (cp / 64) % 64, 0x80 + cp % 64]
  }

  /** `s.encode()` */
  function Encode(s: string): (bs: seq<byte>)
    ensures |s| <= |bs| <= 4 * |s|
  {
    if s == [] then [] else EncodeChar(s[0]) + Encode(s[1..])
  }

  /** The six payload bits of a continuation byte. */
  function Low6(b: byte): int {
    b as int - 0x80
  }

  /**
    The character that a well-formed sequence at the start of `bs` stands for, with
    the number of bytes it takes; `None` when `bs` does not start with one.
   */
  function DecodeFirst(bs: seq<byte>): (r: Option<(char, nat)>)
    requires bs != []
    ensures r.Some? ==> 1 <= r.value.1 <= |bs| && r.value.1 <= 4
  {
    var b0: int := bs[0];
    if b0 < 0x80 then
      Some((b0 as char, 1))
    else if 0xC2 <= b0 <= 0xDF then
      if 2 <= |bs| && InRange(bs[1], 0x80, 0xBF)
      then Some((((b0 - 0xC0) * 64 + Low6(bs[1])) as char, 2))
      else None
    else if 0xE0 <= b0 <= 0xEF then
      var lo := if b0 == 0xE0 then 0xA0 else 0x80;
      var hi := if b0 == 0xED then 0x9F else 0xBF;
      if 3 <= |bs| && InRange(bs[1], lo, hi) && InRange(bs[2], 0x80, 0xBF)
      then Some((((b0 - 0xE0) * 4096 + Low6(bs[1]) * 64 + Low6(bs[2])) as char, 3))
      else None
    else if 0xF0 <= b0 <= 0xF4 then
      var lo := if b0 == 0xF0 then 0x90 else 0x80;
      var hi := if b0 == 0xF4 then 0x8F else 0xBF;
      if 4 <= |bs| && InRange(bs[1], lo, hi) && InRange(bs[2], 0x80, 0xBF) && InRange(bs[3], 0x80, 0xBF)
      then Some((((b0 - 0xF0) * 0x40000 + Low6(bs[1]) * 4096 + Low6(bs[2]) * 64 + Low6(bs[3])) as char, 4))
      else None
    else
      None
  }

  /** `bs.decode("utf-8")`; `None` stands for the `UnicodeDecodeError` it raises. */
  function Decode(bs: seq<byte>): (r: Option<string>)
    ensures r.Some? ==> |r.value| <= |bs|
    decreases |bs|
  {
    if bs == [] then Some("")
    else
      match DecodeFirst(bs)
      case None => None
      case Some((c, n)) =>
        match Decode(bs[n..])
        case None => None
        case Some(rest) => Some([c] + rest)
  }

  lemma DecodeFirstTwo(c: char, rest: seq<byte>)
    requires 0x80 <= c as int < 0x800
    ensures DecodeFirst(EncodeChar(c) + rest) == Some((c, 2))
  {
    var cp := c as int;
    var q, r := cp / 64, cp % 64;
    assert cp == q * 64 + r && 2 <= q < 32;
    var bs := EncodeChar(c) + rest;
    assert bs[0] == 0xC0 + q && bs[1] == 0x80 + r;
  }

  lemma DecodeFirstThree(c: char, rest: seq<byte>)
    requires 0x800 <= c as int < 0x10000
    ensures DecodeFirst(EncodeChar(c) + rest) == Some((c, 3))
  {
    var cp := c as int;
    var q, m, r := cp / 4096, (cp / 64) % 64, cp % 64;
    assert cp / 64 == q * 64 + m;
    assert cp == q * 4096 + m * 64 + r;
    assert q == 0 ==> m >= 0x20;
    assert q == 0xD ==> m < 0x20;
    var bs := EncodeChar(c) + rest;
    assert bs[0] == 0xE0 + q && bs[1] == 0x80 + m && bs[2] == 0x80 + r;
  }

  lemma DecodeFirstFour(c: char, rest: seq<byte>)
    requires 0x10000 <= c as int
    ensures DecodeFirst(EncodeChar(c) + rest) == Some((c, 4))
  {
    var cp := c as int;
    var q, h, m, r := cp / 0x40000, (cp / 4096) % 64, (cp / 64) % 64, cp % 64;
    assert cp / 4096 == q * 64 + h;
    assert cp / 64 == (cp / 4096) * 64 + m;
    assert cp == q * 0x40000 + h * 4096 + m * 64 + r;
    assert q == 0 ==> h >= 0x10;
    assert q == 4 ==> h < 0x10;
    var bs := EncodeChar(c) + rest;
    assert bs[0] == 0xF0 + q && bs[1] == 0x80 + h && bs[2] == 0x80 + m && bs[3] == 0x80 + r;
  }

  lemma DecodeFirstEncodeChar(c: char, rest: seq<byte>)
    ensures DecodeFirst(EncodeChar(c) + rest) == Some((c, |EncodeChar(c)|))
  {
    var cp := c as int;
    if cp < 0x80 {
    } else if cp < 0x800 {
      DecodeFirstTwo(c, rest);
    } else if cp < 0x10000 {
      DecodeFirstThree(c, rest);
    } else {
      DecodeFirstFour(c, rest);
    }
  }

  /** Decoding what `Encode` wrote gives the text back: UTF-8 loses nothing. */
  lemma {:induction false} DecodeEncode(s: string)
    ensures Decode(Encode(s)) == Some(s)
  {
    if s != [] {
      var head := EncodeChar(s[0]);
      var tail := Encode(s[1..]);
      assert Encode(s) == head + tail;
      DecodeFirstEncodeChar(s[0], tail);
      assert (head + tail)[|head|..] == tail;
      DecodeEncode(s[1..]);
      assert [s[0]] + s[1..] == s;
    }
  }
}
