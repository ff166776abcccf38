/**
  Base64 as Python's `base64.b64encode` writes it and `base64 -d` reads it: the
  standard alphabet of section 4 of RFC 4648, every three bytes becoming four
  characters, and a final group of one or two bytes padded with `=` to four.
 */
module Base64 {
  import opened Wrappers
  import opened Builtins

  /** The character for a 6-bit value: `A`-`Z`, `a`-`z`, `0`-`9`, `+`, `/` (RFC 4648, table 1). */
  function CharOf(v: int): (c: char)
    requires 0 <= v < 64
  {
    if v < 26 then ('A' as int + v) as char
    else if v < 52 then ('a' as int + (v - 26)) as char
    else if v < 62 then ('0' as int + (v - 52)) as char
    else if v == 62 then '+'
    else '/'
  }

  /** The 6-bit value of an alphabet character; `None` for any other character, `=` included. */
  function ValueOf(c: char): (r: Option<int>)
    ensures r.Some? ==> 0 <= r.value < 64
  {
    if 'A' <= c <= 'Z' then Some(c as int - 'A' as int)
    else if 'a' <= c <= 'z' then Some(c as int - 'a' as int + 26)
    else if '0' <= c <= '9' then Some(c as int - '0' as int + 52)
    else if c == '+' then Some(62)
    else if c == '/' then Some(63)
    else None
  }

  predicate IsAlphabetChar(c: char) {
    'A' <= c <= 'Z' || 'a' <= c <= 'z' || '0' <= c <= '9' || c == '+' || c == '/'
  }

  /** What an encoded text may hold: the alphabet and the pad character. */
  predicate IsEncodedChar(c: char) {
    IsAlphabetChar(c) || c == '='
  }

  lemma ValueOfCharOf(v: int)
    requires 0 <= v < 64
    ensures IsAlphabetChar(CharOf(v)) && ValueOf(CharOf(v)) == Some(v)
  {
  }

  /** Three bytes, 24 bits, as four 6-bit digits, most significant first. */
  function EncodeTriple(b0: byte, b1: byte, b2: byte): string {
    [CharOf(b0 / 4), CharOf((b0 % 4) * 16 + b1 / 16), CharOf((b1 % 16) * 4 + b2 / 64), CharOf(b2 % 64)]
  }

  /** One final byte: two digits and two pad characters. */
  function EncodeOne(b0: byte): string {
    [CharOf(b0 / 4), CharOf((b0 % 4) * 16), '=', '=']
  }

  /** Two final bytes: three digits and one pad character. */
  function EncodeTwo(b0: byte, b1: byte): string {
    [CharOf(b0 / 4), CharOf((b0 % 4) * 16 + b1 / 16), CharOf((b1 % 16) * 4), '=']
  }

  /** `base64.b64encode(bs).decode()` */
  function Encode(bs: seq<byte>): (s: string)
    ensures |s| == 4 * ((|bs| + 2) / 3)
    decreases |bs|
  {
    if |bs| == 0 then ""
    else if |bs| == 1 then EncodeOne(bs[0])
    else if |bs| == 2 then EncodeTwo(bs[0], bs[1])
    else
      EncodeTriple(bs[0], bs[1], bs[2]) + Encode(bs[3..])
  }

  /** Four alphabet characters as three bytes; `None` if one of them is not in the alphabet. */
  function DecodeQuantum(q: string): (r: Option<seq<byte>>)
    requires |q| == 4
    ensures r.Some? ==> |r.value| == 3
  {
    match (ValueOf(q[0]), ValueOf(q[1]), ValueOf(q[2]), ValueOf(q[3]))
    case (Some(v0), Some(v1), Some(v2), Some(v3)) =>
      Some([v0 * 4 + v1 / 16, (v1 % 16) * 16 + v2 / 4, (v2 % 4) * 64 + v3])
    case _ => None
  }

  /**
    The last group of four: `xx==` carries one byte, `xxx=` two and `xxxx` three.
    The bits a padded group leaves unused are not checked, as `base64 -d` does not check them.
   */
  function DecodeFinalQuantum(q: string): (r: Option<seq<byte>>)
    requires |q| == 4
    ensures r.Some? ==> 1 <= |r.value| <= 3
  {
    if q[2] == '=' && q[3] == '=' then
      match (ValueOf(q[0]), ValueOf(q[1]))
      case (Some(v0), Some(v1)) => Some([v0 * 4 + v1 / 16])
      case _ => None
    else if q[3] == '=' then
      match (ValueOf(q[0]), ValueOf(q[1]), ValueOf(q[2]))
      case (Some(v0), Some(v1), Some(v2)) => Some([v0 * 4 + v1 / 16, (v1 % 16) * 16 + v2 / 4])
      case _ => None
    else
      DecodeQuantum(q)
  }

  /**
    What the remote `base64 -d` recovers from an encoded text; `None` when the text is
    not a whole number of groups of four, holds a character outside the alphabet, or
    has padding anywhere but at the end.
   */
  function Decode(s: string): (r: Option<seq<byte>>)
    decreases |s|
  {
    if s == "" then Some([])
    else if |s| < 4 then None
    else if |s| == 4 then DecodeFinalQuantum(s)
    else
      match DecodeQuantum(s[..4])
      case None => None
      case Some(head) =>
        match Decode(s[4..])
        case None => None
        case Some(tail) => Some(head + tail)
  }

  /** Splitting a number into a quotient and a remainder by a constant, and back. */
  lemma DivMod16(hi: int, lo: int)
    requires 0 <= lo < 16
    ensures (hi * 16 + lo) / 16 == hi && (hi * 16 + lo) % 16 == lo
  {
  }

  lemma DivMod4(hi: int, lo: int)
    requires 0 <= lo < 4
    ensures (hi * 4 + lo) / 4 == hi && (hi * 4 + lo) % 4 == lo
  {
  }

  lemma DecodeDigits(v0: int, v1: int, v2: int, v3: int)
    requires 0 <= v0 < 64 && 0 <= v1 < 64 && 0 <= v2 < 64 && 0 <= v3 < 64
    ensures DecodeQuantum([CharOf(v0), CharOf(v1), CharOf(v2), CharOf(v3)]) ==
      Some([v0 * 4 + v1 / 16, (v1 % 16) * 16 + v2 / 4, (v2 % 4) * 64 + v3])
  {
    ValueOfCharOf(v0);
    ValueOfCharOf(v1);
    ValueOfCharOf(v2);
    ValueOfCharOf(v3);
  }

  lemma DecodeTriple(b0: byte, b1: byte, b2: byte)
    ensures DecodeQuantum(EncodeTriple(b0, b1, b2)) == Some([b0, b1, b2])
  {
    var v0, v1, v2, v3 := b0 / 4, (b0 % 4) * 16 + b1 / 16, (b1 % 16) * 4 + b2 / 64, b2 % 64;
    DecodeDigits(v0, v1, v2, v3);
    DivMod16(b0 % 4, b1 / 16);
    DivMod4(b1 % 16, b2 / 64);
    assert v0 * 4 + v1 / 16 == b0;
    assert (v1 % 16) * 16 + v2 / 4 == b1;
    assert (v2 % 4) * 64 + v3 == b2;
  }

  lemma DecodeOne(b0: byte)
    ensures DecodeFinalQuantum(EncodeOne(b0)) == Some([b0])
  {
    ValueOfCharOf(b0 / 4);
    ValueOfCharOf((b0 % 4) * 16);
    assert ((b0 % 4) * 16) / 16 == b0 % 4;
  }

  lemma DecodeTwo(b0: byte, b1: byte)
    ensures DecodeFinalQuantum(EncodeTwo(b0, b1)) == Some([b0, b1])
  {
    var v1, v2 := (b0 % 4) * 16 + b1 / 16, (b1 % 16) * 4;
    ValueOfCharOf(b0 / 4);
    ValueOfCharOf(v1);
    ValueOfCharOf(v2);
    assert v1 / 16 == b0 % 4 && v1 % 16 == b1 / 16;
    assert v2 / 4 == b1 % 16;
  }

  lemma DecodeLastTriple(bs: seq<byte>)
    requires |bs| == 3
    ensures Decode(Encode(bs)) == Some(bs)
  {
    var q := EncodeTriple(bs[0], bs[1], bs[2]);
    assert Encode(bs) == q + Encode(bs[3..]) == q;
    ValueOfCharOf((bs[1] % 16) * 4 + bs[2] / 64);
    ValueOfCharOf(bs[2] % 64);
    assert DecodeFinalQuantum(q) == DecodeQuantum(q);
    DecodeTriple(bs[0], bs[1], bs[2]);
    assert bs == [bs[0], bs[1], bs[2]];
  }

  /** `Decode` takes a leading full group apart from the rest. */
  lemma DecodeLeadingQuantum(q: string, rest: string)
    requires |q| == 4 && |rest| > 0
    ensures Decode(q + rest) ==
      match DecodeQuantum(q)
      case None => None
      case Some(head) =>
        match Decode(rest)
        case None => None
        case Some(tail) => Some(head + tail)
  {
    assert (q + rest)[..4] == q && (q + rest)[4..] == rest;
  }

  lemma DecodeEncodeOne(bs: seq<byte>)
    requires |bs| == 1
    ensures Decode(Encode(bs)) == Some(bs)
  {
    assert Encode(bs) == EncodeOne(bs[0]);
    DecodeOne(bs[0]);
    assert [bs[0]] == bs;
  }

  lemma DecodeEncodeTwo(bs: seq<byte>)
    requires |bs| == 2
    ensures Decode(Encode(bs)) == Some(bs)
  {
    assert Encode(bs) == EncodeTwo(bs[0], bs[1]);
    DecodeTwo(bs[0], bs[1]);
    assert [bs[0], bs[1]] == bs;
  }

  lemma DecodeEncodeShort(bs: seq<byte>)
    requires |bs| <= 3
    ensures Decode(Encode(bs)) == Some(bs)
  {
    if |bs| == 1 {
      DecodeEncodeOne(bs);
    } else if |bs| == 2 {
      DecodeEncodeTwo(bs);
    } else if |bs| == 3 {
      DecodeLastTriple(bs);
    }
  }

  lemma DecodeEncodeStep(bs: seq<byte>)
    requires |bs| > 3 && Decode(Encode(bs[3..])) == Some(bs[3..])
    ensures Decode(Encode(bs)) == Some(bs)
  {
    var q := EncodeTriple(bs[0], bs[1], bs[2]);
    var rest := Encode(bs[3..]);
    assert |rest| > 0 by {
      assert |bs[3..]| > 0;
    }
    assert Encode(bs) == q + rest;
    DecodeTriple(bs[0], bs[1], bs[2]);
    DecodeLeadingQuantum(q, rest);
    assert Decode(q + rest) == Some([bs[0], bs[1], bs[2]] + bs[3..]);
    FirstThree(bs);
  }

  lemma FirstThree<T>(s: seq<T>)
    requires |s| >= 3
    ensures [s[0], s[1], s[2]] + s[3..] == s
  {
    assert forall i :: 0 <= i < |s| ==> ([s[0], s[1], s[2]] + s[3..])[i] == s[i];
  }

  /** Decoding what `Encode` wrote gives the bytes back (RFC 4648, section 4). */
  lemma {:induction false} DecodeEncode(bs: seq<byte>)
    ensures Decode(Encode(bs)) == Some(bs)
    decreases |bs|
  {
    if |bs| <= 3 {
      DecodeEncodeShort(bs);
    } else {
      DecodeEncode(bs[3..]);
      DecodeEncodeStep(bs);
    }
  }

  lemma EncodedAlphabetTriple(b0: byte, b1: byte, b2: byte)
    ensures forall c :: c in EncodeTriple(b0, b1, b2) ==> IsEncodedChar(c)
  {
    ValueOfCharOf(b0 / 4);
    ValueOfCharOf((b0 % 4) * 16 + b1 / 16);
    ValueOfCharOf((b1 % 16) * 4 + b2 / 64);
    ValueOfCharOf(b2 % 64);
  }

  lemma EncodedAlphabetShort(bs: seq<byte>)
    requires |bs| < 3
    ensures forall c :: c in Encode(bs) ==> IsEncodedChar(c)
  {
    if |bs| == 2 {
      ValueOfCharOf(bs[0] / 4);
      ValueOfCharOf((bs[0] % 4) * 16 + bs[1] / 16);
      ValueOfCharOf((bs[1] % 16) * 4);
    } else if |bs| == 1 {
      ValueOfCharOf(bs[0] / 4);
      ValueOfCharOf((bs[0] % 4) * 16);
    }
  }

  /** Every character of an encoded text is in the alphabet or is `=`. */
  lemma {:induction false} EncodedAlphabet(bs: seq<byte>)
    ensures forall c :: c in Encode(bs) ==> IsEncodedChar(c)
    decreases |bs|
  {
    if |bs| >= 3 {
      EncodedAlphabetTriple(bs[0], bs[1], bs[2]);
      EncodedAlphabet(bs[3..]);
      assert Encode(bs) == EncodeTriple(bs[0], bs[1], bs[2]) + Encode(bs[3..]);
    } else {
      EncodedAlphabetShort(bs);
    }
  }
}
