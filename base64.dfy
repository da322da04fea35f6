/**
 * `base64.StdEncoding` of Go: the base 64 encoding of section 4 of RFC 4648,
 * with the standard alphabet and `=` padding, and Go's `[]byte(s)` for the
 * text it encodes (the UTF-8 encoding of the characters).
 */
module Base64 {
  import opened Wrappers

  type byte = x: int | 0 <= x < 256

  /** The character of a 6-bit value, by Table 1 of RFC 4648: `A`-`Z`, `a`-`z`, `0`-`9`, `+`, `/`. */
  function Digit(v: int): char
    requires 0 <= v < 64
  {
    if v < 26 then ('A' as int + v) as char
    else if v < 52 then ('a' as int + v - 26) as char
    else if v < 62 then ('0' as int + v - 52) as char
    else if v == 62 then '+'
    else '/'
  }

  /** The 6-bit value of an alphabet character, and nothing for any other character. */
  function Value(c: char): Option<int> {
    if 'A' <= c <= 'Z' then Some(c as int - 'A' as int)
    else if 'a' <= c <= 'z' then Some(c as int - 'a' as int + 26)
    else if '0' <= c <= '9' then Some(c as int - '0' as int + 52)
    else if c == '+' then Some(62)
    else if c == '/' then Some(63)
    else None
  }

  lemma DigitValue(v: int)
    requires 0 <= v < 64
    ensures Value(Digit(v)) == Some(v) && Digit(v) != '='
  {
  }

  /** Three bytes as four characters. */
  function Quantum(b0: byte, b1: byte, b2: byte): string {
    [Digit(b0 / 4), Digit((b0 % 4) * 16 + b1 / 16), Digit((b1 % 16) * 4 + b2 / 64), Digit(b2 % 64)]
  }

  /** EncodeToString: every three bytes become four characters; a final one or two bytes are padded with `=`. */
  function Encode(b: seq<byte>): string
    decreases |b|
  {
    if |b| == 0 then ""
    else if |b| == 1 then [Digit(b[0] / 4), Digit((b[0] % 4) * 16), '=', '=']
    else if |b| == 2 then [Digit(b[0] / 4), Digit((b[0] % 4) * 16 + b[1] / 16), Digit((b[1] % 16) * 4), '=']
    else Quantum(b[0], b[1], b[2]) + Encode(b[3..])
  }

  /** The three bytes behind four 6-bit values. */
  function Bytes3(v0: int, v1: int, v2: int, v3: int): seq<byte>
    requires 0 <= v0 < 64 && 0 <= v1 < 64 && 0 <= v2 < 64 && 0 <= v3 < 64
  {
    [v0 * 4 + v1 / 16, (v1 % 16) * 16 + v2 / 4, (v2 % 4) * 64 + v3]
  }

  /** Decoding, the inverse: four characters at a time, with padding only in the last four. */
  function Decode(s: string): Option<seq<byte>>
    decreases |s|
  {
    if s == [] then Some([])
    else if |s| < 4 then None
    else
      var v0, v1 := Value(s[0]), Value(s[1]);
      if v0.None? || v1.None? then None
      else if |s| == 4 && s[2] == '=' && s[3] == '=' then Some([v0.value * 4 + v1.value / 16])
      else if Value(s[2]).None? then None
      else
        var v2 := Value(s[2]).value;
        if |s| == 4 && s[3] == '=' then Some([v0.value * 4 + v1.value / 16, (v1.value % 16) * 16 + v2 / 4])
        else if Value(s[3]).None? then None
        else
          var g := Bytes3(v0.value, v1.value, v2, Value(s[3]).value);
          match Decode(s[4..])
          case None => None
          case Some(rest) => Some(g + rest)
  }

  /** Splitting three bytes into four 6-bit values and joining them again gives the bytes back. */
  lemma QuantumBytes(b0: byte, b1: byte, b2: byte)
    ensures var v1, v2 := (b0 % 4) * 16 + b1 / 16, (b1 % 16) * 4 + b2 / 64;
      && v1 / 16 == b0 % 4 && v1 % 16 == b1 / 16
      && v2 / 4 == b1 % 16 && v2 % 4 == b2 / 64
      && Bytes3(b0 / 4, v1, v2, b2 % 64) == [b0, b1, b2]
  {
  }

  /** What Go encodes can be decoded back to the same bytes. */
  lemma {:induction false} DecodeEncode(b: seq<byte>)
    ensures Decode(Encode(b)) == Some(b)
    decreases |b|
  {
    if |b| == 1 {
      DecodeShort(b);
    } else if |b| == 2 {
      DecodeShort(b);
    } else if |b| >= 3 {
      DecodeEncode(b[3..]);
      SplitThree(b);
      DecodeCons(b[0], b[1], b[2], b[3..]);
    }
  }

  /** One or two bytes encode to a padded quantum that decodes to them. */
  lemma DecodeShort(b: seq<byte>)
    requires 1 <= |b| <= 2
    ensures Decode(Encode(b)) == Some(b)
  {
    if |b| == 1 {
      DecodeOne(b[0]);
      assert Encode(b) == [Digit(b[0] / 4), Digit((b[0] % 4) * 16), '=', '='];
      assert b == [b[0]];
    } else {
      DecodeTwo(b[0], b[1]);
      assert Encode(b) == [Digit(b[0] / 4), Digit((b[0] % 4) * 16 + b[1] / 16), Digit((b[1] % 16) * 4), '='];
      assert b == [b[0], b[1]];
    }
  }

  lemma SplitThree(b: seq<byte>)
    requires |b| >= 3
    ensures b == [b[0], b[1], b[2]] + b[3..]
  {
  }

  /** A full quantum in front of an encoding that decodes back decodes back too. */
  lemma DecodeCons(x: byte, y: byte, z: byte, rest: seq<byte>)
    requires Decode(Encode(rest)) == Some(rest)
    ensures Decode(Encode([x, y, z] + rest)) == Some([x, y, z] + rest)
  {
    EncodeCons(x, y, z, rest);
    DecodeQuantum(x, y, z, Encode(rest), rest);
  }

  lemma DecodeOne(b0: byte)
    ensures Decode([Digit(b0 / 4), Digit((b0 % 4) * 16), '=', '=']) == Some([b0])
  {
    DigitValue(b0 / 4);
    DigitValue((b0 % 4) * 16);
  }

  lemma DecodeTwo(b0: byte, b1: byte)
    ensures Decode([Digit(b0 / 4), Digit((b0 % 4) * 16 + b1 / 16), Digit((b1 % 16) * 4), '=']) == Some([b0, b1])
  {
    var v1, v2 := (b0 % 4) * 16 + b1 / 16, (b1 % 16) * 4;
    DigitValue(b0 / 4);
    DigitValue(v1);
    DigitValue(v2);
    assert v1 / 16 == b0 % 4 && v1 % 16 == b1 / 16 && v2 / 4 == b1 % 16;
  }

  /** A full quantum in front of an encoding that decodes adds its three bytes in front. */
  lemma DecodeQuantum(b0: byte, b1: byte, b2: byte, rest: string, tail: seq<byte>)
    requires Decode(rest) == Some(tail)
    ensures Decode(Quantum(b0, b1, b2) + rest) == Some([b0, b1, b2] + tail)
  {
    var q := Quantum(b0, b1, b2);
    var s := q + rest;
    DigitValue(b0 / 4);
    DigitValue((b0 % 4) * 16 + b1 / 16);
    DigitValue((b1 % 16) * 4 + b2 / 64);
    DigitValue(b2 % 64);
    QuantumBytes(b0, b1, b2);
    assert s[..4] == q && s[4..] == rest;
    assert s[0] == q[0] && s[1] == q[1] && s[2] == q[2] && s[3] == q[3];
  }

  /** Every four characters of the encoding stand for three bytes, rounded up. */
  lemma {:induction false} EncodeLength(b: seq<byte>)
    ensures |Encode(b)| == 4 * ((|b| + 2) / 3)
    decreases |b|
  {
    if |b| >= 3 {
      EncodeLength(b[3..]);
      assert (|b| + 2) / 3 == (|b[3..]| + 2) / 3 + 1;
    }
  }

  /** Go's `[]byte(s)`: each character as its UTF-8 bytes. */
  function Utf8(s: string): seq<byte> {
    if s == [] then []
    else Utf8Char(s[0]) + Utf8(s[1..])
  }

  function Utf8Char(c: char): (bs: seq<byte>)
    ensures 1 <= |bs| <= 4
  {
    var v := c as int;
    if v < 0x80 then [v]
    else if v < 0x800 then [0xC0 + v / 64, 0x80 + v % 64]
    else if v < 0x1_0000 then [0xE0 + v / 4096, 0x80 + (v / 64) % 64, 0x80 + v % 64]
    else [0xF0 + (v / 0x4_0000) % 8, 0x80 + (v / 4096) % 64, 0x80 + (v / 64) % 64, 0x80 + v % 64]
  }

  /** ASCII text is its own bytes. */
  lemma {:induction false} Utf8Ascii(s: string)
    requires forall i :: 0 <= i < |s| ==> s[i] as int < 0x80
    ensures Utf8(s) == seq(|s|, i requires 0 <= i < |s| => s[i] as int)
  {
    if s != [] {
      Utf8Ascii(s[1..]);
    }
  }

  /** The bytes of joined text are the bytes of its parts, joined. */
  lemma {:induction false} Utf8Append(a: string, b: string)
    ensures Utf8(a + b) == Utf8(a) + Utf8(b)
  {
    if a != [] {
      assert (a + b)[1..] == a[1..] + b;
      Utf8Append(a[1..], b);
    } else {
      assert a + b == b;
    }
  }

  /** A character other than ASCII becomes bytes of 0x80 and above only. */
  lemma {:induction false} Utf8Above(s: string, b: byte)
    requires b < 0x80 && forall i :: 0 <= i < |s| ==> s[i] as int != b
    ensures forall i :: 0 <= i < |Utf8(s)| ==> Utf8(s)[i] != b
  {
    if s != [] {
      Utf8Above(s[1..], b);
      assert s[0] as int != b;
    }
  }

  /** Three bytes in front: their quantum in front of the rest's encoding. */
  lemma EncodeCons(x: byte, y: byte, z: byte, rest: seq<byte>)
    ensures Encode([x, y, z] + rest) == Quantum(x, y, z) + Encode(rest)
  {
    var b := [x, y, z] + rest;
    assert b[3..] == rest;
  }

  /** Three ASCII characters in front of more text: their quantum in front of the rest's encoding. */
  lemma AsciiQuantum(q: string, rest: string)
    requires |q| == 3 && q[0] as int < 0x80 && q[1] as int < 0x80 && q[2] as int < 0x80
    ensures Encode(Utf8(q + rest)) == Quantum(q[0] as int, q[1] as int, q[2] as int) + Encode(Utf8(rest))
  {
    Utf8Append(q, rest);
    assert q[1..][1..][1..] == [];
    assert Utf8(q[1..][1..]) == [q[2] as int];
    assert Utf8(q[1..]) == [q[1] as int, q[2] as int];
    assert Utf8(q) == [q[0] as int, q[1] as int, q[2] as int];
    EncodeCons(q[0] as int, q[1] as int, q[2] as int, Utf8(rest));
  }
}
