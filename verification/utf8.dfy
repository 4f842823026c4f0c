/**
  `bytes.decode("utf-8")` as `parse_POST_body` applies it to the base64-decoded
  payload: the strict decoder, which accepts exactly the well-formed byte
  sequences of table 3-7 of the Unicode Standard (no overlong forms, no
  surrogates, nothing above U+10FFFF) and raises `UnicodeDecodeError` on
  anything else. `Encode` is `str.encode("utf-8")`, its partner.
 */
module Utf8 {
  import opened Options
  import opened Bytes

  predicate IsContinuation(b: Byte)
  {
    0x80 <= b <= 0xBF
  }

  /** The UTF-8 encoding of one scalar value, in one to four bytes. */
  function EncodeChar(c: char): (r: seq<Byte>)
    ensures 1 <= |r| <= 4
  {
    var n := c as int;
    if n < 0x80 then [n]
    else if n < 0x800 then [0xC0 + n / 64, 0x80 + n % 64]
    else if n < 0x10000 then [0xE0 + n / 4096, 0x80 + n / 64 % 64, 0x80 + n % 64]
    else [0xF0 + n / 262144, 0x80 + n / 4096 % 64, 0x80 + n / 64 % 64, 0x80 + n % 64]
  }

  /** The second byte a lead byte allows: narrower after E0, ED, F0 and F4. */
  function SecondLow(b0: int): int
  {
    if b0 == 0xE0 then 0xA0 else if b0 == 0xF0 then 0x90 else 0x80
  }

  function SecondHigh(b0: int): int
  {
    if b0 == 0xED then 0x9F else if b0 == 0xF4 then 0x8F else 0xBF
  }

  /** The first character of `b` and the number of bytes it takes, if `b` starts well-formed. */
  function DecodeChar(b: seq<Byte>): (r: Option<(char, nat)>)
    ensures r.Some? ==> 1 <= r.value.1 <= |b| && r.value.1 <= 4
  {
    if |b| == 0 then None
    else
      var b0: int := b[0];
      if b0 < 0x80 then Some((b0 as char, 1))
      else if 0xC2 <= b0 <= 0xDF then
        if |b| < 2 || !IsContinuation(b[1]) then None
        else Some((((b0 - 0xC0) * 64 + (b[1] as int - 0x80)) as char, 2))
      else if 0xE0 <= b0 <= 0xEF then
        if |b| < 3 || !(SecondLow(b0) <= b[1] <= SecondHigh(b0)) || !IsContinuation(b[2]) then None
        else
          var n := (b0 - 0xE0) * 4096 + (b[1] as int - 0x80) * 64 + (b[2] as int - 0x80);
          ThreeByteRange(b0, b[1], b[2]);
          Some((n as char, 3))
      else if 0xF0 <= b0 <= 0xF4 then
        if |b| < 4 || !(SecondLow(b0) <= b[1] <= SecondHigh(b0)) || !IsContinuation(b[2]) || !IsContinuation(b[3]) then None
        else
          var n := (b0 - 0xF0) * 262144 + (b[1] as int - 0x80) * 4096 + (b[2] as int - 0x80) * 64 + (b[3] as int - 0x80);
          FourByteRange(b0, b[1], b[2], b[3]);
          Some((n as char, 4))
      else None
  }

  /** A well-formed three-byte sequence encodes a value from U+0800 to U+FFFF outside the surrogates. */
  lemma ThreeByteRange(b0: int, b1: int, b2: int)
    requires 0xE0 <= b0 <= 0xEF && SecondLow(b0) <= b1 <= SecondHigh(b0) && 0x80 <= b2 <= 0xBF
    ensures var n := (b0 - 0xE0) * 4096 + (b1 - 0x80) * 64 + (b2 - 0x80);
      0x800 <= n < 0x10000 && (n < 0xD800 || 0xE000 <= n)
  {
  }

  /** A well-formed four-byte sequence encodes a value from U+10000 to U+10FFFF. */
  lemma FourByteRange(b0: int, b1: int, b2: int, b3: int)
    requires 0xF0 <= b0 <= 0xF4 && SecondLow(b0) <= b1 <= SecondHigh(b0)
    requires 0x80 <= b2 <= 0xBF && 0x80 <= b3 <= 0xBF
    ensures var n := (b0 - 0xF0) * 262144 + (b1 - 0x80) * 4096 + (b2 - 0x80) * 64 + (b3 - 0x80);
      0x10000 <= n < 0x110000
  {
  }

  function Encode(s: string): (r: seq<Byte>)
    ensures |r| >= |s|
  {
    if |s| == 0 then [] else EncodeChar(s[0]) + Encode(s[1..])
  }

  /** `bytes.decode("utf-8")`: the text, or `None` where Python raises `UnicodeDecodeError`. */
  function Decode(b: seq<Byte>): (r: Option<string>)
    ensures r.Some? ==> |r.value| <= |b|
    decreases |b|
  {
    if |b| == 0 then Some([])
    else
      match DecodeChar(b)
      case None => None
      case Some((c, n)) =>
        match Decode(b[n..])
        case None => None
        case Some(s) => Some([c] + s)
  }

  /** Quotient and remainder of a value split at 64. */
  lemma Split(a: int, r: int)
    requires 0 <= r < 64
    ensures (a * 64 + r) / 64 == a && (a * 64 + r) % 64 == r
  {
  }

  /** Three base-64 digits are recovered from the value they make. */
  lemma Digits3(a: int, b: int, c: int)
    requires 0 <= b < 64 && 0 <= c < 64
    ensures var n := a * 4096 + b * 64 + c;
      n / 4096 == a && n / 64 % 64 == b && n % 64 == c
  {
    var n := a * 4096 + b * 64 + c;
    assert n == (a * 64 + b) * 64 + c;
    Split(a * 64 + b, c);
    Split(a, b);
    assert n / 64 / 64 == a;
  }

  /** Four base-64 digits are recovered from the value they make. */
  lemma Digits4(a: int, b: int, c: int, d: int)
    requires 0 <= b < 64 && 0 <= c < 64 && 0 <= d < 64
    ensures var n := a * 262144 + b * 4096 + c * 64 + d;
      n / 262144 == a && n / 4096 % 64 == b && n / 64 % 64 == c && n % 64 == d
  {
    var n := a * 262144 + b * 4096 + c * 64 + d;
    assert n == ((a * 64 + b) * 64 + c) * 64 + d;
    Split((a * 64 + b) * 64 + c, d);
    Split(a * 64 + b, c);
    Split(a, b);
  }

  /** A value is the sum of its three base-64 digits. */
  lemma Pieces3(n: nat)
    ensures n == n / 4096 * 4096 + n / 64 % 64 * 64 + n % 64
  {
    var q := n / 64;
    assert n == q * 64 + n % 64;
    assert q == q / 64 * 64 + q % 64;
    assert n == q / 64 * 4096 + q % 64 * 64 + n % 64;
    Digits3(q / 64, q % 64, n % 64);
  }

  /** A value is the sum of its four base-64 digits. */
  lemma Pieces4(n: nat)
    ensures n == n / 262144 * 262144 + n / 4096 % 64 * 4096 + n / 64 % 64 * 64 + n % 64
  {
    var q := n / 64;
    var q2 := q / 64;
    assert n == q * 64 + n % 64;
    assert q == q2 * 64 + q % 64;
    assert q2 == q2 / 64 * 64 + q2 % 64;
    assert n == q2 / 64 * 262144 + q2 % 64 * 4096 + q % 64 * 64 + n % 64;
    Digits4(q2 / 64, q2 % 64, q % 64, n % 64);
  }

  /** A character's encoding decodes back to it, whatever follows. */
  lemma DecodeEncodeChar(c: char, rest: seq<Byte>)
    ensures DecodeChar(EncodeChar(c) + rest) == Some((c, |EncodeChar(c)|))
  {
    var n := c as int;
    if n < 0x80 {
    } else if n < 0x800 {
      DecodeTwo(c, rest);
    } else if n < 0x10000 {
      DecodeThree(c, rest);
    } else {
      DecodeFour(c, rest);
    }
  }

  lemma DecodeTwo(c: char, rest: seq<Byte>)
    requires 0x80 <= c as int < 0x800
    ensures DecodeChar(EncodeChar(c) + rest) == Some((c, 2))
  {
    var n := c as int;
    Split(n / 64, n % 64);
    assert n == n / 64 * 64 + n % 64;
  }

  lemma DecodeThree(c: char, rest: seq<Byte>)
    requires 0x800 <= c as int < 0x10000
    ensures DecodeChar(EncodeChar(c) + rest) == Some((c, 3))
  {
    var n := c as int;
    var b := EncodeChar(c) + rest;
    Pieces3(n);
    assert b[0] == 0xE0 + n / 4096 && b[1] == 0x80 + n / 64 % 64 && b[2] == 0x80 + n % 64;
  }

  lemma DecodeFour(c: char, rest: seq<Byte>)
    requires 0x10000 <= c as int
    ensures DecodeChar(EncodeChar(c) + rest) == Some((c, 4))
  {
    var n := c as int;
    var b := EncodeChar(c) + rest;
    Pieces4(n);
    assert b[0] == 0xF0 + n / 262144 && b[1] == 0x80 + n / 4096 % 64;
    assert b[2] == 0x80 + n / 64 % 64 && b[3] == 0x80 + n % 64;
  }

  /** The decoder accepts only shortest forms: what it reads is the encoding of what it returns. */
  lemma EncodeDecodeChar(b: seq<Byte>)
    requires DecodeChar(b).Some?
    ensures b[..DecodeChar(b).value.1] == EncodeChar(DecodeChar(b).value.0)
  {
    var b0 := b[0];
    if b0 < 0x80 {
      assert b[..1] == [b0];
    } else if b0 <= 0xDF {
      ReadTwo(b);
    } else if b0 <= 0xEF {
      ReadThree(b);
    } else {
      ReadFour(b);
    }
  }

  lemma ReadTwo(b: seq<Byte>)
    requires DecodeChar(b).Some? && 0x80 <= b[0] <= 0xDF
    ensures b[..2] == EncodeChar(DecodeChar(b).value.0) && DecodeChar(b).value.1 == 2
  {
    Split(b[0] - 0xC0, b[1] - 0x80);
    assert b[..2] == [b[0], b[1]];
  }

  lemma ReadThree(b: seq<Byte>)
    requires DecodeChar(b).Some? && 0xE0 <= b[0] <= 0xEF
    ensures b[..3] == EncodeChar(DecodeChar(b).value.0) && DecodeChar(b).value.1 == 3
  {
    Digits3(b[0] - 0xE0, b[1] - 0x80, b[2] - 0x80);
    assert b[..3] == [b[0], b[1], b[2]];
  }

  lemma ReadFour(b: seq<Byte>)
    requires DecodeChar(b).Some? && 0xF0 <= b[0]
    ensures b[..4] == EncodeChar(DecodeChar(b).value.0) && DecodeChar(b).value.1 == 4
  {
    Digits4(b[0] - 0xF0, b[1] - 0x80, b[2] - 0x80, b[3] - 0x80);
    assert b[..4] == [b[0], b[1], b[2], b[3]];
  }

  /** `b.decode("utf-8")` inverts `s.encode("utf-8")`. */
  lemma {:induction false} DecodeEncode(s: string)
    ensures Decode(Encode(s)) == Some(s)
  {
    if |s| > 0 {
      var e := EncodeChar(s[0]);
      DecodeEncodeChar(s[0], Encode(s[1..]));
      assert (e + Encode(s[1..]))[|e|..] == Encode(s[1..]);
      DecodeEncode(s[1..]);
      assert [s[0]] + s[1..] == s;
    }
  }

  /** A decoded text is its first character and the decoding of the bytes after it. */
  lemma DecodeStep(b: seq<Byte>)
    requires |b| > 0 && Decode(b).Some?
    ensures DecodeChar(b).Some? && Decode(b[DecodeChar(b).value.1..]).Some?
    ensures var s := Decode(b).value;
      |s| > 0 && s[0] == DecodeChar(b).value.0 && s[1..] == Decode(b[DecodeChar(b).value.1..]).value
  {
    var n := DecodeChar(b).value.1;
    var s := Decode(b).value;
    assert s == [DecodeChar(b).value.0] + Decode(b[n..]).value;
  }

  /** Whatever decodes, decodes from the encoding of its result: the decoding is unique. */
  lemma {:induction false} EncodeDecode(b: seq<Byte>)
    requires Decode(b).Some?
    ensures Encode(Decode(b).value) == b
    decreases |b|
  {
    if |b| > 0 {
      var n := DecodeChar(b).value.1;
      var s := Decode(b).value;
      DecodeStep(b);
      EncodeDecodeChar(b);
      EncodeDecode(b[n..]);
      assert Encode(s) == EncodeChar(s[0]) + Encode(s[1..]);
      assert b[..n] + b[n..] == b;
    }
  }
}
