/**
  `base64.b64decode(payload)` as `parse_POST_body` calls it: a text argument
  must be ASCII, and the decoder is the non-validating one of Python's
  `binascii` module. It reads the standard alphabet of section 4 of RFC 4648,
  skips every other character, stops at the first complete padding and
  complains only about an unfinished final quantum. `Encode` is the standard
  padded encoding, the partner the round trip is stated against.
 */
module Base64 {
  import opened Bytes

  /** The six-bit value of an alphabet character, or 64 for any other character. */
  function AlphabetValue(c: char): (v: nat)
    ensures v <= 64
    ensures v < 64 <==> ('A' <= c <= 'Z' || 'a' <= c <= 'z' || '0' <= c <= '9' || c == '+' || c == '/')
  {
    if 'A' <= c <= 'Z' then c as int - 'A' as int
    else if 'a' <= c <= 'z' then c as int - 'a' as int + 26
    else if '0' <= c <= '9' then c as int - '0' as int + 52
    else if c == '+' then 62
    else if c == '/' then 63
    else 64
  }

  /** The alphabet character for a six-bit value. */
  function AlphabetChar(v: nat): (c: char)
    requires v < 64
    ensures AlphabetValue(c) == v && c != '='
  {
    if v < 26 then ('A' as int + v) as char
    else if v < 52 then ('a' as int + v - 26) as char
    else if v < 62 then ('0' as int + v - 52) as char
    else if v == 62 then '+'
    else '/'
  }

  /**
    The decoder's state between characters: how many characters of the
    current quantum it holds, the bits of the last one not yet written,
    how many `=` it has met since the last alphabet character, and the
    bytes written so far.
   */
  datatype Scan = Scan(quad: nat, left: nat, pads: nat, out: seq<Byte>)

  /** The bits left over fit in the byte they will complete. */
  predicate Valid(st: Scan)
  {
    st.quad < 4 &&
    (st.quad == 1 ==> st.left < 64) &&
    (st.quad == 2 ==> st.left < 16) &&
    (st.quad == 3 ==> st.left < 4)
  }

  /** How a scan ends: at a complete padding, or at the end of the text. */
  datatype Stop = Padded(out: seq<Byte>) | Exhausted(st: Scan)

  /** Takes in one alphabet character: every character after the first of a quantum completes a byte. */
  function Feed(st: Scan, v: nat): (r: Scan)
    requires Valid(st) && v < 64
    ensures Valid(r) && r.pads == 0
    ensures r.quad == (st.quad + 1) % 4
    ensures |r.out| == |st.out| + (if st.quad == 0 then 0 else 1) && r.out[..|st.out|] == st.out
  {
    match st.quad
    case 0 => Scan(1, v, 0, st.out)
    case 1 => Scan(2, v % 16, 0, st.out + [st.left * 4 + v / 16])
    case 2 => Scan(3, v % 4, 0, st.out + [st.left * 16 + v / 4])
    case 3 => Scan(0, 0, 0, st.out + [st.left * 64 + v])
  }

  /** The character loop of the decoder. */
  function Run(s: string, st: Scan): (r: Stop)
    requires Valid(st)
    ensures r.Exhausted? ==> Valid(r.st)
    decreases |s|
  {
    if |s| == 0 then Exhausted(st)
    else if s[0] == '=' then
      if st.quad >= 2 && st.quad + st.pads + 1 >= 4 then Padded(st.out)
      else Run(s[1..], if st.quad >= 2 then st.(pads := st.pads + 1) else st)
    else
      var v := AlphabetValue(s[0]);
      if v == 64 then Run(s[1..], st)
      else Run(s[1..], Feed(st, v))
  }

  /** What `b64decode` gives back: the bytes, or the exception it raises. */
  datatype Decoded =
    | Bytes(bytes: seq<Byte>)
    | NonAscii  // `ValueError`: a text argument must be ASCII
    | Malformed // `binascii.Error`: the final quantum is incomplete

  predicate IsAscii(s: string)
  {
    forall i :: 0 <= i < |s| ==> s[i] as int < 128
  }

  const Start := Scan(0, 0, 0, [])

  function Decode(s: string): (r: Decoded)
    ensures r.NonAscii? <==> !IsAscii(s)
  {
    if !IsAscii(s) then NonAscii
    else
      match Run(s, Start)
      case Padded(out) => Bytes(out)
      case Exhausted(st) => if st.quad == 0 then Bytes(st.out) else Malformed
  }

  /** Three bytes as four alphabet characters. */
  function Group(b0: Byte, b1: Byte, b2: Byte): (t: string)
    ensures |t| == 4
  {
    [AlphabetChar(b0 / 4), AlphabetChar(b0 % 4 * 16 + b1 / 16),
     AlphabetChar(b1 % 16 * 4 + b2 / 64), AlphabetChar(b2 % 64)]
  }

  /** The final one or two bytes, padded with `=` to four characters. */
  function Final(b: seq<Byte>): (t: string)
    requires |b| < 3
    ensures |t| == (if |b| == 0 then 0 else 4)
  {
    if |b| == 0 then ""
    else if |b| == 1 then [AlphabetChar(b[0] / 4), AlphabetChar(b[0] % 4 * 16)] + "=="
    else [AlphabetChar(b[0] / 4), AlphabetChar(b[0] % 4 * 16 + b[1] / 16), AlphabetChar(b[1] % 16 * 4)] + "="
  }

  /** `base64.b64encode`: whole groups of three bytes, then the padded final bytes. */
  function Encode(b: seq<Byte>): (t: string)
    ensures |t| == (|b| + 2) / 3 * 4
    decreases |b|
  {
    if |b| < 3 then Final(b) else Group(b[0], b[1], b[2]) + Encode(b[3..])
  }

  /** Every character of an encoding is an alphabet character or `=`, hence ASCII. */
  lemma {:induction false} EncodeAscii(b: seq<Byte>)
    ensures forall i :: 0 <= i < |Encode(b)| ==> AlphabetValue(Encode(b)[i]) < 64 || Encode(b)[i] == '='
    ensures IsAscii(Encode(b))
    decreases |b|
  {
    if |b| >= 3 {
      EncodeAscii(b[3..]);
      var t := Encode(b);
      assert t == Group(b[0], b[1], b[2]) + Encode(b[3..]);
      forall i | 0 <= i < |t|
        ensures AlphabetValue(t[i]) < 64 || t[i] == '='
      {
        if i >= 4 {
          assert t[i] == Encode(b[3..])[i - 4];
        }
      }
    }
  }

  /** An alphabet character is fed to the state and the scan goes on. */
  lemma RunAlphabet(s: string, st: Scan)
    requires |s| > 0 && Valid(st) && AlphabetValue(s[0]) < 64
    ensures Run(s, st) == Run(s[1..], Feed(st, AlphabetValue(s[0])))
  {
  }

  /** The second character of a quantum completes the first byte. */
  lemma FeedSecond(out: seq<Byte>, b0: Byte, b1: Byte)
    ensures Feed(Scan(1, b0 / 4, 0, out), b0 % 4 * 16 + b1 / 16) == Scan(2, b1 / 16, 0, out + [b0])
  {
  }

  /** The third character of a quantum completes the second byte. */
  lemma FeedThird(out: seq<Byte>, b1: Byte, b2: Byte)
    ensures Feed(Scan(2, b1 / 16, 0, out), b1 % 16 * 4 + b2 / 64) == Scan(3, b2 / 64, 0, out + [b1])
  {
  }

  /** The fourth character of a quantum completes the third byte. */
  lemma FeedFourth(out: seq<Byte>, b2: Byte)
    ensures Feed(Scan(3, b2 / 64, 0, out), b2 % 64) == Scan(0, 0, 0, out + [b2])
  {
  }

  /** A group of four characters from the start of a quantum writes its three bytes back. */
  lemma GroupRoundTrip(b0: Byte, b1: Byte, b2: Byte, rest: string, out: seq<Byte>)
    ensures Run(Group(b0, b1, b2) + rest, Scan(0, 0, 0, out)) == Run(rest, Scan(0, 0, 0, out + [b0, b1, b2]))
  {
    var t := Group(b0, b1, b2) + rest;
    assert t[0] == AlphabetChar(b0 / 4) && t[1] == AlphabetChar(b0 % 4 * 16 + b1 / 16);
    FinalStart(t, b0, b1, out);
    assert t[2..][0] == AlphabetChar(b1 % 16 * 4 + b2 / 64) && t[2..][1] == AlphabetChar(b2 % 64);
    GroupEnd(t[2..], b1, b2, out + [b0]);
    assert t[2..][2..] == rest;
    assert out + [b0] + [b1, b2] == out + [b0, b1, b2];
  }

  /** The last two characters of a full quantum give its second and third bytes. */
  lemma GroupEnd(t: string, b1: Byte, b2: Byte, out: seq<Byte>)
    requires |t| >= 2 && t[0] == AlphabetChar(b1 % 16 * 4 + b2 / 64) && t[1] == AlphabetChar(b2 % 64)
    ensures Run(t, Scan(2, b1 / 16, 0, out)) == Run(t[2..], Scan(0, 0, 0, out + [b1, b2]))
  {
    RunAlphabet(t, Scan(2, b1 / 16, 0, out));
    FeedThird(out, b1, b2);
    assert t[1..][1..] == t[2..];
    RunAlphabet(t[1..], Scan(3, b2 / 64, 0, out + [b1]));
    FeedFourth(out + [b1], b2);
    assert out + [b1] + [b2] == out + [b1, b2];
  }

  /** The first two characters of a final quantum give its first byte. */
  lemma FinalStart(t: string, b0: Byte, b1: Byte, out: seq<Byte>)
    requires |t| >= 2 && t[0] == AlphabetChar(b0 / 4) && t[1] == AlphabetChar(b0 % 4 * 16 + b1 / 16)
    ensures Run(t, Scan(0, 0, 0, out)) == Run(t[2..], Scan(2, b1 / 16, 0, out + [b0]))
  {
    RunAlphabet(t, Scan(0, 0, 0, out));
    RunAlphabet(t[1..], Scan(1, b0 / 4, 0, out));
    FeedSecond(out, b0, b1);
    assert t[1..][1..] == t[2..];
  }

  /** One final byte: two characters and `==`. */
  lemma FinalOne(b0: Byte, out: seq<Byte>)
    ensures Run(Final([b0]), Scan(0, 0, 0, out)) == Padded(out + [b0])
  {
    var t := Final([b0]);
    FinalStart(t, b0, 0, out);
    assert t[2..] == "==";
    var s2 := Scan(2, 0, 0, out + [b0]);
    assert Run(t[2..], s2) == Run("=", s2.(pads := 1));
    assert "="[1..] == [];
  }

  /** Two final bytes: three characters and `=`. */
  lemma FinalTwo(b0: Byte, b1: Byte, out: seq<Byte>)
    ensures Run(Final([b0, b1]), Scan(0, 0, 0, out)) == Padded(out + [b0, b1])
  {
    var t := Final([b0, b1]);
    FinalStart(t, b0, b1, out);
    var s2 := Scan(2, b1 / 16, 0, out + [b0]);
    assert t[2] == AlphabetChar(b1 % 16 * 4 + 0 / 64);
    RunAlphabet(t[2..], s2);
    FeedThird(out + [b0], b1, 0);
    assert t[2..][1..] == "=";
    assert out + [b0] + [b1] == out + [b0, b1];
  }

  /** A padded final quantum of one or two bytes writes them and stops the scan. */
  lemma TailRoundTrip(b: seq<Byte>, out: seq<Byte>)
    requires 1 <= |b| <= 2
    ensures Run(Final(b), Scan(0, 0, 0, out)) == Padded(out + b)
  {
    if |b| == 1 {
      assert b == [b[0]];
      FinalOne(b[0], out);
    } else {
      assert b == [b[0], b[1]];
      FinalTwo(b[0], b[1], out);
    }
  }

  lemma AppendGroup(out: seq<Byte>, b: seq<Byte>)
    requires |b| >= 3
    ensures out + [b[0], b[1], b[2]] + b[3..] == out + b
  {
    assert [b[0], b[1], b[2]] + b[3..] == b;
  }

  lemma ModThree(n: nat)
    requires n >= 3
    ensures (n - 3) % 3 == n % 3
  {
  }

  /** Decoding an encoding from the start of a quantum appends exactly the encoded bytes. */
  lemma {:induction false} RunEncode(b: seq<Byte>, out: seq<Byte>)
    ensures Run(Encode(b), Scan(0, 0, 0, out)) ==
      if |b| % 3 == 0 then Exhausted(Scan(0, 0, 0, out + b)) else Padded(out + b)
    decreases |b|
  {
    if |b| == 0 {
      assert out + b == out;
    } else if |b| <= 2 {
      TailRoundTrip(b, out);
      assert Encode(b) == Final(b);
    } else {
      EncodeStep(b, out);
      RunEncode(b[3..], out + [b[0], b[1], b[2]]);
      AppendGroup(out, b);
      ModThree(|b|);
    }
  }

  /** The first group of an encoding of three or more bytes decodes to those bytes. */
  lemma EncodeStep(b: seq<Byte>, out: seq<Byte>)
    requires |b| >= 3
    ensures Run(Encode(b), Scan(0, 0, 0, out)) == Run(Encode(b[3..]), Scan(0, 0, 0, out + [b[0], b[1], b[2]]))
  {
    EncodeGroup(b);
    GroupRoundTrip(b[0], b[1], b[2], Encode(b[3..]), out);
  }

  lemma EncodeGroup(b: seq<Byte>)
    requires |b| >= 3
    ensures Encode(b) == Group(b[0], b[1], b[2]) + Encode(b[3..])
  {
  }

  /** `b64decode(b64encode(b)) == b`. */
  lemma DecodeEncode(b: seq<Byte>)
    ensures Decode(Encode(b)) == Bytes(b)
  {
    EncodeAscii(b);
    RunEncode(b, []);
  }

  /** A character outside the alphabet and other than `=` is skipped wherever it stands. */
  lemma {:induction false} RunSkips(a: string, c: char, b: string, st: Scan)
    requires Valid(st) && AlphabetValue(c) == 64 && c != '='
    ensures Run(a + [c] + b, st) == Run(a + b, st)
    decreases |a|
  {
    if |a| == 0 {
      assert (a + [c] + b)[1..] == b;
      assert a + b == b;
    } else {
      assert (a + [c] + b)[0] == a[0] && (a + b)[0] == a[0];
      assert (a + [c] + b)[1..] == a[1..] + [c] + b;
      assert (a + b)[1..] == a[1..] + b;
      var v := AlphabetValue(a[0]);
      if a[0] == '=' {
        if !(st.quad >= 2 && st.quad + st.pads + 1 >= 4) {
          RunSkips(a[1..], c, b, if st.quad >= 2 then st.(pads := st.pads + 1) else st);
        }
      } else if v == 64 {
        RunSkips(a[1..], c, b, st);
      } else {
        RunSkips(a[1..], c, b, Feed(st, v));
      }
    }
  }

  /** Stray ASCII characters such as line breaks do not change what is decoded. */
  lemma DecodeSkips(a: string, c: char, b: string)
    requires AlphabetValue(c) == 64 && c != '=' && c as int < 128
    ensures Decode(a + [c] + b) == Decode(a + b)
  {
    RunSkips(a, c, b, Start);
    assert IsAscii(a + [c] + b) <==> IsAscii(a + b) by {
      if IsAscii(a + b) {
        forall i | 0 <= i < |a + [c] + b| ensures (a + [c] + b)[i] as int < 128 {
          if i < |a| {
            assert (a + [c] + b)[i] == (a + b)[i];
          } else if i > |a| {
            assert (a + [c] + b)[i] == (a + b)[i - 1];
          }
        }
      }
      if IsAscii(a + [c] + b) {
        forall i | 0 <= i < |a + b| ensures (a + b)[i] as int < 128 {
          if i < |a| {
            assert (a + [c] + b)[i] == (a + b)[i];
          } else {
            assert (a + [c] + b)[i + 1] == (a + b)[i];
          }
        }
      }
    }
  }
}
