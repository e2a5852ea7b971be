/** The base64 encoding of section 4 of RFC 4648 (alphabet `A-Z a-z 0-9 + /`,
    `=` padding), which `Buffer.toString('base64')` and `btoa` produce for the
    `bytesValue` of an attribute, with a strict decoder as its partner. */
module Base64 {
  import opened Wrappers

  type byte = b: int | 0 <= b < 256

  predicate IsAlphabetChar(c: char) {
    ('A' <= c <= 'Z') || ('a' <= c <= 'z') || ('0' <= c <= '9') || c == '+' || c == '/'
  }

  /** The character encoding the 6-bit value `i` (table 1 of the RFC). */
  function SextetChar(i: int): (c: char)
    requires 0 <= i < 64
    ensures IsAlphabetChar(c)
  {
    if i < 26 then ('A' as int + i) as char
    else if i < 52 then ('a' as int + (i - 26)) as char
    else if i < 62 then ('0' as int + (i - 52)) as char
    else if i == 62 then '+'
    else '/'
  }

  /** The 6-bit value an alphabet character stands for. */
  function SextetValue(c: char): (i: int)
    requires IsAlphabetChar(c)
    ensures 0 <= i < 64
    ensures SextetChar(i) == c
  {
    if 'A' <= c <= 'Z' then c as int - 'A' as int
    else if 'a' <= c <= 'z' then c as int - 'a' as int + 26
    else if '0' <= c <= '9' then c as int - '0' as int + 52
    else if c == '+' then 62
    else 63
  }

  lemma SextetRoundTrip(i: int)
    requires 0 <= i < 64
    ensures SextetValue(SextetChar(i)) == i
  {
  }

  /** Three bytes as four characters. */
  function EncodeTriple(b0: byte, b1: byte, b2: byte): (s: string)
    ensures |s| == 4
    ensures forall k :: 0 <= k < 4 ==> IsAlphabetChar(s[k])
  {
    [SextetChar(b0 / 4), SextetChar((b0 % 4) * 16 + b1 / 16),
     SextetChar((b1 % 16) * 4 + b2 / 64), SextetChar(b2 % 64)]
  }

  /** Encodes `bytes`: full groups of three, then a padded final group. */
  function Encode(bytes: seq<byte>): string
    decreases |bytes|
  {
    if |bytes| == 0 then ""
    else if |bytes| == 1 then
      [SextetChar(bytes[0] / 4), SextetChar((bytes[0] % 4) * 16), '=', '=']
    else if |bytes| == 2 then
      [SextetChar(bytes[0] / 4), SextetChar((bytes[0] % 4) * 16 + bytes[1] / 16),
       SextetChar((bytes[1] % 16) * 4), '=']
    else
      EncodeTriple(bytes[0], bytes[1], bytes[2]) + Encode(bytes[3..])
  }

  /** Decodes one four-character group; `last` allows padding in it. Non-zero
      pad bits are rejected, so that only canonical encodings decode. */
  function DecodeQuad(q: string, last: bool): Option<seq<byte>>
    requires |q| == 4
  {
    if IsAlphabetChar(q[0]) && IsAlphabetChar(q[1]) && IsAlphabetChar(q[2]) && IsAlphabetChar(q[3]) then
      var c0, c1, c2, c3 := SextetValue(q[0]), SextetValue(q[1]), SextetValue(q[2]), SextetValue(q[3]);
      Some([c0 * 4 + c1 / 16, (c1 % 16) * 16 + c2 / 4, (c2 % 4) * 64 + c3])
    else if last && IsAlphabetChar(q[0]) && IsAlphabetChar(q[1]) && IsAlphabetChar(q[2]) && q[3] == '='
      && SextetValue(q[2]) % 4 == 0 then
      var c0, c1, c2 := SextetValue(q[0]), SextetValue(q[1]), SextetValue(q[2]);
      Some([c0 * 4 + c1 / 16, (c1 % 16) * 16 + c2 / 4])
    else if last && IsAlphabetChar(q[0]) && IsAlphabetChar(q[1]) && q[2] == '=' && q[3] == '='
      && SextetValue(q[1]) % 16 == 0 then
      var c0, c1 := SextetValue(q[0]), SextetValue(q[1]);
      Some([c0 * 4 + c1 / 16])
    else
      None
  }

  /** Decodes a whole base64 text; `None` when it is not a canonical encoding. */
  function Decode(s: string): Option<seq<byte>>
    decreases |s|
  {
    if |s| == 0 then Some([])
    else if |s| < 4 then None
    else
      var head :- DecodeQuad(s[..4], |s| == 4);
      var tail :- Decode(s[4..]);
      Some(head + tail)
  }

  /** The bit arithmetic behind a full group, on plain integers. */
  lemma SplitBytes(b0: byte, b1: byte, b2: byte)
    ensures (b0 / 4) * 4 + ((b0 % 4) * 16 + b1 / 16) / 16 == b0
    ensures (((b0 % 4) * 16 + b1 / 16) % 16) * 16 + ((b1 % 16) * 4 + b2 / 64) / 4 == b1
    ensures (((b1 % 16) * 4 + b2 / 64) % 4) * 64 + b2 % 64 == b2
  {
  }

  lemma JoinSextets(c0: int, c1: int, c2: int, c3: int)
    requires 0 <= c0 < 64 && 0 <= c1 < 64 && 0 <= c2 < 64 && 0 <= c3 < 64
    ensures var b0, b1, b2 := c0 * 4 + c1 / 16, (c1 % 16) * 16 + c2 / 4, (c2 % 4) * 64 + c3;
      && 0 <= b0 < 256 && 0 <= b1 < 256 && 0 <= b2 < 256
      && b0 / 4 == c0 && (b0 % 4) * 16 + b1 / 16 == c1
      && (b1 % 16) * 4 + b2 / 64 == c2 && b2 % 64 == c3
  {
  }

  lemma TripleRoundTrip(b0: byte, b1: byte, b2: byte)
    ensures DecodeQuad(EncodeTriple(b0, b1, b2), false) == Some([b0, b1, b2])
    ensures DecodeQuad(EncodeTriple(b0, b1, b2), true) == Some([b0, b1, b2])
  {
    SextetRoundTrip(b0 / 4);
    SextetRoundTrip((b0 % 4) * 16 + b1 / 16);
    SextetRoundTrip((b1 % 16) * 4 + b2 / 64);
    SextetRoundTrip(b2 % 64);
    SplitBytes(b0, b1, b2);
  }

  lemma PairRoundTrip(b0: byte, b1: byte)
    ensures DecodeQuad(Encode([b0, b1]), true) == Some([b0, b1])
  {
    SextetRoundTrip(b0 / 4);
    SextetRoundTrip((b0 % 4) * 16 + b1 / 16);
    SextetRoundTrip((b1 % 16) * 4);
    SplitBytes(b0, b1, 0);
  }

  lemma SingleRoundTrip(b0: byte)
    ensures DecodeQuad(Encode([b0]), true) == Some([b0])
  {
    SextetRoundTrip(b0 / 4);
    SextetRoundTrip((b0 % 4) * 16);
    SplitBytes(b0, 0, 0);
  }

  /** The encoding has four characters for every started group of three bytes. */
  lemma {:induction false} EncodeLength(bytes: seq<byte>)
    ensures |Encode(bytes)| == 4 * ((|bytes| + 2) / 3)
    decreases |bytes|
  {
    if |bytes| >= 3 {
      EncodeLength(bytes[3..]);
    }
  }

  /** A four-character text is decoded as a final group. */
  lemma DecodeSingleQuad(s: string)
    requires |s| == 4
    ensures Decode(s) == DecodeQuad(s, true)
  {
    assert s[..4] == s;
    assert Decode(s[4..]) == Some([]);
    if DecodeQuad(s, true).Some? {
      var h := DecodeQuad(s, true).value;
      assert h + [] == h;
    }
  }

  /** A longer text is decoded as a non-final group followed by the rest. */
  lemma DecodeLongText(s: string)
    requires |s| > 4
    ensures Decode(s) == match DecodeQuad(s[..4], false)
      case None => None
      case Some(h) => match Decode(s[4..])
        case None => None
        case Some(t) => Some(h + t)
  {
  }

  lemma EncodeLong(bytes: seq<byte>)
    requires |bytes| >= 3
    ensures |Encode(bytes)| >= 4
    ensures Encode(bytes)[..4] == EncodeTriple(bytes[0], bytes[1], bytes[2])
    ensures Encode(bytes)[4..] == Encode(bytes[3..])
  {
  }

  lemma DecodeEncodeShort(bytes: seq<byte>)
    requires 1 <= |bytes| <= 2
    ensures Decode(Encode(bytes)) == Some(bytes)
  {
    if |bytes| == 1 {
      var b0 := bytes[0];
      assert bytes == [b0];
      SingleRoundTrip(b0);
      DecodeSingleQuad(Encode([b0]));
    } else {
      var b0, b1 := bytes[0], bytes[1];
      assert bytes == [b0, b1];
      PairRoundTrip(b0, b1);
      DecodeSingleQuad(Encode([b0, b1]));
    }
  }

  /** A group that decodes in any position, followed by a decodable text. */
  lemma DecodeConcat(q: string, t: string, h: seq<byte>, r: seq<byte>)
    requires |q| == 4
    requires DecodeQuad(q, false) == Some(h) && DecodeQuad(q, true) == Some(h)
    requires Decode(t) == Some(r)
    ensures Decode(q + t) == Some(h + r)
  {
    var s := q + t;
    assert s[..4] == q;
    assert s[4..] == t;
    if |t| == 0 {
      assert s == q;
      DecodeSingleQuad(s);
      assert r == [];
      assert h + r == h;
    } else {
      DecodeLongText(s);
    }
  }

  lemma EncodeCons(b0: byte, b1: byte, b2: byte, rest: seq<byte>)
    ensures Encode([b0, b1, b2] + rest) == EncodeTriple(b0, b1, b2) + Encode(rest)
  {
    var bytes := [b0, b1, b2] + rest;
    assert bytes[3..] == rest;
  }

  lemma DecodeEncodeStep(b0: byte, b1: byte, b2: byte, rest: seq<byte>)
    requires Decode(Encode(rest)) == Some(rest)
    ensures Decode(Encode([b0, b1, b2] + rest)) == Some([b0, b1, b2] + rest)
  {
    EncodeCons(b0, b1, b2, rest);
    TripleRoundTrip(b0, b1, b2);
    DecodeConcat(EncodeTriple(b0, b1, b2), Encode(rest), [b0, b1, b2], rest);
  }

  /** Decoding an encoding gives back the bytes. */
  lemma {:induction false} DecodeEncode(bytes: seq<byte>)
    ensures Decode(Encode(bytes)) == Some(bytes)
    decreases |bytes|
  {
    if |bytes| == 0 {
      assert Encode(bytes) == "";
    } else if |bytes| <= 2 {
      DecodeEncodeShort(bytes);
    } else {
      var b0, b1, b2, rest := bytes[0], bytes[1], bytes[2], bytes[3..];
      assert bytes == [b0, b1, b2] + rest;
      DecodeEncode(rest);
      DecodeEncodeStep(b0, b1, b2, rest);
    }
  }

  /** A group of three bytes whose sextets are known encodes to their
      characters. */
  lemma EncodeTripleSextets(b0: byte, b1: byte, b2: byte, c0: int, c1: int, c2: int, c3: int)
    requires 0 <= c0 < 64 && 0 <= c1 < 64 && 0 <= c2 < 64 && 0 <= c3 < 64
    requires b0 / 4 == c0 && (b0 % 4) * 16 + b1 / 16 == c1
    requires (b1 % 16) * 4 + b2 / 64 == c2 && b2 % 64 == c3
    ensures EncodeTriple(b0, b1, b2) == [SextetChar(c0), SextetChar(c1), SextetChar(c2), SextetChar(c3)]
  {
  }

  /** Four alphabet characters are the characters of their sextets. */
  lemma CharsOfSextets(q: string)
    requires |q| == 4
    requires IsAlphabetChar(q[0]) && IsAlphabetChar(q[1]) && IsAlphabetChar(q[2]) && IsAlphabetChar(q[3])
    ensures q == [SextetChar(SextetValue(q[0])), SextetChar(SextetValue(q[1])),
                  SextetChar(SextetValue(q[2])), SextetChar(SextetValue(q[3]))]
  {
  }

  lemma FullQuadInverse(q: string)
    requires |q| == 4
    requires IsAlphabetChar(q[0]) && IsAlphabetChar(q[1]) && IsAlphabetChar(q[2]) && IsAlphabetChar(q[3])
    ensures DecodeQuad(q, false).Some?
    ensures var b := DecodeQuad(q, false).value;
      |b| == 3 && EncodeTriple(b[0], b[1], b[2]) == q
  {
    var c0, c1, c2, c3 := SextetValue(q[0]), SextetValue(q[1]), SextetValue(q[2]), SextetValue(q[3]);
    JoinSextets(c0, c1, c2, c3);
    var b0: byte, b1: byte, b2: byte := c0 * 4 + c1 / 16, (c1 % 16) * 16 + c2 / 4, (c2 % 4) * 64 + c3;
    assert DecodeQuad(q, false) == Some([b0, b1, b2]);
    EncodeTripleSextets(b0, b1, b2, c0, c1, c2, c3);
    CharsOfSextets(q);
  }

  /** Two bytes whose sextets are known encode to their characters and one
      pad. */
  lemma EncodePairSextets(b0: byte, b1: byte, c0: int, c1: int, c2: int)
    requires 0 <= c0 < 64 && 0 <= c1 < 64 && 0 <= c2 < 64
    requires b0 / 4 == c0 && (b0 % 4) * 16 + b1 / 16 == c1 && (b1 % 16) * 4 == c2
    ensures Encode([b0, b1]) == [SextetChar(c0), SextetChar(c1), SextetChar(c2), '=']
  {
  }

  lemma TwoByteQuadInverse(q: string)
    requires |q| == 4
    requires IsAlphabetChar(q[0]) && IsAlphabetChar(q[1]) && IsAlphabetChar(q[2]) && q[3] == '='
    requires SextetValue(q[2]) % 4 == 0
    ensures DecodeQuad(q, true).Some?
    ensures var b := DecodeQuad(q, true).value;
      |b| == 2 && Encode(b) == q
  {
    var c0, c1, c2 := SextetValue(q[0]), SextetValue(q[1]), SextetValue(q[2]);
    JoinSextets(c0, c1, c2, 0);
    var b0: byte, b1: byte := c0 * 4 + c1 / 16, (c1 % 16) * 16 + c2 / 4;
    assert DecodeQuad(q, true) == Some([b0, b1]);
    assert (b1 % 16) * 4 == c2;
    EncodePairSextets(b0, b1, c0, c1, c2);
    assert q == [SextetChar(c0), SextetChar(c1), SextetChar(c2), '='];
  }

  lemma OneByteQuadInverse(q: string)
    requires |q| == 4
    requires IsAlphabetChar(q[0]) && IsAlphabetChar(q[1]) && q[2] == '=' && q[3] == '='
    requires SextetValue(q[1]) % 16 == 0
    ensures DecodeQuad(q, true).Some?
    ensures var b := DecodeQuad(q, true).value;
      |b| == 1 && Encode(b) == q
  {
    var c0, c1 := SextetValue(q[0]), SextetValue(q[1]);
    JoinSextets(c0, c1, 0, 0);
    var b0: byte := c0 * 4 + c1 / 16;
    assert DecodeQuad(q, true) == Some([b0]);
    assert (b0 % 4) * 16 == c1;
    var e := Encode([b0]);
    assert e[0] == SextetChar(c0) == q[0];
    assert e[1] == SextetChar(c1) == q[1];
  }

  lemma QuadInverse(q: string, last: bool, b: seq<byte>)
    requires |q| == 4
    requires DecodeQuad(q, last) == Some(b)
    ensures 1 <= |b| <= 3
    ensures |b| < 3 ==> last
    ensures |b| == 3 ==> EncodeTriple(b[0], b[1], b[2]) == q
    ensures |b| < 3 ==> Encode(b) == q
  {
    if IsAlphabetChar(q[0]) && IsAlphabetChar(q[1]) && IsAlphabetChar(q[2]) && IsAlphabetChar(q[3]) {
      FullQuadInverse(q);
    } else if last && IsAlphabetChar(q[0]) && IsAlphabetChar(q[1]) && IsAlphabetChar(q[2]) && q[3] == '='
      && SextetValue(q[2]) % 4 == 0 {
      TwoByteQuadInverse(q);
    } else {
      OneByteQuadInverse(q);
    }
  }

  /** Every text that decodes is the encoding of what it decodes to: the
      decoder accepts exactly the encoder's outputs. */
  lemma {:induction false} EncodeDecode(s: string, bytes: seq<byte>)
    requires Decode(s) == Some(bytes)
    ensures Encode(bytes) == s
    decreases |s|
  {
    if |s| > 0 {
      var head := DecodeQuad(s[..4], |s| == 4).value;
      var tail := Decode(s[4..]).value;
      QuadInverse(s[..4], |s| == 4, head);
      EncodeDecode(s[4..], tail);
      assert bytes == head + tail;
      if |head| == 3 {
        assert bytes[3..] == tail;
        assert s == s[..4] + s[4..];
      } else {
        assert |s| == 4;
        assert tail == [];
        assert bytes == head;
      }
    }
  }
}
