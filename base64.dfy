/**
 * Base 64 encoding as section 4 of RFC 4648 defines it (PHP's
 * `base64_encode`): every 3 input bytes become 4 characters of the
 * 64-character alphabet, and a final group of 1 or 2 bytes is padded with
 * '='. The decoder is the encoder's partner: it reads any encoding back.
 */
module Base64 {
  import opened Wrappers

  newtype byte = x: int | 0 <= x < 256

  /** A 6-bit value: the index of one alphabet character. */
  type Sextet = x: int | 0 <= x < 64

  /** The alphabet of RFC 4648, section 4, Table 1: A-Z, a-z, 0-9, '+', '/'. */
  function CharOf(v: Sextet): char
  {
    if v < 26 then (65 + v) as char
    else if v < 52 then (97 + v - 26) as char
    else if v < 62 then (48 + v - 52) as char
    else if v == 62 then '+'
    else '/'
  }

  /** The index of an alphabet character; None for anything else. */
  function ValueOf(c: char): Option<Sextet>
  {
    if 'A' <= c <= 'Z' then Some(c as int - 65)
    else if 'a' <= c <= 'z' then Some(c as int - 97 + 26)
    else if '0' <= c <= '9' then Some(c as int - 48 + 52)
    else if c == '+' then Some(62)
    else if c == '/' then Some(63)
    else None
  }

  /** A character that may appear in an encoding: the alphabet or '='. */
  predicate IsEncodingChar(c: char)
  {
    ValueOf(c).Some? || c == '='
  }

  lemma ValueOfCharOf(v: Sextet)
    ensures ValueOf(CharOf(v)) == Some(v) && CharOf(v) != '='
  {
  }

  /** Three bytes as four characters. */
  function EncodeGroup(b0: byte, b1: byte, b2: byte): (s: string)
    ensures |s| == 4 && forall i :: 0 <= i < |s| ==> IsEncodingChar(s[i])
  {
    [CharOf(b0 as int / 4),
     CharOf((b0 as int % 4) * 16 + b1 as int / 16),
     CharOf((b1 as int % 16) * 4 + b2 as int / 64),
     CharOf(b2 as int % 64)]
  }

  /** A final group of two bytes: three characters and one '='. */
  function EncodePair(b0: byte, b1: byte): (s: string)
    ensures |s| == 4 && forall i :: 0 <= i < |s| ==> IsEncodingChar(s[i])
  {
    [CharOf(b0 as int / 4),
     CharOf((b0 as int % 4) * 16 + b1 as int / 16),
     CharOf((b1 as int % 16) * 4),
     '=']
  }

  /** A final group of one byte: two characters and "==". */
  function EncodeSingle(b0: byte): (s: string)
    ensures |s| == 4 && forall i :: 0 <= i < |s| ==> IsEncodingChar(s[i])
  {
    [CharOf(b0 as int / 4), CharOf((b0 as int % 4) * 16), '=', '=']
  }

  /** `base64_encode`: four characters per started group of three bytes,
      every one of them from the alphabet or the pad character. */
  function Encode(data: seq<byte>): (s: string)
    ensures |s| == (|data| + 2) / 3 * 4
    ensures forall i :: 0 <= i < |s| ==> IsEncodingChar(s[i])
    decreases |data|
  {
    if |data| == 0 then ""
    else if |data| == 1 then EncodeSingle(data[0])
    else if |data| == 2 then EncodePair(data[0], data[1])
    else
      var g := EncodeGroup(data[0], data[1], data[2]);
      var rest := Encode(data[3..]);
      EncodingCharsConcat(g, rest);
      GroupLength(|data|);
      g + rest
  }

  /** One more full group adds four characters. */
  lemma GroupLength(n: nat)
    requires n >= 3
    ensures 4 + (n - 3 + 2) / 3 * 4 == (n + 2) / 3 * 4
  {
  }

  /** Joining two strings of encoding characters gives one. */
  lemma EncodingCharsConcat(a: string, b: string)
    requires forall i :: 0 <= i < |a| ==> IsEncodingChar(a[i])
    requires forall i :: 0 <= i < |b| ==> IsEncodingChar(b[i])
    ensures forall i :: 0 <= i < |a + b| ==> IsEncodingChar((a + b)[i])
  {
  }

  /** The test vectors of section 10 of RFC 4648, and one that uses the
      last two alphabet characters: they fix the alphabet order, the bit
      layout and the padding. */
  lemma EncodeTestVectors()
    ensures Encode([102]) == "Zg=="
    ensures Encode([102, 111]) == "Zm8="
    ensures Encode([102, 111, 111]) == "Zm9v"
    ensures Encode([102, 111, 111, 98, 97, 114]) == "Zm9vYmFy"
    ensures Encode([255, 254, 253]) == "//79"
  {
    PaddedVectors();
    GroupVector(102, 111, 111, "Zm9v");
    GroupVector(98, 97, 114, "YmFy");
    GroupVector(255, 254, 253, "//79");
    var foobar: seq<byte> := [102, 111, 111, 98, 97, 114];
    assert foobar[3..] == [98, 97, 114];
  }

  /** The one- and two-byte vectors, which end in padding. */
  lemma PaddedVectors()
    ensures Encode([102]) == "Zg=="
    ensures Encode([102, 111]) == "Zm8="
  {
  }

  /** One full group: the four characters of three bytes, checked one by one. */
  lemma GroupVector(b0: byte, b1: byte, b2: byte, expected: string)
    requires |expected| == 4
    requires expected[0] == CharOf(b0 as int / 4)
    requires expected[1] == CharOf((b0 as int % 4) * 16 + b1 as int / 16)
    requires expected[2] == CharOf((b1 as int % 16) * 4 + b2 as int / 64)
    requires expected[3] == CharOf(b2 as int % 64)
    ensures Encode([b0, b1, b2]) == expected
  {
    var data: seq<byte> := [b0, b1, b2];
    assert data[3..] == [];
  }


  /** Four characters back to one, two or three bytes; padding decides how
      many. None when a character is outside the alphabet. */
  function DecodeQuad(q: string): (r: Option<seq<byte>>)
    requires |q| == 4
  {
    var v0 := ValueOf(q[0]);
    var v1 := ValueOf(q[1]);
    var v2 := ValueOf(q[2]);
    var v3 := ValueOf(q[3]);
    if v0.None? || v1.None? then None
    else if q[2] == '=' && q[3] == '=' then
      Some([(v0.value * 4 + v1.value / 16) as byte])
    else if v2.None? then None
    else if q[3] == '=' then
      Some([(v0.value * 4 + v1.value / 16) as byte,
            ((v1.value % 16) * 16 + v2.value / 4) as byte])
    else if v3.None? then None
    else
      Some([(v0.value * 4 + v1.value / 16) as byte,
            ((v1.value % 16) * 16 + v2.value / 4) as byte,
            ((v2.value % 4) * 64 + v3.value) as byte])
  }

  /** Decoding: groups of four characters, padding only in the last group. */
  function Decode(s: string): (r: Option<seq<byte>>)
    decreases |s|
  {
    if s == [] then Some([])
    else if |s| < 4 then None
    else
      var q := DecodeQuad(s[..4]);
      if q.None? then None
      else if |s| == 4 then q
      else if |q.value| != 3 then None
      else
        var rest := Decode(s[4..]);
        if rest.None? then None else Some(q.value + rest.value)
  }

  lemma GroupRoundTrip(b0: byte, b1: byte, b2: byte)
    ensures DecodeQuad(EncodeGroup(b0, b1, b2)) == Some([b0, b1, b2])
  {
    var c1 := (b0 as int % 4) * 16 + b1 as int / 16;
    var c2 := (b1 as int % 16) * 4 + b2 as int / 64;
    ValueOfCharOf(b0 as int / 4);
    ValueOfCharOf(c1);
    ValueOfCharOf(c2);
    ValueOfCharOf(b2 as int % 64);
    assert c1 / 16 == b0 as int % 4 && c1 % 16 == b1 as int / 16;
    assert c2 / 4 == b1 as int % 16 && c2 % 4 == b2 as int / 64;
  }

  lemma PairRoundTrip(b0: byte, b1: byte)
    ensures DecodeQuad(EncodePair(b0, b1)) == Some([b0, b1])
  {
    var c1 := (b0 as int % 4) * 16 + b1 as int / 16;
    var c2 := (b1 as int % 16) * 4;
    ValueOfCharOf(b0 as int / 4);
    ValueOfCharOf(c1);
    ValueOfCharOf(c2);
    assert c1 / 16 == b0 as int % 4 && c1 % 16 == b1 as int / 16;
    assert c2 / 4 == b1 as int % 16;
  }

  lemma SingleRoundTrip(b0: byte)
    ensures DecodeQuad(EncodeSingle(b0)) == Some([b0])
  {
    ValueOfCharOf(b0 as int / 4);
    ValueOfCharOf((b0 as int % 4) * 16);
  }

  /** A full group followed by a decodable rest decodes to both, in order. */
  lemma DecodeGroupThenRest(g: string, rest: string, group: seq<byte>, tail: seq<byte>)
    requires |g| == 4 && DecodeQuad(g) == Some(group) && |group| == 3
    requires Decode(rest) == Some(tail)
    ensures Decode(g + rest) == Some(group + tail)
  {
    var s := g + rest;
    assert s[..4] == g;
    if rest == [] {
      assert s == g && tail == [] && group + tail == group;
    } else {
      assert s[4..] == rest;
    }
  }

  /** A lone group of four characters decodes as that group. */
  lemma DecodeLastGroup(g: string)
    requires |g| == 4
    ensures Decode(g) == DecodeQuad(g)
  {
    assert g[..4] == g;
  }

  /** Decoding an encoding gives back the bytes. */
  lemma {:induction false} DecodeEncode(data: seq<byte>)
    ensures Decode(Encode(data)) == Some(data)
    decreases |data|
  {
    if |data| == 1 {
      DecodeEncodeSingle(data);
    } else if |data| == 2 {
      DecodeEncodePair(data);
    } else if |data| >= 3 {
      DecodeEncode(data[3..]);
      DecodeEncodeGroupThen(data[..3], data[3..]);
      assert data[..3] + data[3..] == data;
    }
  }

  /** The round trip of one byte, which encodes with two '='. */
  lemma DecodeEncodeSingle(data: seq<byte>)
    requires |data| == 1
    ensures Decode(Encode(data)) == Some(data)
  {
    SingleRoundTrip(data[0]);
    DecodeLastGroup(EncodeSingle(data[0]));
    assert [data[0]] == data;
  }

  /** The round trip of two bytes, which encode with one '='. */
  lemma DecodeEncodePair(data: seq<byte>)
    requires |data| == 2
    ensures Decode(Encode(data)) == Some(data)
  {
    PairRoundTrip(data[0], data[1]);
    DecodeLastGroup(EncodePair(data[0], data[1]));
    assert [data[0], data[1]] == data;
  }

  /** A full group in front of bytes whose round trip holds keeps it. */
  lemma DecodeEncodeGroupThen(head: seq<byte>, tail: seq<byte>)
    requires |head| == 3
    requires Decode(Encode(tail)) == Some(tail)
    ensures Decode(Encode(head + tail)) == Some(head + tail)
  {
    EncodeGroupThen(head, tail);
    GroupRoundTrip(head[0], head[1], head[2]);
    DecodeGroupThenRest(EncodeGroup(head[0], head[1], head[2]), Encode(tail), head, tail);
  }

  /** The encoding of a full group followed by more bytes. */
  lemma EncodeGroupThen(head: seq<byte>, tail: seq<byte>)
    requires |head| == 3
    ensures Encode(head + tail) == EncodeGroup(head[0], head[1], head[2]) + Encode(tail)
    ensures head == [head[0], head[1], head[2]]
  {
    var data := head + tail;
    assert data[3..] == tail;
  }

  /** Different byte sequences never share an encoding. */
  lemma EncodeInjective(a: seq<byte>, b: seq<byte>)
    requires Encode(a) == Encode(b)
    ensures a == b
  {
    DecodeEncode(a);
    DecodeEncode(b);
  }
}
