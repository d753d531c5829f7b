/** Base64 with the URL and filename safe alphabet and no padding
    (section 5 of RFC 4648), as `base64.RawURLEncoding` encodes it. The
    decoder is the encoder's partner: it accepts exactly the canonical
    encodings (section 3.5 of RFC 4648), so a string decodes to some bytes
    if and only if it is their encoding. */
module Base64Url {
  import opened Wrappers

  type Byte = x: int | 0 <= x < 256

  /** A 6-bit value. */
  type Sextet = x: int | 0 <= x < 64

  /** The characters of the alphabet. */
  predicate IsUrlSafe(c: char)
  {
    ('A' <= c <= 'Z') || ('a' <= c <= 'z') || ('0' <= c <= '9') || c == '-' || c == '_'
  }

  /** The character encoding a 6-bit value: `A`-`Z`, `a`-`z`, `0`-`9`, `-`, `_`. */
  function Digit(v: Sextet): (c: char)
    ensures IsUrlSafe(c)
  {
    if v < 26 then ('A' as int + v) as char
    else if v < 52 then ('a' as int + (v - 26)) as char
    else if v < 62 then ('0' as int + (v - 52)) as char
    else if v == 62 then '-'
    else '_'
  }

  /** The 6-bit value of an alphabet character. */
  function ValueOf(c: char): (v: Sextet)
    requires IsUrlSafe(c)
    ensures Digit(v) == c
  {
    if 'A' <= c <= 'Z' then c as int - 'A' as int
    else if 'a' <= c <= 'z' then c as int - 'a' as int + 26
    else if '0' <= c <= '9' then c as int - '0' as int + 52
    else if c == '-' then 62
    else 63
  }

  /** Distinct values have distinct characters. */
  lemma ValueOfDigit(v: Sextet)
    ensures ValueOf(Digit(v)) == v
  {
  }

  /** Reading back the characters of a group gives its values. */
  lemma ValuesOfGroup(b0: Byte, b1: Byte, b2: Byte)
    ensures var q := EncodeGroup(b0, b1, b2);
      Octets(ValueOf(q[0]), ValueOf(q[1]), ValueOf(q[2]), ValueOf(q[3])) == [b0, b1, b2]
  {
    ValueOfDigit(b0 / 4);
    ValueOfDigit(b0 % 4 * 16 + b1 / 16);
    ValueOfDigit(b1 % 16 * 4 + b2 / 64);
    ValueOfDigit(b2 % 64);
    OctetsOfGroup(b0, b1, b2);
  }

  /** Every character of `s` is in the alphabet. */
  predicate AllUrlSafe(s: string)
  {
    forall i :: 0 <= i < |s| ==> IsUrlSafe(s[i])
  }

  /** Four characters per three bytes; a final group of one or two bytes
      gives two or three characters, with no `=` padding. */
  function EncodedLength(n: nat): nat
  {
    4 * (n / 3) + (if n % 3 == 0 then 0 else n % 3 + 1)
  }

  /** The four characters of a group of three bytes: each character
      carries six bits, most significant first. */
  function EncodeGroup(b0: Byte, b1: Byte, b2: Byte): (q: string)
    ensures |q| == 4 && AllUrlSafe(q)
  {
    [Digit(b0 / 4), Digit(b0 % 4 * 16 + b1 / 16), Digit(b1 % 16 * 4 + b2 / 64), Digit(b2 % 64)]
  }

  /** The three bytes carried by four 6-bit values. */
  function Octets(v0: Sextet, v1: Sextet, v2: Sextet, v3: Sextet): seq<Byte>
  {
    [v0 * 4 + v1 / 16, v1 % 16 * 16 + v2 / 4, v2 % 4 * 64 + v3]
  }

  /** Encoding: whole groups of three bytes, then a final group of one or
      two bytes that gives two or three characters (its missing bits read
      as zero). */
  function Encode(b: seq<Byte>): (s: string)
    ensures |s| == EncodedLength(|b|)
    ensures AllUrlSafe(s)
    decreases |b|
  {
    if |b| == 0 then ""
    else if |b| == 1 then EncodeGroup(b[0], 0, 0)[..2]
    else if |b| == 2 then EncodeGroup(b[0], b[1], 0)[..3]
    else EncodeGroup(b[0], b[1], b[2]) + Encode(b[3..])
  }

  /** `head` in front of a decoded rest; a failure stays a failure. */
  function Prepend(head: seq<Byte>, rest: Option<seq<Byte>>): Option<seq<Byte>>
  {
    match rest
    case None => None
    case Some(bs) => Some(head + bs)
  }

  /** Decoding: a lone final character, a character outside the alphabet,
      or a final group whose bits below its last whole byte are not zero
      is an error. */
  function Decode(s: string): (r: Option<seq<Byte>>)
    decreases |s|
  {
    if |s| == 0 then Some([])
    else if |s| == 1 || !IsUrlSafe(s[0]) || !IsUrlSafe(s[1]) then None
    else if |s| == 2 then
      if ValueOf(s[1]) % 16 != 0 then None
      else Some(Octets(ValueOf(s[0]), ValueOf(s[1]), 0, 0)[..1])
    else if !IsUrlSafe(s[2]) then None
    else if |s| == 3 then
      if ValueOf(s[2]) % 4 != 0 then None
      else Some(Octets(ValueOf(s[0]), ValueOf(s[1]), ValueOf(s[2]), 0)[..2])
    else if !IsUrlSafe(s[3]) then None
    else Prepend(Octets(ValueOf(s[0]), ValueOf(s[1]), ValueOf(s[2]), ValueOf(s[3])), Decode(s[4..]))
  }

  /** The bit arithmetic of one group undoes itself. */
  lemma OctetsOfGroup(b0: Byte, b1: Byte, b2: Byte)
    ensures Octets(b0 / 4, b0 % 4 * 16 + b1 / 16, b1 % 16 * 4 + b2 / 64, b2 % 64) == [b0, b1, b2]
  {
  }

  /** A final group of one byte decodes back. */
  lemma OneByteRoundTrip(b: seq<Byte>)
    requires |b| == 1
    ensures Decode(Encode(b)) == Some(b)
  {
    var q := EncodeGroup(b[0], 0, 0);
    ValuesOfGroup(b[0], 0, 0);
    var s := q[..2];
    assert Encode(b) == s;
    assert s[0] == q[0] && s[1] == q[1];
    ValueOfDigit(b[0] % 4 * 16);
    var v0, v1 := ValueOf(q[0]), ValueOf(q[1]);
    assert Decode(s) == Some(Octets(v0, v1, 0, 0)[..1]);
    assert Octets(v0, v1, 0, 0)[0] == Octets(v0, v1, ValueOf(q[2]), ValueOf(q[3]))[0] == b[0];
    assert Octets(v0, v1, 0, 0)[..1] == [b[0]] == b;
  }

  /** A final group of two bytes decodes back. */
  lemma TwoBytesRoundTrip(b: seq<Byte>)
    requires |b| == 2
    ensures Decode(Encode(b)) == Some(b)
  {
    var q := EncodeGroup(b[0], b[1], 0);
    ValuesOfGroup(b[0], b[1], 0);
    var s := q[..3];
    assert Encode(b) == s;
    assert s[0] == q[0] && s[1] == q[1] && s[2] == q[2];
    ValueOfDigit(b[1] % 16 * 4);
    var v0, v1, v2 := ValueOf(q[0]), ValueOf(q[1]), ValueOf(q[2]);
    assert Decode(s) == Some(Octets(v0, v1, v2, 0)[..2]);
    var full := Octets(v0, v1, v2, ValueOf(q[3]));
    assert full == [b[0], b[1], 0];
    assert Octets(v0, v1, v2, 0)[..2] == full[..2] == [b[0], b[1]] == b;
  }

  /** Decoding a group of four alphabet characters followed by more text. */
  lemma DecodeCons(q: string, t: string)
    requires |q| == 4 && AllUrlSafe(q)
    ensures Decode(q + t) == Prepend(Octets(ValueOf(q[0]), ValueOf(q[1]), ValueOf(q[2]), ValueOf(q[3])), Decode(t))
  {
    var s := q + t;
    assert s[0] == q[0] && s[1] == q[1] && s[2] == q[2] && s[3] == q[3];
    assert s[4..] == t;
  }

  lemma FirstThree(b: seq<Byte>)
    requires |b| >= 3
    ensures b[..3] == [b[0], b[1], b[2]]
  {
  }

  /** A full leading group decodes back, in front of whatever the rest decodes to. */
  lemma LeadingGroupRoundTrip(b: seq<Byte>)
    requires |b| >= 3
    ensures Decode(Encode(b)) == Prepend(b[..3], Decode(Encode(b[3..])))
  {
    FirstThree(b);
    var q := EncodeGroup(b[0], b[1], b[2]);
    assert Encode(b) == q + Encode(b[3..]);
    DecodeCons(q, Encode(b[3..]));
    ValuesOfGroup(b[0], b[1], b[2]);
  }

  /** Decoding an encoding gives back the bytes. */
  lemma {:induction false} RoundTrip(b: seq<Byte>)
    ensures Decode(Encode(b)) == Some(b)
    decreases |b|
  {
    if |b| == 0 {
    } else if |b| < 3 {
      if |b| == 1 { OneByteRoundTrip(b); } else { TwoBytesRoundTrip(b); }
    } else {
      LeadingGroupRoundTrip(b);
      RoundTrip(b[3..]);
      assert b == b[..3] + b[3..];
    }
  }

  /** Distinct byte strings have distinct encodings. */
  lemma EncodeInjective(a: seq<Byte>, b: seq<Byte>)
    requires Encode(a) == Encode(b)
    ensures a == b
  {
    RoundTrip(a);
    RoundTrip(b);
  }

  /** The bytes of four 6-bit values, split again into 6-bit values,
      give the values back. */
  lemma SextetsOfOctets(v0: Sextet, v1: Sextet, v2: Sextet, v3: Sextet)
    ensures var o := Octets(v0, v1, v2, v3);
            o[0] / 4 == v0 && o[0] % 4 * 16 + o[1] / 16 == v1
            && o[1] % 16 * 4 + o[2] / 64 == v2 && o[2] % 64 == v3
  {
  }

  /** A group of four alphabet characters is the encoding of the bytes it
      decodes to. */
  lemma GroupCanonical(q: string)
    requires |q| == 4 && AllUrlSafe(q)
    ensures var o := Octets(ValueOf(q[0]), ValueOf(q[1]), ValueOf(q[2]), ValueOf(q[3]));
            EncodeGroup(o[0], o[1], o[2]) == q
  {
    SextetsOfOctets(ValueOf(q[0]), ValueOf(q[1]), ValueOf(q[2]), ValueOf(q[3]));
  }

  /** Two characters whose second carries no bits below the first byte are
      the encoding of the byte they decode to. */
  lemma OneByteCanonical(s: string, b: seq<Byte>)
    requires |s| == 2 && Decode(s) == Some(b)
    ensures s == Encode(b)
  {
    var v0, v1 := ValueOf(s[0]), ValueOf(s[1]);
    SextetsOfOctets(v0, v1, 0, 0);
    var o := Octets(v0, v1, 0, 0);
    assert b == [o[0]];
    assert o[0] % 4 * 16 == v1;
    var q := EncodeGroup(o[0], 0, 0);
    assert q[0] == s[0] && q[1] == s[1];
    assert Encode(b) == q[..2];
  }

  /** Three characters whose third carries no bits below the second byte
      are the encoding of the two bytes they decode to. */
  lemma TwoBytesCanonical(s: string, b: seq<Byte>)
    requires |s| == 3 && Decode(s) == Some(b)
    ensures s == Encode(b)
  {
    var v0, v1, v2 := ValueOf(s[0]), ValueOf(s[1]), ValueOf(s[2]);
    SextetsOfOctets(v0, v1, v2, 0);
    var o := Octets(v0, v1, v2, 0);
    assert b == [o[0], o[1]];
    assert o[1] % 16 * 4 == v2;
    var q := EncodeGroup(o[0], o[1], 0);
    assert q[0] == s[0] && q[1] == s[1] && q[2] == s[2];
    assert Encode(b) == q[..3];
  }

  /** The decoder accepts only canonical encodings: a string that decodes
      to some bytes is their encoding. */
  lemma {:induction false} DecodeCanonical(s: string, b: seq<Byte>)
    requires Decode(s) == Some(b)
    ensures s == Encode(b)
    decreases |s|
  {
    if |s| == 2 {
      OneByteCanonical(s, b);
    } else if |s| == 3 {
      TwoBytesCanonical(s, b);
    } else if |s| >= 4 {
      var q, t := s[..4], s[4..];
      assert s == q + t;
      assert q[0] == s[0] && q[1] == s[1] && q[2] == s[2] && q[3] == s[3];
      var o := Octets(ValueOf(q[0]), ValueOf(q[1]), ValueOf(q[2]), ValueOf(q[3]));
      DecodeCons(q, t);
      var rest := Decode(t).value;
      assert b == o + rest;
      DecodeCanonical(t, rest);
      GroupCanonical(q);
      EncodeAfterGroup(b, o, rest);
    }
  }

  /** Encoding three bytes followed by more. */
  lemma EncodeAfterGroup(b: seq<Byte>, o: seq<Byte>, rest: seq<Byte>)
    requires |o| == 3 && b == o + rest
    ensures Encode(b) == EncodeGroup(o[0], o[1], o[2]) + Encode(rest)
  {
    assert b[0] == o[0] && b[1] == o[1] && b[2] == o[2];
    assert b[3..] == rest;
  }

  /** A string decodes to some bytes exactly when it is their encoding. */
  lemma DecodeIffEncode(s: string, b: seq<Byte>)
    ensures Decode(s) == Some(b) <==> s == Encode(b)
  {
    if Decode(s) == Some(b) {
      DecodeCanonical(s, b);
    }
    if s == Encode(b) {
      RoundTrip(b);
    }
  }
}
