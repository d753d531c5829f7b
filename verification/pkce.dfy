/** The PKCE pair of `cmd/main.go` (RFC 7636): a code verifier drawn from a
    fixed charset (section 4.1) and its S256 challenge (section 4.2). The
    random source and SHA-256 are not modelled: the verifier is built from
    the indices the source draws, and the hash is a parameter. */
module Pkce {
  import opened Wrappers
  import Base64Url

  /** The charset the verifier is drawn from, the source's one literal
      written as its four runs: the lower-case letters, the upper-case
      letters, the digits, then `-._~`. */
  const Lower: string := "abcdefghijklmnopqrstuvwxyz"
  const Upper: string := "ABCDEFGHIJKLMNOPQRSTUVWXYZ"
  const Digits: string := "0123456789"
  const Marks: string := "-._~"
  const Charset: string := Lower + Upper + Digits + Marks

  const VerifierLength: nat := 43

  /** The lower-case letters in code-point order. */
  lemma LowerLayout()
    ensures |Lower| == 26 && forall k :: 0 <= k < |Lower| ==> Lower[k] == ('a' as int + k) as char
  {
  }

  /** The upper-case letters in code-point order. */
  lemma UpperLayout()
    ensures |Upper| == 26 && forall k :: 0 <= k < |Upper| ==> Upper[k] == ('A' as int + k) as char
  {
  }

  /** The digits in code-point order. */
  lemma DigitsLayout()
    ensures |Digits| == 10 && forall k :: 0 <= k < |Digits| ==> Digits[k] == ('0' as int + k) as char
  {
  }

  /** The character the charset holds at position `k`. */
  lemma CharsetLayout(k: int)
    requires 0 <= k < |Charset|
    ensures |Charset| == 66
    ensures k < 26 ==> Charset[k] == ('a' as int + k) as char
    ensures 26 <= k < 52 ==> Charset[k] == ('A' as int + (k - 26)) as char
    ensures 52 <= k < 62 ==> Charset[k] == ('0' as int + (k - 52)) as char
    ensures 62 <= k ==> Charset[k] == Marks[k - 62]
  {
    LowerLayout();
    UpperLayout();
    DigitsLayout();
    assert |Marks| == 4;
    if k < 26 {
      assert Charset[k] == Lower[k];
    } else if k < 52 {
      assert Charset[k] == Upper[k - 26];
    } else if k < 62 {
      assert Charset[k] == Digits[k - 52];
    }
  }

  /** `unreserved` of section 4.1 of RFC 7636: ALPHA / DIGIT / "-" / "." / "_" / "~". */
  predicate Unreserved(c: char)
  {
    ('A' <= c <= 'Z') || ('a' <= c <= 'z') || ('0' <= c <= '9') || c == '-' || c == '.' || c == '_' || c == '~'
  }

  /** A code verifier as section 4.1 of RFC 7636 allows it. */
  predicate ValidVerifier(v: string)
  {
    43 <= |v| <= 128 && forall i :: 0 <= i < |v| ==> Unreserved(v[i])
  }

  /** The charset's position of an unreserved character. */
  function CharsetIndex(c: char): (k: int)
    requires Unreserved(c)
    ensures 0 <= k < |Charset| && Charset[k] == c
  {
    var k :=
    if 'a' <= c <= 'z' then c as int - 'a' as int
    else if 'A' <= c <= 'Z' then c as int - 'A' as int + 26
    else if '0' <= c <= '9' then c as int - '0' as int + 52
    else if c == '-' then 62
    else if c == '.' then 63
    else if c == '_' then 64
    else 65;
    CharsetLayout(k);
    k
  }

  /** The charset is exactly the unreserved set, each character once. */
  lemma CharsetIsUnreserved()
    ensures |Charset| == 66
    ensures forall k :: 0 <= k < |Charset| ==> Unreserved(Charset[k]) && CharsetIndex(Charset[k]) == k
    ensures forall c :: Unreserved(c) ==> c in Charset
  {
    forall c | Unreserved(c) ensures c in Charset {
      assert Charset[CharsetIndex(c)] == c;
    }
    forall k | 0 <= k < |Charset| ensures Unreserved(Charset[k]) && CharsetIndex(Charset[k]) == k {
      CharsetLayout(k);
    }
  }

  /** Any 43 characters drawn from the charset make a valid verifier. */
  lemma DrawnIsValid(draws: seq<int>, v: string)
    requires |draws| == |v| == VerifierLength
    requires forall i :: 0 <= i < |draws| ==> 0 <= draws[i] < |Charset| && v[i] == Charset[draws[i]]
    ensures ValidVerifier(v)
  {
    CharsetIsUnreserved();
  }

  /** `GenerateCodeVerifier`: position `i` holds `charset[draws[i]]`, where
      `draws[i]` is the i-th `rand.Intn(len(charset))`. */
  method GenerateCodeVerifier(draws: seq<int>) returns (v: string)
    requires |draws| == VerifierLength
    requires forall i :: 0 <= i < |draws| ==> 0 <= draws[i] < |Charset|
    ensures |v| == VerifierLength
    ensures forall i :: 0 <= i < |v| ==> v[i] == Charset[draws[i]]
    ensures ValidVerifier(v)
  {
    var verifier := new char[VerifierLength];
    for i := 0 to VerifierLength
      invariant forall j :: 0 <= j < i ==> verifier[j] == Charset[draws[j]]
    {
      verifier[i] := Charset[draws[i]];
    }
    v := verifier[..];
    DrawnIsValid(draws, v);
  }

  /** The draws that make a given verifier: every string of 43 unreserved
      characters is a possible output. */
  function DrawsFor(v: string): (draws: seq<int>)
    requires forall i :: 0 <= i < |v| ==> Unreserved(v[i])
    ensures |draws| == |v|
    ensures forall i :: 0 <= i < |draws| ==> 0 <= draws[i] < |Charset| && Charset[draws[i]] == v[i]
  {
    seq(|v|, i requires 0 <= i < |v| => CharsetIndex(v[i]))
  }

  /** A SHA-256 digest: 32 bytes. */
  type Digest = d: seq<Base64Url.Byte> | |d| == 32 witness seq(32, _ => 0)

  /** `GenerateCodeChallenge`: BASE64URL-ENCODE(SHA256(verifier)) with no
      padding, the S256 method of section 4.2 of RFC 7636. */
  function GenerateCodeChallenge(verifier: string, sha256: string -> Digest): (c: string)
    ensures |c| == 43
    ensures forall i :: 0 <= i < |c| ==> Base64Url.IsUrlSafe(c[i])
    ensures Base64Url.Decode(c) == Some(sha256(verifier))
  {
    Base64Url.RoundTrip(sha256(verifier));
    Base64Url.Encode(sha256(verifier))
  }

  /** The challenge is pinned by the digest: a string decodes to the
      verifier's digest exactly when it is the challenge. The server of
      section 4.6 of RFC 7636 re-encodes the digest and compares strings,
      so no other string would pass it. */
  lemma ChallengeDeterminedByDigest(verifier: string, sha256: string -> Digest, c: string)
    ensures Base64Url.Decode(c) == Some(sha256(verifier)) <==> c == GenerateCodeChallenge(verifier, sha256)
  {
    Base64Url.DecodeIffEncode(c, sha256(verifier));
  }

  /** A challenge is also a string of unreserved characters of a valid
      verifier's length, as section 4.2 of RFC 7636 expects of S256. */
  lemma ChallengeIsUnreserved(verifier: string, sha256: string -> Digest)
    ensures ValidVerifier(GenerateCodeChallenge(verifier, sha256))
  {
  }
}
