/**
  API keys: how the API generates a key pair (a public key "supm_" plus 16 random bytes in
  hexadecimal, a secret key "sk_" plus 32 random bytes in hexadecimal) and how the Go
  server checks their format with the anchored patterns `^supm_[a-f0-9]{32}$` and
  `^sk_[a-f0-9]{64}$` before any lookup.
*/
module ApiKeys {
  import opened Wrappers
  import opened Hex

  const PublicPrefix := "supm_"
  const SecretPrefix := "sk_"

  /** The anchored pattern prefix `[a-f0-9]{n}`: the prefix, then exactly n lower-case hexadecimal digits, then the end. */
  predicate MatchesKeyPattern(key: string, prefix: string, n: nat) {
    && |key| == |prefix| + n
    && key[..|prefix|] == prefix
    && IsLowerHex(key[|prefix|..])
  }

  /** `ValidatePublicKeyFormat`: None is the nil error. */
  function ValidatePublicKeyFormat(publicKey: string): Option<string> {
    if publicKey == "" then Some("missing public key")
    else if !MatchesKeyPattern(publicKey, PublicPrefix, 32) then Some("invalid public key format")
    else None
  }

  /** `ValidateSecretKeyFormat`: None is the nil error. */
  function ValidateSecretKeyFormat(secretKey: string): Option<string> {
    if secretKey == "" then Some("missing secret key")
    else if !MatchesKeyPattern(secretKey, SecretPrefix, 64) then Some("invalid secret key format")
    else None
  }

  datatype KeyPair = KeyPair(publicKey: string, secretKey: string)

  /** `generateApiKeys`, given the 16 and the 32 random bytes it draws. */
  function GenerateApiKeys(publicBytes: seq<Byte>, secretBytes: seq<Byte>): KeyPair
    requires |publicBytes| == 16 && |secretBytes| == 32
  {
    KeyPair(PublicPrefix + HexEncode(publicBytes), SecretPrefix + HexEncode(secretBytes))
  }

  /**
    The public-key check: the empty key has its own error; any other key is accepted exactly
    when it is 37 characters, "supm_" and 32 lower-case hexadecimal digits, and otherwise
    gets the format error (so upper-case digits, extra characters and other lengths fail).
  */
  lemma PublicKeyFormat(key: string)
    ensures key == "" ==> ValidatePublicKeyFormat(key) == Some("missing public key")
    ensures ValidatePublicKeyFormat(key) == None <==>
      |key| == 37 && key[..5] == "supm_" && forall i :: 5 <= i < 37 ==> IsLowerHexDigit(key[i])
    ensures key != "" && ValidatePublicKeyFormat(key) != None ==> ValidatePublicKeyFormat(key) == Some("invalid public key format")
  {
    if |key| == 37 && key[..5] == "supm_" {
      assert IsLowerHex(key[5..]) <==> forall i :: 5 <= i < 37 ==> IsLowerHexDigit(key[i]) by {
        forall i | 5 <= i < 37
          ensures key[5..][i - 5] == key[i]
        {
        }
      }
    }
  }

  /**
    The secret-key check: the empty key has its own error; any other key is accepted exactly
    when it is 67 characters, "sk_" and 64 lower-case hexadecimal digits, and otherwise gets
    the format error.
  */
  lemma SecretKeyFormat(key: string)
    ensures key == "" ==> ValidateSecretKeyFormat(key) == Some("missing secret key")
    ensures ValidateSecretKeyFormat(key) == None <==>
      |key| == 67 && key[..3] == "sk_" && forall i :: 3 <= i < 67 ==> IsLowerHexDigit(key[i])
    ensures key != "" && ValidateSecretKeyFormat(key) != None ==> ValidateSecretKeyFormat(key) == Some("invalid secret key format")
  {
    if |key| == 67 && key[..3] == "sk_" {
      assert IsLowerHex(key[3..]) <==> forall i :: 3 <= i < 67 ==> IsLowerHexDigit(key[i]) by {
        forall i | 3 <= i < 67
          ensures key[3..][i - 3] == key[i]
        {
        }
      }
    }
  }

  /** No string is both a well-formed public key and a well-formed secret key. */
  lemma KeyFormatsDisjoint(key: string)
    ensures !(ValidatePublicKeyFormat(key) == None && ValidateSecretKeyFormat(key) == None)
  {
  }

  lemma PrefixedHex(prefix: string, bytes: seq<Byte>)
    ensures MatchesKeyPattern(prefix + HexEncode(bytes), prefix, 2 * |bytes|)
  {
    var key := prefix + HexEncode(bytes);
    HexRoundTrip(bytes);
    assert key[..|prefix|] == prefix;
    assert key[|prefix|..] == HexEncode(bytes);
  }

  /** Every generated key pair passes both format checks. */
  lemma GeneratedKeysAreWellFormed(publicBytes: seq<Byte>, secretBytes: seq<Byte>)
    requires |publicBytes| == 16 && |secretBytes| == 32
    ensures ValidatePublicKeyFormat(GenerateApiKeys(publicBytes, secretBytes).publicKey) == None
    ensures ValidateSecretKeyFormat(GenerateApiKeys(publicBytes, secretBytes).secretKey) == None
  {
    PrefixedHex(PublicPrefix, publicBytes);
    PrefixedHex(SecretPrefix, secretBytes);
  }

  /**
    Conversely every well-formed key is generated from exactly one choice of random bytes:
    the bytes its digits encode.
  */
  lemma WellFormedKeysAreGenerated(publicKey: string, secretKey: string)
    requires ValidatePublicKeyFormat(publicKey) == None && ValidateSecretKeyFormat(secretKey) == None
    ensures var pb := HexDecode(publicKey[5..]);
      var sb := HexDecode(secretKey[3..]);
      |pb| == 16 && |sb| == 32 && GenerateApiKeys(pb, sb) == KeyPair(publicKey, secretKey)
    ensures forall pb: seq<Byte>, sb: seq<Byte> :: |pb| == 16 && |sb| == 32 && GenerateApiKeys(pb, sb) == KeyPair(publicKey, secretKey) ==>
      pb == HexDecode(publicKey[5..]) && sb == HexDecode(secretKey[3..])
  {
    HexDecodeRoundTrip(publicKey[5..]);
    HexDecodeRoundTrip(secretKey[3..]);
    assert publicKey == PublicPrefix + publicKey[5..];
    assert secretKey == SecretPrefix + secretKey[3..];
    forall pb: seq<Byte>, sb: seq<Byte> | |pb| == 16 && |sb| == 32 && GenerateApiKeys(pb, sb) == KeyPair(publicKey, secretKey)
      ensures pb == HexDecode(publicKey[5..]) && sb == HexDecode(secretKey[3..])
    {
      HexRoundTrip(pb);
      HexRoundTrip(sb);
      assert (PublicPrefix + HexEncode(pb))[5..] == HexEncode(pb);
      assert (SecretPrefix + HexEncode(sb))[3..] == HexEncode(sb);
    }
  }
}
