/**
  Bytes and their lower-case hexadecimal rendering (Node's `toString("hex")`, Go's
  `hex.EncodeToString`): every byte becomes two digits from 0-9a-f, high nibble first.
*/
module Hex {

  type Byte = x: int | 0 <= x < 256

  /** A SHA-256 digest: 32 bytes. */
  type Digest = b: seq<Byte> | |b| == 32 witness seq(32, _ => 0)

  /** The characters of `[a-f0-9]`. */
  predicate IsLowerHexDigit(c: char) {
    '0' <= c <= '9' || 'a' <= c <= 'f'
  }

  predicate IsLowerHex(s: string) {
    forall i :: 0 <= i < |s| ==> IsLowerHexDigit(s[i])
  }

  function NibbleChar(n: int): (c: char)
    requires 0 <= n < 16
    ensures IsLowerHexDigit(c)
  {
    if n < 10 then ('0' as int + n) as char else ('a' as int + n - 10) as char
  }

  function NibbleValue(c: char): (n: int)
    requires IsLowerHexDigit(c)
    ensures 0 <= n < 16
  {
    if c <= '9' then c as int - '0' as int else c as int - 'a' as int + 10
  }

  /** Reading a digit back gives its nibble, and a digit is determined by its nibble. */
  lemma NibbleRoundTrip(n: int, c: char)
    requires 0 <= n < 16
    requires IsLowerHexDigit(c)
    ensures NibbleValue(NibbleChar(n)) == n
    ensures NibbleChar(NibbleValue(c)) == c
  {
  }

  /** The lower-case hexadecimal rendering of the bytes. */
  function HexEncode(bytes: seq<Byte>): (s: string)
    ensures |s| == 2 * |bytes|
  {
    if |bytes| == 0 then ""
    else [NibbleChar(bytes[0] / 16), NibbleChar(bytes[0] % 16)] + HexEncode(bytes[1..])
  }

  /** The bytes a run of lower-case hexadecimal digit pairs denotes. */
  function HexDecode(s: string): (bytes: seq<Byte>)
    requires |s| % 2 == 0 && IsLowerHex(s)
    ensures 2 * |bytes| == |s|
  {
    if |s| == 0 then []
    else [NibbleValue(s[0]) * 16 + NibbleValue(s[1])] + HexDecode(s[2..])
  }

  /** Every character of an encoding is a lower-case hexadecimal digit. */
  lemma {:induction false} EncodeIsLowerHex(bytes: seq<Byte>)
    ensures IsLowerHex(HexEncode(bytes))
    decreases |bytes|
  {
    if |bytes| > 0 {
      EncodeIsLowerHex(bytes[1..]);
      var head := [NibbleChar(bytes[0] / 16), NibbleChar(bytes[0] % 16)];
      var s := HexEncode(bytes);
      assert s == head + HexEncode(bytes[1..]);
      forall i | 0 <= i < |s|
        ensures IsLowerHexDigit(s[i])
      {
        if i >= 2 {
          assert s[i] == HexEncode(bytes[1..])[i - 2];
        }
      }
    }
  }

  /** A byte is its high nibble times 16 plus its low nibble. */
  lemma ByteNibbles(b: Byte)
    ensures 0 <= b / 16 < 16 && 0 <= b % 16 < 16 && (b / 16) * 16 + b % 16 == b
  {
  }

  /** Two nibbles make the byte whose nibbles they are. */
  lemma NibblesByte(hi: int, lo: int)
    requires 0 <= hi < 16 && 0 <= lo < 16
    ensures 0 <= hi * 16 + lo < 256 && (hi * 16 + lo) / 16 == hi && (hi * 16 + lo) % 16 == lo
  {
  }

  /**
    The encoding reads back as the bytes it came from, so distinct byte strings never share
    an encoding.
  */
  lemma {:induction false} HexRoundTrip(bytes: seq<Byte>)
    ensures IsLowerHex(HexEncode(bytes))
    ensures HexDecode(HexEncode(bytes)) == bytes
    decreases |bytes|
  {
    EncodeIsLowerHex(bytes);
    if |bytes| > 0 {
      var b := bytes[0];
      HexRoundTrip(bytes[1..]);
      ByteNibbles(b);
      NibbleRoundTrip(b / 16, 'a');
      NibbleRoundTrip(b % 16, 'a');
      var s := HexEncode(bytes);
      assert s == [NibbleChar(b / 16), NibbleChar(b % 16)] + HexEncode(bytes[1..]);
      assert s[2..] == HexEncode(bytes[1..]);
      assert bytes == [b] + bytes[1..];
    }
  }

  /** Decoding and encoding back gives the original text, so the encoding is onto `[a-f0-9]` pairs. */
  lemma {:induction false} HexDecodeRoundTrip(s: string)
    requires |s| % 2 == 0 && IsLowerHex(s)
    ensures HexEncode(HexDecode(s)) == s
    decreases |s|
  {
    if |s| > 0 {
      HexDecodeRoundTrip(s[2..]);
      var hi := NibbleValue(s[0]);
      var lo := NibbleValue(s[1]);
      var bytes := HexDecode(s);
      assert bytes == [hi * 16 + lo] + HexDecode(s[2..]);
      assert bytes[1..] == HexDecode(s[2..]);
      NibblesByte(hi, lo);
      NibbleRoundTrip(0, s[0]);
      NibbleRoundTrip(0, s[1]);
      assert s == [s[0], s[1]] + s[2..];
    }
  }
}
