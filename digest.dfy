/**
 * The text files `write_txtFile` writes: each byte of an MD5 or SHA-256
 * digest as `hex << setw(2) << setfill('0') << static_cast<int>(b)` on a
 * fresh stream, so lowercase and zero-padded to two characters.
 */
module Digest {
  import opened Bytes

  const MD5_DIGEST_LENGTH: nat := 16
  const SHA256_DIGEST_LENGTH: nat := 32

  /** The lowercase hexadecimal digit for `k`. */
  function HexChar(k: nat): (c: char)
    requires k < 16
    ensures IsLowerHexDigit(c)
  {
    if k < 10 then ('0' as int + k) as char else ('a' as int + k - 10) as char
  }

  predicate IsLowerHexDigit(c: char)
  {
    '0' <= c <= '9' || 'a' <= c <= 'f'
  }

  function DigitValue(c: char): (k: nat)
    requires IsLowerHexDigit(c)
    ensures k < 16 && HexChar(k) == c
  {
    if c <= '9' then c as nat - '0' as nat else c as nat - 'a' as nat + 10
  }

  /** `hex << n`: lowercase digits, no leading zeros, "0" for zero. */
  function StreamHex(n: nat): string
    decreases n
  {
    if n < 16 then [HexChar(n)] else StreamHex(n / 16) + [HexChar(n % 16)]
  }

  /** `setw(2) << setfill('0')`: pads on the left with '0' up to two characters. */
  function Fill2(s: string): string
  {
    if |s| >= 2 then s else seq(2 - |s|, _ => '0') + s
  }

  /** The two characters written for one byte. */
  function HexByte(b: uint8): string
  {
    Fill2(StreamHex(b as nat))
  }

  /** Every byte gives exactly two lowercase digits: its high then its low nibble. */
  lemma HexByteDigits(b: uint8)
    ensures HexByte(b) == [HexChar(b as nat / 16), HexChar(b as nat % 16)]
  {
    if b as nat < 16 {
      assert StreamHex(b as nat) == [HexChar(b as nat)];
      assert HexChar(0) == '0';
    } else {
      assert StreamHex(b as nat / 16) == [HexChar(b as nat / 16)];
    }
  }

  /** The whole digest, byte after byte. */
  function HexDigest(d: seq<uint8>): (s: string)
    ensures |s| == 2 * |d|
    ensures forall k :: 0 <= k < |s| ==> IsLowerHexDigit(s[k])
  {
    if d == [] then []
    else
      HexByteDigits(d[|d| - 1]);
      HexDigest(d[..|d| - 1]) + HexByte(d[|d| - 1])
  }

  /** The text is twice as long as the digest and position 2i, 2i+1 hold byte i's nibbles. */
  lemma {:induction false} HexDigestLayout(d: seq<uint8>)
    ensures forall i :: 0 <= i < |d| ==>
      HexDigest(d)[2 * i] == HexChar(d[i] as nat / 16) && HexDigest(d)[2 * i + 1] == HexChar(d[i] as nat % 16)
  {
    if d != [] {
      var front := d[..|d| - 1];
      HexDigestLayout(front);
      HexByteDigits(d[|d| - 1]);
      forall i | 0 <= i < |d|
        ensures HexDigest(d)[2 * i] == HexChar(d[i] as nat / 16) && HexDigest(d)[2 * i + 1] == HexChar(d[i] as nat % 16)
      {
        if i < |front| {
          assert d[i] == front[i];
        }
      }
    }
  }

  /** Reads a text of lowercase digit pairs back into bytes. */
  function ParseHexDigest(s: string): seq<uint8>
    requires |s| % 2 == 0
    requires forall k :: 0 <= k < |s| ==> IsLowerHexDigit(s[k])
  {
    if s == [] then []
    else ParseHexDigest(s[..|s| - 2]) + [(16 * DigitValue(s[|s| - 2]) + DigitValue(s[|s| - 1])) as uint8]
  }

  /** The written text determines the digest: reading it back gives the digest. */
  lemma {:induction false} HexDigestRoundTrip(d: seq<uint8>)
    ensures ParseHexDigest(HexDigest(d)) == d
  {
    if d != [] {
      var front := d[..|d| - 1];
      var b := d[|d| - 1];
      HexDigestRoundTrip(front);
      HexByteDigits(b);
      var s := HexDigest(d);
      assert s == HexDigest(front) + [HexChar(b as nat / 16), HexChar(b as nat % 16)];
      assert s[..|s| - 2] == HexDigest(front);
      assert DigitValue(s[|s| - 2]) == b as nat / 16 && DigitValue(s[|s| - 1]) == b as nat % 16;
      assert d == front + [b];
    }
  }

  /** One of the two output loops: write each byte of the digest in turn. */
  method WriteHex(digest: seq<uint8>) returns (text: string)
    ensures text == HexDigest(digest)
  {
    text := [];
    for i := 0 to |digest|
      invariant text == HexDigest(digest[..i])
    {
      assert digest[..i + 1][..i] == digest[..i];
      text := text + HexByte(digest[i]);
    }
    assert digest[..|digest|] == digest;
  }

  /** The contents of `MD5-<file>.txt` and `SHA-256-<file>.txt`: 32 and 64 lowercase digits. */
  method WriteDigestFiles(md5: seq<uint8>, sha256: seq<uint8>) returns (md5Text: string, sha256Text: string)
    requires |md5| == MD5_DIGEST_LENGTH && |sha256| == SHA256_DIGEST_LENGTH
    ensures md5Text == HexDigest(md5) && sha256Text == HexDigest(sha256)
    ensures |md5Text| == 32 && |sha256Text| == 64
  {
    md5Text := WriteHex(md5);
    sha256Text := WriteHex(sha256);
  }
}
