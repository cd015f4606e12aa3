/** Fixed-width unsigned integers and little-endian field decoding. */
module Bytes {

  newtype uint8 = x: int | 0 <= x < 0x100
  newtype uint32 = x: int | 0 <= x < 0x1_0000_0000
  newtype uint64 = x: int | 0 <= x < 0x1_0000_0000_0000_0000

  /** 256 to the power `n`: one past the largest value `n` bytes hold. */
  function Pow256(n: nat): (r: nat)
    ensures r > 0
  {
    if n == 0 then 1 else 0x100 * Pow256(n - 1)
  }

  /**
   * The value of `bs` read least significant byte first: what
   * `reinterpret_cast` of the bytes to an unsigned field gives on a
   * little-endian (x86) host.
   */
  function LittleEndian(bs: seq<uint8>): nat
  {
    if bs == [] then 0 else bs[0] as nat + 0x100 * LittleEndian(bs[1..])
  }

  lemma {:induction false} LittleEndianBound(bs: seq<uint8>)
    ensures LittleEndian(bs) < Pow256(|bs|)
  {
    if bs != [] {
      LittleEndianBound(bs[1..]);
      var rest := LittleEndian(bs[1..]);
      assert rest + 1 <= Pow256(|bs| - 1);
      assert 0x100 * rest + 0x100 <= 0x100 * Pow256(|bs| - 1);
    }
  }

  /** The `n` bytes that store `v`, least significant first. */
  function ToLittleEndian(v: nat, n: nat): (bs: seq<uint8>)
    requires v < Pow256(n)
    ensures |bs| == n
  {
    if n == 0 then [] else [(v % 0x100) as uint8] + ToLittleEndian(v / 0x100, n - 1)
  }

  /** Storing a value and reading it back gives the value. */
  lemma {:induction false} DecodeEncodeLittleEndian(v: nat, n: nat)
    requires v < Pow256(n)
    ensures LittleEndian(ToLittleEndian(v, n)) == v
  {
    if n > 0 {
      DecodeEncodeLittleEndian(v / 0x100, n - 1);
      assert ToLittleEndian(v, n)[1..] == ToLittleEndian(v / 0x100, n - 1);
    }
  }

  /** Reading bytes and storing the value back gives the same bytes. */
  lemma {:induction false} EncodeDecodeLittleEndian(bs: seq<uint8>)
    ensures LittleEndian(bs) < Pow256(|bs|) && ToLittleEndian(LittleEndian(bs), |bs|) == bs
  {
    LittleEndianBound(bs);
    if bs != [] {
      LittleEndianBound(bs[1..]);
      EncodeDecodeLittleEndian(bs[1..]);
      var v := LittleEndian(bs);
      assert v % 0x100 == bs[0] as nat && v / 0x100 == LittleEndian(bs[1..]);
    }
  }

  lemma Pow256Widths()
    ensures Pow256(4) == 0x1_0000_0000
    ensures Pow256(8) == 0x1_0000_0000_0000_0000
  {
  }

  /** A little-endian `uint32_t` field. */
  function U32(bs: seq<uint8>): (r: uint32)
    requires |bs| == 4
    ensures r as nat == LittleEndian(bs)
  {
    LittleEndianBound(bs);
    Pow256Widths();
    LittleEndian(bs) as uint32
  }

  /** A little-endian `uint64_t` field. */
  function U64(bs: seq<uint8>): (r: uint64)
    requires |bs| == 8
    ensures r as nat == LittleEndian(bs)
  {
    LittleEndianBound(bs);
    Pow256Widths();
    LittleEndian(bs) as uint64
  }

  function FromU32(v: uint32): (bs: seq<uint8>)
    ensures |bs| == 4
  {
    Pow256Widths();
    ToLittleEndian(v as nat, 4)
  }

  function FromU64(v: uint64): (bs: seq<uint8>)
    ensures |bs| == 8
  {
    Pow256Widths();
    ToLittleEndian(v as nat, 8)
  }

  lemma U32RoundTrip(v: uint32, bs: seq<uint8>)
    requires |bs| == 4
    ensures U32(FromU32(v)) == v
    ensures FromU32(U32(bs)) == bs
  {
    Pow256Widths();
    DecodeEncodeLittleEndian(v as nat, 4);
    EncodeDecodeLittleEndian(bs);
  }

  lemma U64RoundTrip(v: uint64, bs: seq<uint8>)
    requires |bs| == 8
    ensures U64(FromU64(v)) == v
    ensures FromU64(U64(bs)) == bs
  {
    Pow256Widths();
    DecodeEncodeLittleEndian(v as nat, 8);
    EncodeDecodeLittleEndian(bs);
  }
}
