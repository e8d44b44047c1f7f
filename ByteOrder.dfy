/**
 * Byte-level images of fixed-width unsigned values.
 *
 * The deprecated typed write/read of the bitstream buffer copy the bytes of an
 * unsigned value of `sizeof(T)` bytes through a union.  What those bytes are
 * depends on the byte order of the host: a little-endian host stores the least
 * significant byte first, a big-endian host the most significant byte first.
 * This module defines both images, their decoders, and the facts the buffer
 * model needs: each decoder inverts its encoder, and the big-endian image is
 * the little-endian one mirrored.
 */
module ByteOrder {

  /** One byte of the buffer (`uint8_t`). */
  newtype uint8 = x: int | 0 <= x < 256

  /** 256^n: the number of distinct values an n-byte unsigned type holds. */
  function Pow256(n: nat): (r: nat)
    ensures r > 0
  {
    if n == 0 then 1 else 256 * Pow256(n - 1)
  }

  /** The n bytes of u, least significant byte first. */
  function LittleEndian(u: nat, n: nat): (bs: seq<uint8>)
    ensures |bs| == n
  {
    if n == 0 then [] else [(u % 256) as uint8] + LittleEndian(u / 256, n - 1)
  }

  /** The n bytes of u, most significant byte first. */
  function BigEndian(u: nat, n: nat): (bs: seq<uint8>)
    ensures |bs| == n
  {
    if n == 0 then [] else BigEndian(u / 256, n - 1) + [(u % 256) as uint8]
  }

  /** The value whose least-significant-first image is bs; it fits in |bs| bytes. */
  function FromLittleEndian(bs: seq<uint8>): (u: nat)
    ensures u < Pow256(|bs|)
  {
    if bs == [] then 0 else bs[0] as nat + 256 * FromLittleEndian(bs[1..])
  }

  /** The value whose most-significant-first image is bs; it fits in |bs| bytes. */
  function FromBigEndian(bs: seq<uint8>): (u: nat)
    ensures u < Pow256(|bs|)
  {
    if bs == [] then 0 else 256 * FromBigEndian(bs[..|bs| - 1]) + bs[|bs| - 1] as nat
  }

  /** Decoding the little-endian image of a value that fits in n bytes gives the value back. */
  lemma {:induction false} LittleEndianRoundTrip(u: nat, n: nat)
    requires u < Pow256(n)
    ensures FromLittleEndian(LittleEndian(u, n)) == u
  {
    if n > 0 {
      var bs := LittleEndian(u, n);
      assert bs[1..] == LittleEndian(u / 256, n - 1);
      LittleEndianRoundTrip(u / 256, n - 1);
    }
  }

  /** Every byte sequence is the little-endian image of the value it decodes to. */
  lemma {:induction false} FromLittleEndianRoundTrip(bs: seq<uint8>)
    ensures LittleEndian(FromLittleEndian(bs), |bs|) == bs
  {
    if bs != [] {
      var u := FromLittleEndian(bs);
      var rest := FromLittleEndian(bs[1..]);
      assert u == bs[0] as nat + 256 * rest;
      assert u % 256 == bs[0] as nat && u / 256 == rest;
      FromLittleEndianRoundTrip(bs[1..]);
      assert LittleEndian(u, |bs|) == [bs[0]] + bs[1..];
    }
  }

  /** Decoding the big-endian image of a value that fits in n bytes gives the value back. */
  lemma {:induction false} BigEndianRoundTrip(u: nat, n: nat)
    requires u < Pow256(n)
    ensures FromBigEndian(BigEndian(u, n)) == u
  {
    if n > 0 {
      var bs := BigEndian(u, n);
      assert bs[..n - 1] == BigEndian(u / 256, n - 1);
      BigEndianRoundTrip(u / 256, n - 1);
    }
  }

  /** Byte k of the big-endian image is byte n-1-k of the little-endian image. */
  lemma {:induction false} BigEndianMirrorsLittleEndian(u: nat, n: nat, k: nat)
    requires k < n
    ensures BigEndian(u, n)[k] == LittleEndian(u, n)[n - 1 - k]
  {
    if k < n - 1 {
      BigEndianMirrorsLittleEndian(u / 256, n - 1, k);
    }
  }

  /**
   * The bytes of the union `{ T u; uint8_t u8[sizeof(T)]; }` after `u` is
   * assigned: the memory image of an n-byte unsigned value on the host.
   */
  function HostLayout(u: nat, n: nat, littleEndianHost: bool): (mem: seq<uint8>)
    ensures |mem| == n
  {
    if littleEndianHost then LittleEndian(u, n) else BigEndian(u, n)
  }

  /** The value the union's `u` member holds once its bytes `u8` are mem. */
  function HostValue(mem: seq<uint8>, littleEndianHost: bool): (u: nat)
    ensures u < Pow256(|mem|)
  {
    if littleEndianHost then FromLittleEndian(mem) else FromBigEndian(mem)
  }

  /**
   * The byte the deprecated write loop sends to stream offset k: `u8[k]` on a
   * little-endian host, `u8[sizeof(T) - k - 1]` on a big-endian one.  On
   * either host it is byte k of the least-significant-first image, so the
   * stream byte order does not depend on the host.
   */
  lemma StreamByteIndependentOfHost(u: nat, n: nat, k: nat, littleEndianHost: bool)
    requires k < n
    ensures (if littleEndianHost then HostLayout(u, n, littleEndianHost)[k]
             else HostLayout(u, n, littleEndianHost)[n - k - 1])
            == LittleEndian(u, n)[k]
  {
    if !littleEndianHost {
      BigEndianMirrorsLittleEndian(u, n, n - k - 1);
    }
  }

  /** Assigning a value to the union and reading it back through the same host's layout is exact. */
  lemma HostLayoutRoundTrip(u: nat, n: nat, littleEndianHost: bool)
    requires u < Pow256(n)
    ensures HostValue(HostLayout(u, n, littleEndianHost), littleEndianHost) == u
  {
    if littleEndianHost {
      LittleEndianRoundTrip(u, n);
    } else {
      BigEndianRoundTrip(u, n);
    }
  }
}
