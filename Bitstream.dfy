/**
 * The byte buffer and cursor of the point-cloud codec's bitstream: the
 * position record, buffer sizing and growth, the cursor accessors, and the
 * deprecated fixed-width typed write and read that copy the bytes of an
 * unsigned value into and out of the buffer at a byte-aligned position.
 */
module BitstreamBuffer {
  import opened ByteOrder

  const UINT64_LIMIT: int := 0x1_0000_0000_0000_0000

  /** `uint64_t`. */
  newtype uint64 = x: int | 0 <= x < UINT64_LIMIT

  /** The buffer grows in chunks of this many bytes. */
  const CHUNK_SIZE: nat := 4096

  /** The default argument of `realloc`. */
  const DEFAULT_REALLOC_SIZE: uint64 := 4096

  /** A typed write grows the buffer once the aligned offset is this close to its end. */
  const WRITE_SLACK: nat := 16

  /** A cursor: a byte offset and a bit offset within that byte. */
  datatype Position = Position(bytes: uint64, bits: uint8) {
    /** `byteAligned` of a position: no bits of the current byte are used. */
    function ByteAligned(): (aligned: bool)
      ensures aligned <==> bits == 0
    {
      bits == 0
    }
  }

  /** The cursor moved forward by size bytes, with `uint64_t` wrap-around. */
  function Advanced(p: Position, size: uint64): (r: Position)
    ensures r.bits == p.bits
    ensures p.bytes as int + size as int < UINT64_LIMIT ==> r.bytes as int == p.bytes as int + size as int
    ensures p.bytes as int + size as int >= UINT64_LIMIT ==> r.bytes as int == p.bytes as int + size as int - UINT64_LIMIT
  {
    Position(((p.bytes as int + size as int) % UINT64_LIMIT) as uint64, p.bits)
  }

  /**
   * The cursor rounded up to the next byte boundary: a position inside a byte
   * moves to the start of the following byte, an aligned one stays put.
   */
  function Align(p: Position): (r: Position)
    ensures r.ByteAligned()
    ensures p.ByteAligned() ==> r == p
    ensures !p.ByteAligned() ==> r.bytes == Advanced(p, 1).bytes
  {
    if p.bits == 0 then p else Position(((p.bytes as int + 1) % UINT64_LIMIT) as uint64, 0)
  }

  /**
   * `std::vector::resize(n, 0)`: the first min(|s|, n) bytes are kept and
   * every byte past the old end is zero.
   */
  function Resized(s: seq<uint8>, n: nat): (r: seq<uint8>)
    ensures |r| == n
    ensures forall i :: 0 <= i < n ==> r[i] == if i < |s| then s[i] else 0
  {
    if n <= |s| then s[..n] else s + seq(n - |s|, _ => 0)
  }

  /** The amount `realloc(size)` adds: the least multiple of the chunk size above size. */
  function ChunkGrowth(size: nat): (g: nat)
    ensures g % CHUNK_SIZE == 0
    ensures size < g <= size + CHUNK_SIZE
  {
    (size / CHUNK_SIZE + 1) * CHUNK_SIZE
  }

  /**
   * The capacity a typed write works in when it starts at aligned byte offset
   * p of a buffer of capacity cap: one default `realloc` when p is within the
   * slack of the end, none otherwise.  When p is inside the buffer, the slack
   * is always available.
   */
  function GrownCapacity(cap: nat, p: nat): (r: nat)
    ensures p + WRITE_SLACK >= cap ==> r == cap + 2 * CHUNK_SIZE
    ensures p + WRITE_SLACK < cap ==> r == cap
    ensures p <= cap ==> p + WRITE_SLACK <= r
  {
    if p + WRITE_SLACK >= cap then cap + ChunkGrowth(DEFAULT_REALLOC_SIZE as nat) else cap
  }

  /** s with the bytes bs stored from offset at on; nothing else differs. */
  function Overwrite(s: seq<uint8>, at: nat, bs: seq<uint8>): (r: seq<uint8>)
    requires at + |bs| <= |s|
    ensures |r| == |s|
    ensures forall i :: 0 <= i < |s| ==> r[i] == if at <= i < at + |bs| then bs[i - at] else s[i]
  {
    s[..at] + bs + s[at + |bs|..]
  }

  /** Reading back the n bytes a typed write stored at offset at gives the value written. */
  lemma {:induction false} ReadBackWritten(s: seq<uint8>, at: nat, u: nat, n: nat)
    requires at + n <= |s|
    requires u < Pow256(n)
    ensures FromLittleEndian(Overwrite(s, at, LittleEndian(u, n))[at..at + n]) == u
  {
    var w := Overwrite(s, at, LittleEndian(u, n));
    assert w[at..at + n] == LittleEndian(u, n);
    LittleEndianRoundTrip(u, n);
  }

  class Bitstream {
    var data: seq<uint8>
    var position: Position
    var totalSizeIterator: Position

    /** A vector's size is a `size_t`. */
    ghost predicate Valid()
      reads this
    {
      |data| < UINT64_LIMIT
    }

    constructor ()
      ensures Valid()
      ensures data == [] && position == Position(0, 0) && totalSizeIterator == Position(0, 0)
    {
      data := [];
      position := Position(0, 0);
      totalSizeIterator := Position(0, 0);
    }

    /** `initialize(capacity)`: resize the buffer to capacity bytes, zero-filling new ones. */
    method Initialize(capacity: uint64)
      modifies this`data
      ensures Valid()
      ensures data == Resized(old(data), capacity as nat)
    {
      data := Resized(data, capacity as nat);
    }

    /** `size()`: the byte offset of the cursor, i.e. the number of bytes used. */
    function Size(): (s: uint64)
      reads this
      ensures s == position.bytes
    {
      position.bytes
    }

    /** Assignment through the reference `size()` returns. */
    method SetSize(s: uint64)
      modifies this`position
      ensures position == old(position).(bytes := s)
    {
      position := position.(bytes := s);
    }

    /** `capacity()`: the number of bytes the buffer holds. */
    function Capacity(): (c: uint64)
      requires Valid()
      reads this
      ensures c as int == |data|
    {
      |data| as uint64
    }

    /** `getPosition()`: a copy of the cursor. */
    function GetPosition(): (p: Position)
      reads this
      ensures p == position
    {
      position
    }

    /** `operator+=(size)`: move the cursor size bytes on; the bit offset and the buffer stay. */
    method Advance(size: uint64)
      modifies this`position
      ensures position == Advanced(old(position), size)
    {
      position := Advanced(position, size);
    }

    /** `byteAligned()`: the cursor sits on a byte boundary. */
    function ByteAligned(): (b: bool)
      reads this
      ensures b <==> position.bits == 0
    {
      position.ByteAligned()
    }

    /** `realloc(size)`: grow the buffer by the least multiple of the chunk size above size. */
    method Realloc(size: uint64)
      requires Valid()
      requires |data| + ChunkGrowth(size as nat) < UINT64_LIMIT
      modifies this`data
      ensures Valid()
      ensures data == Resized(old(data), |old(data)| + ChunkGrowth(size as nat))
    {
      data := Resized(data, |data| + ChunkGrowth(size as nat));
    }

    /**
     * `write<T>(u, pos)`: align pos, grow the buffer when within the slack of
     * its end, then copy the sizeof(T) = n bytes of u through the host's
     * memory image into the buffer.  The stream receives the
     * least-significant-first image of u on either host.
     */
    method WriteAt(u: nat, n: nat, pos: Position, littleEndianHost: bool) returns (next: Position)
      requires Valid()
      requires 0 < n && u < Pow256(n)
      requires GrownCapacity(|data|, Align(pos).bytes as nat) < UINT64_LIMIT
      requires Align(pos).bytes as nat + n <= GrownCapacity(|data|, Align(pos).bytes as nat)
      modifies this`data
      ensures Valid()
      ensures data == Overwrite(Resized(old(data), GrownCapacity(|old(data)|, Align(pos).bytes as nat)),
                                Align(pos).bytes as nat, LittleEndian(u, n))
      ensures next == Align(pos).(bytes := (Align(pos).bytes as int + n) as uint64)
    {
      var start := Align(pos);
      var src := HostLayout(u, n, littleEndianHost);
      if start.bytes as int + WRITE_SLACK >= |data| {
        Realloc(DEFAULT_REALLOC_SIZE);
      }
      ghost var grown := data;
      ghost var le := LittleEndian(u, n);
      var b := start.bytes;
      var k := 0;
      if littleEndianHost {
        while k < n
          invariant 0 <= k <= n
          invariant b as int == start.bytes as int + k
          invariant |data| == |grown|
          invariant forall i :: 0 <= i < |data| ==>
                      data[i] == if start.bytes as int <= i < b as int then le[i - start.bytes as int] else grown[i]
        {
          data := data[b as int := src[k]];
          b := b + 1;
          k := k + 1;
        }
      } else {
        while k < n
          invariant 0 <= k <= n
          invariant b as int == start.bytes as int + k
          invariant |data| == |grown|
          invariant forall i :: 0 <= i < |data| ==>
                      data[i] == if start.bytes as int <= i < b as int then le[i - start.bytes as int] else grown[i]
        {
          StreamByteIndependentOfHost(u, n, k, littleEndianHost);
          data := data[b as int := src[n - k - 1]];
          b := b + 1;
          k := k + 1;
        }
      }
      next := start.(bytes := b);
    }

    /**
     * `read<T>(pos)`: align pos and assemble the sizeof(T) = n bytes found
     * there into a value through the host's memory image.  There is no bounds
     * check and no growth, so the bytes must lie inside the buffer.  On either
     * host the result is the value whose least-significant-first image those
     * bytes are.
     */
    method ReadAt(n: nat, pos: Position, littleEndianHost: bool) returns (v: nat, next: Position)
      requires Valid()
      requires 0 < n
      requires Align(pos).bytes as nat + n <= |data|
      ensures v == FromLittleEndian(data[Align(pos).bytes..Align(pos).bytes as nat + n])
      ensures next == Align(pos).(bytes := (Align(pos).bytes as int + n) as uint64)
    {
      var start := Align(pos);
      var dest := new uint8[n];
      var b := start.bytes;
      var k := 0;
      ghost var seg := data[start.bytes..start.bytes as nat + n];
      if littleEndianHost {
        while k < n
          invariant 0 <= k <= n
          invariant b as int == start.bytes as int + k
          invariant forall j :: 0 <= j < k ==> dest[j] == seg[j]
        {
          dest[k] := data[b];
          b := b + 1;
          k := k + 1;
        }
        assert dest[..] == seg;
      } else {
        while k < n
          invariant 0 <= k <= n
          invariant b as int == start.bytes as int + k
          invariant forall j :: n - k <= j < n ==> dest[j] == seg[n - 1 - j]
        {
          dest[n - k - 1] := data[b];
          b := b + 1;
          k := k + 1;
        }
        ghost var w := FromLittleEndian(seg);
        FromLittleEndianRoundTrip(seg);
        forall j | 0 <= j < n
          ensures dest[j] == BigEndian(w, n)[j]
        {
          BigEndianMirrorsLittleEndian(w, n, j);
        }
        assert dest[..] == BigEndian(w, n);
        BigEndianRoundTrip(w, n);
      }
      v := HostValue(dest[..], littleEndianHost);
      next := start.(bytes := b);
    }

    /** `write<T>(u)`: a typed write at the stream's own cursor. */
    method Write(u: nat, n: nat, littleEndianHost: bool)
      requires Valid()
      requires 0 < n && u < Pow256(n)
      requires GrownCapacity(|data|, Align(position).bytes as nat) < UINT64_LIMIT
      requires Align(position).bytes as nat + n <= GrownCapacity(|data|, Align(position).bytes as nat)
      modifies this`data, this`position
      ensures Valid()
      ensures data == Overwrite(Resized(old(data), GrownCapacity(|old(data)|, Align(old(position)).bytes as nat)),
                                Align(old(position)).bytes as nat, LittleEndian(u, n))
      ensures position == Align(old(position)).(bytes := (Align(old(position)).bytes as int + n) as uint64)
    {
      position := WriteAt(u, n, position, littleEndianHost);
    }

    /** `read<T>()`: a typed read at the stream's own cursor. */
    method Read(n: nat, littleEndianHost: bool) returns (v: nat)
      requires Valid()
      requires 0 < n
      requires Align(position).bytes as nat + n <= |data|
      modifies this`position
      ensures v == FromLittleEndian(data[Align(old(position)).bytes..Align(old(position)).bytes as nat + n])
      ensures position == Align(old(position)).(bytes := (Align(old(position)).bytes as int + n) as uint64)
    {
      v, position := ReadAt(n, position, littleEndianHost);
    }
  }

  /**
   * A typed write followed by a typed read from the same starting position
   * returns the value written and ends where the write ended, even when the
   * writing and the reading host differ in byte order.  The start may lie
   * past the end of the buffer, as long as the write fits the grown buffer.
   */
  method WriteThenRead(s: Bitstream, u: nat, n: nat, pos: Position, writerLittleEndian: bool, readerLittleEndian: bool)
    returns (v: nat, afterWrite: Position, afterRead: Position)
    requires s.Valid()
    requires 0 < n && u < Pow256(n)
    requires GrownCapacity(|s.data|, Align(pos).bytes as nat) < UINT64_LIMIT
    requires Align(pos).bytes as nat + n <= GrownCapacity(|s.data|, Align(pos).bytes as nat)
    modifies s
    ensures v == u
    ensures afterRead == afterWrite
  {
    afterWrite := s.WriteAt(u, n, pos, writerLittleEndian);
    ghost var grown := Resized(old(s.data), GrownCapacity(|old(s.data)|, Align(pos).bytes as nat));
    ReadBackWritten(grown, Align(pos).bytes as nat, u, n);
    v, afterRead := s.ReadAt(n, pos, readerLittleEndian);
  }
}
