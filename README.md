# PCCBitstream buffer and cursor — a verified Dafny model

This project models the part of the point-cloud codec's bitstream buffer
(`PCCBitstream`, declared in `source/lib/PccLibCommon/include/PCCBitstream.h`)
whose behaviour the header defines inline:

- the cursor record `PCCBistreamPosition` (a byte offset and a bit offset) and
  `byteAligned`;
- the byte buffer `data_`: `initialize(capacity)` (resize with zero fill),
  `capacity()`, `size()` (a reference to the cursor's byte offset),
  `getPosition()`, `operator+=` (move the cursor) and the private `realloc`,
  which grows the buffer in 4096-byte chunks;
- the deprecated fixed-width typed `write<T>(u, pos)` / `read<T>(pos)` and
  their wrappers on the stream's own cursor. They copy the `sizeof(T)` bytes
  of an unsigned value through a union into or out of the buffer, one loop
  per host byte order.

Two files:

- `ByteOrder.dfy` (module `ByteOrder`) defines the bytes of an n-byte unsigned
  value, least significant first (`LittleEndian`) and most significant first
  (`BigEndian`), and their decoders. It proves that each decoder inverts its
  encoder and that the big-endian image is the little-endian one mirrored. The
  union `{ T u; uint8_t u8[sizeof(T)]; }` is modelled by `HostLayout` (the
  bytes the host stores for `u`) and `HostValue` (the `u` a host reads from
  given bytes). The host byte order is a boolean parameter, `littleEndianHost`.
- `Bitstream.dfy` (module `BitstreamBuffer`) holds the `Position` datatype,
  the pure descriptions of resizing, chunk growth and overwriting, and the
  class `Bitstream`. The class has the fields `data: seq<uint8>`, `position`
  and `totalSizeIterator`, and its methods update them in place as the C++
  members do.

The main results:

- The typed write stores byte k of the value's least-significant-first image
  at the aligned offset plus k, on a little-endian and on a big-endian host
  alike. So the stream byte order does not depend on the host.
- The typed write changes only those bytes, apart from the zero-filled growth.
  It grows the buffer only when the aligned offset is within 16 bytes of the
  end, and then by exactly 8192 bytes.
- The typed read from the same position returns the value written and ends
  at the same position. This holds even when the writing host and the reading
  host differ in byte order.

`T` is an unsigned type of `n = sizeof(T)` bytes holding a value `u < 256^n`.
`uint64_t` offsets are the newtype `uint64`. The wrap-around of
`position_.bytes += size` in `operator+=` is written out. Two other
expressions of the header that can wrap are computed without wrap: see the
`ChunkGrowth` and `GrownCapacity` lines under "## Left out".

The header declares `align(pos)` without a body. The model defines `Align` to
move a position inside a byte to the start of the next byte, and to leave an
aligned position where it is. Every property of `WriteAt`, `ReadAt` and
`WriteThenRead` holds for any deterministic `Align`: they only use the fact
that the write and the read align the same position to the same result.

`initialize(capacity)` sets any size and `realloc` adds a multiple of 4096 to
it, so capacities are not rounded to a multiple of 4096.

## Model

| member | source | states |
|---|---|---|
| `BitstreamBuffer.Position.ByteAligned` | source/lib/PccLibCommon/include/PCCBitstream.h:42-45 | a position record is a 64-bit byte offset and an 8-bit bit offset; it is byte-aligned exactly when its bit offset is 0 |
| `BitstreamBuffer.Advanced` | source/lib/PccLibCommon/include/PCCBitstream.h:69-72 | moving the cursor by `size` keeps the bit offset; the byte offset grows by exactly `size` when the sum fits in 64 bits and wraps modulo 2^64 otherwise |
| `BitstreamBuffer.Align` | source/lib/PccLibCommon/include/PCCBitstream.h:179 | the aligned position is byte-aligned; an aligned position is unchanged; otherwise the byte offset moves one byte on (with 64-bit wrap) |
| `BitstreamBuffer.Resized` | source/lib/PccLibCommon/include/PCCBitstream.h:62 | resizing to n bytes gives exactly n bytes: bytes below the old size are kept and every added byte is 0 |
| `BitstreamBuffer.ChunkGrowth` | source/lib/PccLibCommon/include/PCCBitstream.h:180-183 | the amount `realloc(size)` adds is a multiple of 4096, strictly more than `size` and at most `size + 4096`: the least multiple of 4096 above `size` |
| `BitstreamBuffer.GrownCapacity` | source/lib/PccLibCommon/include/PCCBitstream.h:138 | a typed write grows the buffer exactly when `pos.bytes + 16 >= capacity`, and then by 8192 bytes (one default `realloc`); if the aligned offset is at most the capacity, at least 16 bytes are available from it, so every write of up to 16 bytes stays in bounds |
| `BitstreamBuffer.Overwrite` | source/lib/PccLibCommon/include/PCCBitstream.h:140-142 | storing a byte run at an offset keeps the length; the bytes in the run are replaced and every other byte is unchanged |
| `BitstreamBuffer.ReadBackWritten` | source/lib/PccLibCommon/include/PCCBitstream.h:130-165 | decoding the bytes a typed write stored at an offset gives the value written |
| `BitstreamBuffer.Bitstream.constructor` | source/lib/PccLibCommon/include/PCCBitstream.h:58 | a new stream has an empty buffer and both cursors at byte 0, bit 0 |
| `BitstreamBuffer.Bitstream.Initialize` | source/lib/PccLibCommon/include/PCCBitstream.h:62 | `initialize(c)` makes the buffer the old one resized to `c` with zero fill, so `capacity()` is `c`; the cursor is untouched |
| `BitstreamBuffer.Bitstream.Size` | source/lib/PccLibCommon/include/PCCBitstream.h:66 | `size()` reports the cursor's byte offset |
| `BitstreamBuffer.Bitstream.SetSize` | source/lib/PccLibCommon/include/PCCBitstream.h:66 | assigning through the reference `size()` returns sets the cursor's byte offset and nothing else |
| `BitstreamBuffer.Bitstream.Capacity` | source/lib/PccLibCommon/include/PCCBitstream.h:67 | `capacity()` reports the number of bytes in the buffer |
| `BitstreamBuffer.Bitstream.GetPosition` | source/lib/PccLibCommon/include/PCCBitstream.h:68 | `getPosition()` returns the cursor |
| `BitstreamBuffer.Bitstream.Advance` | source/lib/PccLibCommon/include/PCCBitstream.h:69-72 | `operator+=(s)` moves the cursor's byte offset on by `s` (mod 2^64); its bit offset and the buffer are unchanged |
| `BitstreamBuffer.Bitstream.ByteAligned` | source/lib/PccLibCommon/include/PCCBitstream.h:89 | `byteAligned()` holds exactly when the cursor's bit offset is 0 |
| `BitstreamBuffer.Bitstream.Realloc` | source/lib/PccLibCommon/include/PCCBitstream.h:180-183 | `realloc(size)` lengthens the buffer by `((size/4096)+1)*4096` zero bytes and keeps every stored byte |
| `BitstreamBuffer.Bitstream.WriteAt` | source/lib/PccLibCommon/include/PCCBitstream.h:130-147 | on either host byte order, the buffer becomes the grown old buffer with the value's least-significant-first bytes stored at the aligned offset and nothing else changed; the returned position is the aligned one moved on by `sizeof(T)` bytes |
| `BitstreamBuffer.Bitstream.ReadAt` | source/lib/PccLibCommon/include/PCCBitstream.h:148-165 | on either host byte order, the value read is the one whose least-significant-first image is the `sizeof(T)` bytes at the aligned offset; the returned position is the aligned one moved on by `sizeof(T)` bytes; the buffer is not modified (bytes must lie inside the buffer: no check, no growth) |
| `BitstreamBuffer.Bitstream.Write` | source/lib/PccLibCommon/include/PCCBitstream.h:166-169 | the typed write at the stream's own cursor, with the same effect on the buffer, and the cursor advanced past the written bytes |
| `BitstreamBuffer.Bitstream.Read` | source/lib/PccLibCommon/include/PCCBitstream.h:170-173 | the typed read at the stream's own cursor, with the cursor advanced past the bytes read |
| `BitstreamBuffer.WriteThenRead` | source/lib/PccLibCommon/include/PCCBitstream.h:130-173 | a typed write and a typed read from the same position return the written value and end at the same position, even when writer and reader hosts differ in byte order |
| `ByteOrder.LittleEndianRoundTrip` | source/lib/PccLibCommon/include/PCCBitstream.h:139-143 | decoding the least-significant-first bytes of a value below 256^n gives the value back |
| `ByteOrder.FromLittleEndianRoundTrip` | source/lib/PccLibCommon/include/PCCBitstream.h:155-159 | every byte run is the least-significant-first image of the value it decodes to |
| `ByteOrder.BigEndianRoundTrip` | source/lib/PccLibCommon/include/PCCBitstream.h:155-159 | decoding the most-significant-first bytes of a value below 256^n gives the value back |
| `ByteOrder.BigEndianMirrorsLittleEndian` | source/lib/PccLibCommon/include/PCCBitstream.h:139-143 | byte k of the big-endian image is byte n-1-k of the little-endian image |
| `ByteOrder.StreamByteIndependentOfHost` | source/lib/PccLibCommon/include/PCCBitstream.h:139-143 | the byte the write loop sends to offset k (`u8[k]` on a little-endian host, `u8[sizeof(T)-k-1]` on a big-endian one) is byte k of the least-significant-first image on both hosts |
| `ByteOrder.HostLayout` | source/lib/PccLibCommon/include/PCCBitstream.h:133-137 | the union's `u8` bytes after `source.u = u`: `sizeof(T)` of them, the little-endian image on a little-endian host and the big-endian image on a big-endian one; `HostLayoutRoundTrip` and `StreamByteIndependentOfHost` state what they mean |
| `ByteOrder.HostValue` | source/lib/PccLibCommon/include/PCCBitstream.h:151-154 | the value `dest.u` the union holds once its `u8` bytes are set: it fits in `sizeof(T)` bytes; `HostLayoutRoundTrip` states it inverts `HostLayout` on the same host |
| `ByteOrder.HostLayoutRoundTrip` | source/lib/PccLibCommon/include/PCCBitstream.h:133-137 | storing a value into the union and reading it back on the same host gives the value |

## Left out

- Tracing (`TRACE_BITSTREAM`, `trace`, `traceNH`, `setTrace`, `openTrace`, `closeTrace` and the `fprintf` calls): console and file output with no effect on the buffer or the cursor.
- File persistence, `initialize(std::string)` and `write(std::string)`: file I/O, and their bodies are not in the header.
- The bit-level `write(value, bits)` / `read(bits)`, the Exp-Golomb `writeUvlc`, `readUvlc`, `writeSvlc` and `readSvlc`, `readHeader`, `writeHeader`, `writeBuffer`, the `PCCVideoBitstream` read and write, `initialize(const PCCBitstream&)` and the destructor: only declared in the header. Their bodies live in `PCCBitstream.cpp`, which is not part of this model.
- `align(pos)`: only declared in the header. `Align` moves a position inside a byte to the start of the next byte and leaves an aligned one where it is; no property of the typed write and read depends on that choice.
- `PCCBitstream()`: only declared. The constructor assumes an empty buffer and zeroed cursors.
- `PCCSystemEndianness()`: a call into code outside the header. It becomes the boolean parameter `littleEndianHost`.
- `buffer()`: it hands out a raw pointer to the vector's storage. Aliasing through it is not modelled.
- The union type punning itself: its effect is modelled by `HostLayout` and `HostValue`, built by explicit byte extraction and assembly.
- `T` other than an unsigned integer: the model covers values of n bytes below 256^n. Signed, floating-point and structured `T` are not modelled.
- `totalSizeIterator_`: kept as a field. The inline code never reads or changes it.
- Allocation failure in `resize`: it is fatal in the source and is not modelled.
- `BitstreamBuffer.ChunkGrowth`: computed without `size_t` wrap. In the source, `((size/4096)+1)*4096` wraps to 0 when `size >= 2^64 - 4096`, and `realloc` then adds nothing. The only caller in the header passes the default 4096.
- `BitstreamBuffer.GrownCapacity`: computed without `uint64_t` wrap. In the source, `pos.bytes + 16` wraps when `pos.bytes >= 2^64 - 16`, and `realloc` is then skipped.
- `BitstreamBuffer.Bitstream.Realloc`: requires the grown size to fit in 64 bits. This excludes the wrap of `data_.size() + ...` for buffers near 2^64 bytes. It also excludes the wrap of `ChunkGrowth` for a huge `size`, even on a small buffer.
- `BitstreamBuffer.Bitstream.WriteAt`: requires the grown buffer to fit in 64 bits, for the same reason. It also requires the written bytes to lie inside the grown buffer, because the source writes out of bounds otherwise. That cannot happen when the aligned offset is inside the buffer and `sizeof(T) <= 16` (see `GrownCapacity`).
- `BitstreamBuffer.Bitstream.Write`: the same two requirements as `WriteAt`, at the stream's own cursor.
- `BitstreamBuffer.Bitstream.ReadAt`: requires the bytes read to lie inside the buffer. The source does not check bounds on a read and does not grow the buffer, so a read past the end is undefined behaviour. The model does not describe it.
- `BitstreamBuffer.Bitstream.Read`: the same requirement as `ReadAt`, at the stream's own cursor.
