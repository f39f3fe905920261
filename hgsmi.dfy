/**
 * Host-guest shared memory (HGSMI) buffers of the VirtualBox video driver
 * (drivers/staging/vboxvideo/vbox_hgsmi.c): the one-at-a-time hash, the
 * buffer checksum and the header/data/tail layout written by
 * hgsmi_buffer_alloc.
 *
 * The header and tail structures are the packed little-endian layouts of
 * hgsmi_defs.h (not part of this model): a 16-byte header
 * { u32 data_size; u8 flags; u8 channel; u16 channel_info; u8 header_data[8] }
 * (the 8 bytes are a union whose other members are pairs of u32) and an
 * 8-byte tail { u32 reserved; u32 checksum }.
 */
module Hgsmi {
  import opened Wrappers

  const HEADER_SIZE: int := 16
  const TAIL_SIZE: int := 8
  const HGSMI_BUFFER_HEADER_F_SEQ_SINGLE: byte := 0x00

  newtype byte = x: int | 0 <= x < 0x100

  /** One round of the one-at-a-time hash on one byte, in u32 arithmetic. */
  function HashStep(hash: bv32, b: byte): bv32
  {
    var h1 := hash + (b as bv32);
    var h2 := h1 + (h1 << 10);
    h2 ^ (h2 >> 6)
  }

  /** The hash of a byte string starting from a given hash value. */
  function HashFold(hash: bv32, data: seq<byte>): bv32
    decreases |data|
  {
    if |data| == 0 then hash else HashFold(HashStep(hash, data[0]), data[1..])
  }

  /** hgsmi_hash_process: the byte loop, proved to compute HashFold. */
  method HashProcess(hash0: bv32, data: seq<byte>) returns (hash: bv32)
    ensures hash == HashFold(hash0, data)
  {
    hash := hash0;
    var i := 0;
    while i < |data|
      invariant 0 <= i <= |data|
      invariant HashFold(hash, data[i..]) == HashFold(hash0, data)
    {
      assert data[i..][1..] == data[i + 1..];
      hash := HashStep(hash, data[i]);
      i := i + 1;
    }
  }

  /** Hashing is a left fold: hashing a ++ b continues from the hash of a,
    * and hashing nothing returns the input hash. */
  lemma {:induction false} HashFoldConcat(hash: bv32, a: seq<byte>, b: seq<byte>)
    ensures HashFold(hash, a + b) == HashFold(HashFold(hash, a), b)
    ensures HashFold(hash, []) == hash
    decreases |a|
  {
    if |a| > 0 {
      assert (a + b)[0] == a[0];
      assert (a + b)[1..] == a[1..] + b;
      HashFoldConcat(HashStep(hash, a[0]), a[1..], b);
    } else {
      assert a + b == b;
    }
  }

  /** hgsmi_hash_end: the final avalanche. */
  function HashEnd(hash: bv32): bv32
  {
    var h1 := hash + (hash << 3);
    var h2 := h1 ^ (h1 >> 11);
    h2 + (h2 << 15)
  }

  /** Little-endian byte image of a u32 and of a u16. */
  function Le32(x: int): (r: seq<byte>)
    requires IsU32(x)
    ensures |r| == 4
  {
    [(x % 0x100) as byte, (x / 0x100 % 0x100) as byte, (x / 0x1_0000 % 0x100) as byte, (x / 0x100_0000) as byte]
  }

  function Le16(x: int): (r: seq<byte>)
    requires 0 <= x < U16
    ensures |r| == 2
  {
    [(x % 0x100) as byte, (x / 0x100) as byte]
  }

  function Le32Bv(x: bv32): (r: seq<byte>)
    ensures |r| == 4
  {
    Le32(x as int)
  }

  function FromLe32(b: seq<byte>): (r: int)
    requires |b| == 4
    ensures IsU32(r)
  {
    b[0] as int + 0x100 * b[1] as int + 0x1_0000 * b[2] as int + 0x100_0000 * b[3] as int
  }

  lemma Le32RoundTrip(x: int)
    requires IsU32(x)
    ensures FromLe32(Le32(x)) == x
  {
    var q1 := x / 0x100;
    var q2 := q1 / 0x100;
    var q3 := q2 / 0x100;
    assert x / 0x1_0000 == q2 && x / 0x100_0000 == q3;
    assert x == x % 0x100 + 0x100 * q1;
    assert q1 == q1 % 0x100 + 0x100 * q2;
    assert q2 == q2 % 0x100 + 0x100 * q3;
  }

  datatype Header = Header(dataSize: int, flags: byte, channel: byte, channelInfo: int, headerData: seq<byte>)

  datatype Tail = Tail(reserved: int, checksum: bv32)

  predicate WellFormed(h: Header)
  {
    IsU32(h.dataSize) && 0 <= h.channelInfo < U16 && |h.headerData| == 8
  }

  predicate TailWellFormed(t: Tail)
  {
    IsU32(t.reserved)
  }

  /** The packed byte images of the two structures. */
  function HeaderBytes(h: Header): (r: seq<byte>)
    requires WellFormed(h)
    ensures |r| == HEADER_SIZE
  {
    Le32(h.dataSize) + [h.flags, h.channel] + Le16(h.channelInfo) + h.headerData
  }

  function TailBytes(t: Tail): (r: seq<byte>)
    requires TailWellFormed(t)
    ensures |r| == TAIL_SIZE
  {
    Le32(t.reserved) + Le32Bv(t.checksum)
  }

  /** hgsmi_checksum: the hash of the buffer offset, the whole header and
    * only the first four bytes of the tail. */
  function Checksum(offset: int, h: Header, t: Tail): bv32
    requires IsU32(offset) && WellFormed(h) && TailWellFormed(t)
  {
    var c0 := HashFold(0, Le32(offset));
    var c1 := HashFold(c0, HeaderBytes(h));
    HashEnd(HashFold(c1, TailBytes(t)[..4]))
  }

  /** The checksum covers exactly offset ++ header ++ tail.reserved, so
    * the checksum field itself never feeds into it. */
  lemma ChecksumCoverage(offset: int, h: Header, t: Tail, c: bv32)
    requires IsU32(offset) && WellFormed(h) && TailWellFormed(t)
    ensures Checksum(offset, h, t) == HashEnd(HashFold(0, Le32(offset) + HeaderBytes(h) + Le32(t.reserved)))
    ensures Checksum(offset, h, t) == Checksum(offset, h, t.(checksum := c))
  {
    assert TailBytes(t)[..4] == Le32(t.reserved);
    assert TailBytes(t.(checksum := c))[..4] == Le32(t.reserved);
    HashFoldConcat(0, Le32(offset), HeaderBytes(h));
    HashFoldConcat(0, Le32(offset) + HeaderBytes(h), Le32(t.reserved));
  }

  /** h->data_size = size: the size_t value truncated to u32. */
  function DataSize(size: int): (r: int)
    requires 0 <= size
    ensures IsU32(r) && (size < U32 ==> r == size)
  {
    size % U32
  }

  /** The header hgsmi_buffer_alloc writes for a buffer of `size` bytes. */
  function AllocHeader(size: int, channel: byte, channelInfo: int): (h: Header)
    requires 0 <= size && 0 <= channelInfo < U16
    ensures WellFormed(h) && h.flags == HGSMI_BUFFER_HEADER_F_SEQ_SINGLE
    ensures h.dataSize == DataSize(size) && h.channel == channel && h.channelInfo == channelInfo
    ensures forall i :: 0 <= i < 8 ==> h.headerData[i] == 0
  {
    Header(DataSize(size), HGSMI_BUFFER_HEADER_F_SEQ_SINGLE, channel, channelInfo, seq(8, _ => 0))
  }

  /** Writes a byte string into an array at a position. */
  method WriteBytes(a: array<byte>, at: int, b: seq<byte>)
    requires 0 <= at && at + |b| <= a.Length
    modifies a
    ensures forall k :: 0 <= k < a.Length && !(at <= k < at + |b|) ==> a[k] == old(a[k])
    ensures forall k :: at <= k < at + |b| ==> a[k] == b[k - at]
  {
    var i := 0;
    while i < |b|
      invariant 0 <= i <= |b|
      invariant forall k :: 0 <= k < a.Length && !(at <= k < at + i) ==> a[k] == old(a[k])
      invariant forall k :: at <= k < at + i ==> a[k] == b[k - at]
    {
      a[at + i] := b[i];
      i := i + 1;
    }
  }

  /** A byte string known position by position is the concatenation of its parts. */
  lemma Layout(r: seq<byte>, a: seq<byte>, b: seq<byte>, c: seq<byte>, d: seq<byte>)
    requires |r| == |a| + |b| + |c| + |d|
    requires forall k :: 0 <= k < |a| ==> r[k] == a[k]
    requires forall k :: |a| <= k < |a| + |b| ==> r[k] == b[k - |a|]
    requires forall k :: |a| + |b| <= k < |a| + |b| + |c| ==> r[k] == c[k - |a| - |b|]
    requires forall k :: |a| + |b| + |c| <= k < |r| ==> r[k] == d[k - |a| - |b| - |c|]
    ensures r == a + b + c + d
  {
    assert forall k :: 0 <= k < |r| ==> r[k] == (a + b + c + d)[k];
  }

  /** The stores of hgsmi_buffer_alloc into the reserved region: the
    * header at its start, then tail.reserved = 0 and the checksum right
    * after the `size` data bytes, which are left as they were. */
  method WriteBuffer(region: array<byte>, size: int, h: Header, sum: seq<byte>)
    requires WellFormed(h) && 0 <= size && |sum| == 4
    requires region.Length == size + HEADER_SIZE + TAIL_SIZE
    modifies region
    ensures region[..] == HeaderBytes(h) + old(region[HEADER_SIZE..HEADER_SIZE + size]) + Le32(0) + sum
  {
    ghost var data := region[HEADER_SIZE..HEADER_SIZE + size];
    WriteBytes(region, 0, HeaderBytes(h));
    WriteBytes(region, HEADER_SIZE + size, Le32(0));
    WriteBytes(region, HEADER_SIZE + size + 4, sum);
    Layout(region[..], HeaderBytes(h), data, Le32(0), sum);
  }

  /** hgsmi_buffer_alloc. `region` is what gen_pool_dma_alloc handed out:
    * null on failure, else `size + 24` bytes at virtual address `base` and
    * bus offset `offset`, a dma_addr_t that hgsmi_checksum's u32 parameter
    * truncates. The result is the address of the data area. */
  method BufferAlloc(region: array?<byte>, base: int, offset: int, size: int, channel: byte, channelInfo: int)
    returns (p: Option<int>)
    requires 0 <= size && 0 <= offset && 0 <= channelInfo < U16
    requires region != null ==> region.Length == size + HEADER_SIZE + TAIL_SIZE
    modifies region
    ensures region == null ==> p == None
    ensures region != null ==>
      var h := AllocHeader(size, channel, channelInfo);
      var t := Tail(0, Checksum(ToU32(offset), h, Tail(0, 0)));
      && p == Some(base + HEADER_SIZE)
      && region[..] == HeaderBytes(h) + old(region[HEADER_SIZE..HEADER_SIZE + size]) + TailBytes(t)
  {
    if region == null {
      return None;
    }
    var h := AllocHeader(size, channel, channelInfo);
    var sum := Checksum(ToU32(offset), h, Tail(0, 0));
    WriteBuffer(region, size, h, Le32Bv(sum));
    p := Some(base + HEADER_SIZE);
  }

  /** hgsmi_buffer_free: from the data address, the header address and
    * the total size recomputed from the header's data_size. */
  function BufferFree(buf: int, headerBytes: seq<byte>): (r: (int, int))
    requires |headerBytes| == HEADER_SIZE
  {
    (buf - HEADER_SIZE, FromLe32(headerBytes[..4]) + HEADER_SIZE + TAIL_SIZE)
  }

  /** Freeing what hgsmi_buffer_alloc returned releases the same region it
    * reserved, header first, and the stored tail is placed right after the
    * data and carries the checksum of the buffer. */
  lemma AllocFreeRoundTrip(base: int, offset: int, size: int, channel: byte, channelInfo: int, data: seq<byte>)
    requires 0 <= size < U32 && |data| == size && 0 <= offset && 0 <= channelInfo < U16
    ensures var h := AllocHeader(size, channel, channelInfo);
      var t := Tail(0, Checksum(ToU32(offset), h, Tail(0, 0)));
      var image := HeaderBytes(h) + data + TailBytes(t);
      && BufferFree(base + HEADER_SIZE, image[..HEADER_SIZE]) == (base, size + HEADER_SIZE + TAIL_SIZE)
      && image[HEADER_SIZE + size..] == TailBytes(t)
      && t.checksum == Checksum(ToU32(offset), h, t)
  {
    var h := AllocHeader(size, channel, channelInfo);
    var t := Tail(0, Checksum(ToU32(offset), h, Tail(0, 0)));
    var image := HeaderBytes(h) + data + TailBytes(t);
    assert image[..HEADER_SIZE][..4] == Le32(h.dataSize);
    Le32RoundTrip(h.dataSize);
    assert image[HEADER_SIZE + size..] == TailBytes(t);
    ChecksumCoverage(ToU32(offset), h, Tail(0, 0), t.checksum);
  }
}
