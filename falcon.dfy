/**
 * The Falcon microcontroller helper of the Tegra DRM driver
 * (drivers/gpu/drm/tegra/falcon.c): checking and decoding the firmware
 * image's headers, copying the image into the DMA buffer, falcon_init,
 * falcon_load_firmware, falcon_exit, and the register writes of
 * falcon_boot with its 256-byte chunked copy of the data segment.
 *
 * Register writes are an append-only log. The DMA buffer is an array of
 * bytes; the CPU is little-endian, so le32_to_cpu leaves the bytes as
 * they are. Whether request_firmware and the buffer allocation succeed,
 * the address the allocator hands out and the outcome of the idle polls
 * are inputs. Register offsets and bits, and the header layouts, are
 * those of drivers/gpu/drm/tegra/falcon.h, which is not part of this
 * model.
 */
module Falcon {
  import opened Wrappers

  const PciVendorIdNvidia: int := 0x10de

  // Registers and their bits.
  const RegIrqmset: int := 0x1010
  const RegIrqdest: int := 0x101c
  const RegItfen: int := 0x1048
  const RegCpuctl: int := 0x1100
  const RegBootvec: int := 0x1104
  const RegDmactl: int := 0x110c
  const RegDmatrfbase: int := 0x1110
  const RegDmatrfmoffs: int := 0x1114
  const RegDmatrfcmd: int := 0x1118
  const RegDmatrffboffs: int := 0x111c

  const DmatrfcmdImem: nat := 0x10
  const DmatrfcmdSize256B: nat := 0x600
  /** FALCON_IRQMSET_EXT(0xff) | SWGEN1 | SWGEN0 | EXTERR | HALT | WDTMR. */
  const IrqmsetValue: nat := 0xff00 + 0x80 + 0x40 + 0x20 + 0x10 + 0x2
  /** FALCON_IRQDEST_EXT(0xff) | SWGEN1 | SWGEN0 | EXTERR | HALT. */
  const IrqdestValue: nat := 0xff00 + 0x80 + 0x40 + 0x20 + 0x10
  /** FALCON_ITFEN_MTHDEN | FALCON_ITFEN_CTXEN. */
  const ItfenValue: nat := 0x2 + 0x1
  const CpuctlStartcpu: nat := 0x2

  /** The size of struct falcon_fw_bin_header_v1: seven 32-bit words. */
  const BinHeaderSize: nat := 28
  /** The size of struct falcon_fw_os_header_v1: four 32-bit words. */
  const OsHeaderSize: nat := 16
  /** The bytes one DMA transfer command moves. */
  const ChunkSize: nat := 256

  // ---------------------------------------------------------------
  // Little-endian words
  // ---------------------------------------------------------------

  /** The value of four bytes, least significant first. */
  function Le32(b: seq<int>): int
    requires |b| == 4
  {
    b[0] + 256 * (b[1] + 256 * (b[2] + 256 * b[3]))
  }

  /** The 32-bit word at byte offset `off` of the buffer. */
  function WordAt(mem: seq<int>, off: int): int
    requires 0 <= off && off + 4 <= |mem|
  {
    Le32(mem[off..off + 4])
  }

  /** The four bytes of a 32-bit value, least significant first. */
  function LeBytes(x: nat): (r: seq<int>)
    requires x < U32
    ensures |r| == 4 && forall i :: 0 <= i < 4 ==> 0 <= r[i] < 256
  {
    [x % 256, (x / 256) % 256, (x / 256 / 256) % 256, x / 256 / 256 / 256]
  }

  /** Reading the bytes of a value gives the value. */
  lemma LeRoundTrip(x: nat)
    requires x < U32
    ensures Le32(LeBytes(x)) == x
  {
    var q1 := x / 256;
    var q2 := q1 / 256;
    assert q2 % 256 + 256 * (q2 / 256) == q2;
    assert q1 % 256 + 256 * q2 == q1;
    assert x % 256 + 256 * q1 == x;
  }

  predicate AllU32(ws: seq<int>) {
    forall i :: 0 <= i < |ws| ==> 0 <= ws[i] < U32
  }

  /** The bytes of a sequence of words. */
  function Words(ws: seq<int>): (r: seq<int>)
    requires AllU32(ws)
    ensures |r| == 4 * |ws|
  {
    if |ws| == 0 then [] else LeBytes(ws[0]) + Words(ws[1..])
  }

  /** Word i of the bytes of a word sequence is that word's bytes. */
  lemma {:induction false} WordsSlice(ws: seq<int>, i: nat)
    requires AllU32(ws) && i < |ws|
    ensures Words(ws)[4 * i..4 * i + 4] == LeBytes(ws[i])
  {
    if i > 0 {
      WordsSlice(ws[1..], i - 1);
      SliceAfter(LeBytes(ws[0]), Words(ws[1..]), 4 * (i - 1), 4);
    }
  }

  /** A slice that lies after the first part of a concatenation. */
  lemma SliceAfter<T>(a: seq<T>, b: seq<T>, k: nat, n: nat)
    requires k + n <= |b|
    ensures (a + b)[|a| + k..|a| + k + n] == b[k..k + n]
  {
    var c := a + b;
    assert c[|a|..] == b;
    assert c[|a| + k..|a| + k + n] == c[|a|..][k..k + n];
  }

  /** Reading word i out of a buffer that holds a word sequence at offset
    * |pre| gives word i. */
  lemma ReadWord(pre: seq<int>, ws: seq<int>, post: seq<int>, i: nat)
    requires AllU32(ws) && i < |ws|
    ensures |pre| + 4 * i + 4 <= |pre + Words(ws) + post|
    ensures WordAt(pre + Words(ws) + post, |pre| + 4 * i) == ws[i]
  {
    var mem := pre + Words(ws) + post;
    WordsSlice(ws, i);
    assert mem[|pre| + 4 * i..|pre| + 4 * i + 4] == Words(ws)[4 * i..4 * i + 4];
    LeRoundTrip(ws[i]);
  }

  // ---------------------------------------------------------------
  // Headers
  // ---------------------------------------------------------------

  /** struct falcon_fw_bin_header_v1. */
  datatype BinHeader = BinHeader(magic: int, version: int, size: int, headerSize: int,
                                 osHeaderOffset: int, osDataOffset: int, osSize: int)

  /** struct falcon_fw_os_header_v1. */
  datatype OsHeader = OsHeader(codeOffset: int, codeSize: int, dataOffset: int, dataSize: int)

  /** A falcon_firmware_section: where a segment lies and how long it is. */
  datatype Section = Section(offset: int, size: int)

  /** The descriptors falcon_parse_firmware_image fills in. */
  datatype Layout = Layout(binData: Section, code: Section, data: Section)

  /** falcon_parse_firmware_image's outcome: the descriptors, or -EINVAL. */
  datatype ParseResult = Parsed(layout: Layout) | Invalid

  function ReadBin(mem: seq<int>): BinHeader
    requires |mem| >= BinHeaderSize
  {
    BinHeader(WordAt(mem, 0), WordAt(mem, 4), WordAt(mem, 8), WordAt(mem, 12),
              WordAt(mem, 16), WordAt(mem, 20), WordAt(mem, 24))
  }

  /** The three checks on the binary header, against the image size. */
  predicate BinHeaderOk(bin: BinHeader, size: int) {
    bin.magic == PciVendorIdNvidia && bin.version == 1 && bin.size <= size
  }

  /** The buffer holds the binary header, and the OS header too when the
    * checks pass, since the code reads both without bounds checks. */
  predicate Readable(mem: seq<int>) {
    |mem| >= BinHeaderSize &&
    (BinHeaderOk(ReadBin(mem), |mem|) ==>
       0 <= ReadBin(mem).osHeaderOffset && ReadBin(mem).osHeaderOffset + OsHeaderSize <= |mem|)
  }

  function ReadOs(mem: seq<int>, off: nat): OsHeader
    requires off + OsHeaderSize <= |mem|
  {
    OsHeader(WordAt(mem, off), WordAt(mem, off + 4), WordAt(mem, off + 8), WordAt(mem, off + 12))
  }

  /**
    * falcon_parse_firmware_image on the buffer: -EINVAL unless the magic
    * is NVIDIA's PCI vendor id, the version is 1 and the declared size
    * fits in the image; then the descriptors are taken from the OS
    * header the binary header points to.
    */
  function ParseImage(mem: seq<int>): (r: ParseResult)
    requires Readable(mem)
    ensures r.Invalid? <==>
              WordAt(mem, 0) != PciVendorIdNvidia || WordAt(mem, 4) != 1 || WordAt(mem, 8) > |mem|
    ensures r.Parsed? ==> r.layout.binData == Section(WordAt(mem, 20), WordAt(mem, 24))
  {
    var bin := ReadBin(mem);
    if !BinHeaderOk(bin, |mem|) then Invalid
    else
      var os := ReadOs(mem, bin.osHeaderOffset);
      Parsed(Layout(Section(bin.osDataOffset, bin.osSize),
                    Section(os.codeOffset, os.codeSize),
                    Section(os.dataOffset, os.dataSize)))
  }

  function BinWords(bin: BinHeader): seq<int> {
    [bin.magic, bin.version, bin.size, bin.headerSize, bin.osHeaderOffset, bin.osDataOffset, bin.osSize]
  }

  function OsWords(os: OsHeader): seq<int> {
    [os.codeOffset, os.codeSize, os.dataOffset, os.dataSize]
  }

  /** An image laid out as the firmware build writes it: the binary
    * header, a gap, the OS header, then the payload. */
  function Image(bin: BinHeader, gap: seq<int>, os: OsHeader, payload: seq<int>): seq<int>
    requires AllU32(BinWords(bin)) && AllU32(OsWords(os))
  {
    Words(BinWords(bin)) + gap + Words(OsWords(os)) + payload
  }

  /** A well-formed image parses to the descriptors its OS header and the
    * binary header's OS data fields describe. */
  lemma ParseOfImage(bin: BinHeader, gap: seq<int>, os: OsHeader, payload: seq<int>)
    requires AllU32(BinWords(bin)) && AllU32(OsWords(os))
    requires bin.osHeaderOffset == BinHeaderSize + |gap|
    requires BinHeaderOk(bin, |Image(bin, gap, os, payload)|)
    ensures Readable(Image(bin, gap, os, payload))
    ensures ParseImage(Image(bin, gap, os, payload)) ==
              Parsed(Layout(Section(bin.osDataOffset, bin.osSize),
                            Section(os.codeOffset, os.codeSize),
                            Section(os.dataOffset, os.dataSize)))
  {
    ImageBin(bin, gap, os, payload);
    ImageOs(bin, gap, os, payload);
  }

  /** The binary header reads back from an image. */
  lemma ImageBin(bin: BinHeader, gap: seq<int>, os: OsHeader, payload: seq<int>)
    requires AllU32(BinWords(bin)) && AllU32(OsWords(os))
    ensures |Image(bin, gap, os, payload)| >= BinHeaderSize
    ensures ReadBin(Image(bin, gap, os, payload)) == bin
  {
    var mem := Image(bin, gap, os, payload);
    var rest := gap + Words(OsWords(os)) + payload;
    assert mem == [] + Words(BinWords(bin)) + rest;
    ReadWord([], BinWords(bin), rest, 0);
    ReadWord([], BinWords(bin), rest, 1);
    ReadWord([], BinWords(bin), rest, 2);
    ReadWord([], BinWords(bin), rest, 3);
    ReadWord([], BinWords(bin), rest, 4);
    ReadWord([], BinWords(bin), rest, 5);
    ReadWord([], BinWords(bin), rest, 6);
  }

  /** The OS header reads back from an image, right after the gap. */
  lemma ImageOs(bin: BinHeader, gap: seq<int>, os: OsHeader, payload: seq<int>)
    requires AllU32(BinWords(bin)) && AllU32(OsWords(os))
    ensures BinHeaderSize + |gap| + OsHeaderSize <= |Image(bin, gap, os, payload)|
    ensures ReadOs(Image(bin, gap, os, payload), BinHeaderSize + |gap|) == os
  {
    var mem := Image(bin, gap, os, payload);
    var pre := Words(BinWords(bin)) + gap;
    assert mem == pre + Words(OsWords(os)) + payload;
    ReadWord(pre, OsWords(os), payload, 0);
    ReadWord(pre, OsWords(os), payload, 1);
    ReadWord(pre, OsWords(os), payload, 2);
    ReadWord(pre, OsWords(os), payload, 3);
  }

  /** An image whose magic is not NVIDIA's is rejected whatever else it
    * holds. */
  lemma WrongMagicRejected(bin: BinHeader, gap: seq<int>, os: OsHeader, payload: seq<int>)
    requires AllU32(BinWords(bin)) && AllU32(OsWords(os))
    requires bin.magic != PciVendorIdNvidia
    ensures Readable(Image(bin, gap, os, payload))
    ensures ParseImage(Image(bin, gap, os, payload)).Invalid?
  {
    var mem := Image(bin, gap, os, payload);
    assert mem == [] + Words(BinWords(bin)) + (gap + Words(OsWords(os)) + payload);
    ReadWord([], BinWords(bin), gap + Words(OsWords(os)) + payload, 0);
  }

  // ---------------------------------------------------------------
  // DMA transfer commands
  // ---------------------------------------------------------------

  /** The Falcon memories a chunk can be copied into. */
  datatype Target = Imem | Data

  /** An MMIO register write. */
  datatype Write = Write(reg: int, value: nat)

  /** The transfer command of falcon_copy_chunk: a 256-byte transfer, with
    * the IMEM bit for IMEM and only for IMEM. */
  function ChunkCmd(target: Target): (r: nat)
    ensures (r / 256) % 8 == 6
    ensures Bit(r, 4) <==> target == Imem
  {
    if target == Imem then DmatrfcmdSize256B + DmatrfcmdImem else DmatrfcmdSize256B
  }

  /** falcon_copy_chunk's writes: the offset in Falcon memory, the offset
    * in the DMA buffer (both through falcon_writel's u32), the command. */
  function ChunkWrites(base: int, offset: int, target: Target): (r: seq<Write>)
    ensures |r| == 3 && r[2] == Write(RegDmatrfcmd, ChunkCmd(target))
    ensures r[0] == Write(RegDmatrfmoffs, ToU32(offset)) && r[1] == Write(RegDmatrffboffs, ToU32(base))
  {
    [Write(RegDmatrfmoffs, ToU32(offset)), Write(RegDmatrffboffs, ToU32(base)),
     Write(RegDmatrfcmd, ChunkCmd(target))]
  }

  /** The writes falcon_boot's data loop makes from `offset` on. */
  function DataChunks(dataOffset: int, size: int, offset: int): seq<Write>
    decreases size - offset
  {
    if offset >= size then []
    else ChunkWrites(dataOffset + offset, offset, Data) + DataChunks(dataOffset, size, offset + ChunkSize)
  }

  /** The number of 256-byte chunks that cover n bytes. */
  function NumChunks(n: int): nat {
    if n <= 0 then 0 else (n + ChunkSize - 1) / ChunkSize
  }

  /** The data loop copies as many chunks as cover the segment. */
  lemma {:induction false} DataChunksLength(dataOffset: int, size: int, offset: int)
    ensures |DataChunks(dataOffset, size, offset)| == 3 * NumChunks(size - offset)
    decreases size - offset
  {
    if offset < size {
      DataChunksLength(dataOffset, size, offset + ChunkSize);
    }
  }

  /** Chunk j of the data loop copies the 256 bytes at offset + 256 j of
    * the segment to the same offset in Falcon memory. */
  lemma {:induction false} DataChunkAt(dataOffset: int, size: int, offset: int, j: nat)
    requires offset + ChunkSize * j < size
    ensures 3 * j + 3 <= |DataChunks(dataOffset, size, offset)|
    ensures DataChunks(dataOffset, size, offset)[3 * j..3 * j + 3] ==
              ChunkWrites(dataOffset + offset + ChunkSize * j, offset + ChunkSize * j, Data)
    decreases j
  {
    var rest := DataChunks(dataOffset, size, offset + ChunkSize);
    var all := DataChunks(dataOffset, size, offset);
    assert all == ChunkWrites(dataOffset + offset, offset, Data) + rest;
    if j > 0 {
      DataChunkAt(dataOffset, size, offset + ChunkSize, j - 1);
      assert all[3 * j..3 * j + 3] == rest[3 * (j - 1)..3 * (j - 1) + 3];
    }
  }

  /** No command of the data loop carries the IMEM bit. */
  lemma {:induction false} DataChunksNoImem(dataOffset: int, size: int, offset: int)
    ensures forall w :: w in DataChunks(dataOffset, size, offset) && w.reg == RegDmatrfcmd ==>
              w.value == ChunkCmd(Data) && !Bit(w.value, 4)
    decreases size - offset
  {
    if offset < size {
      DataChunksNoImem(dataOffset, size, offset + ChunkSize);
    }
  }

  lemma Assoc<T>(a: seq<T>, b: seq<T>, c: seq<T>)
    ensures a + (b + c) == (a + b) + c
  {
  }

  /** falcon_boot's data loop: one chunk per 256 bytes of the segment. */
  method CopyDataSegment(dataOffset: int, size: int) returns (w: seq<Write>)
    ensures w == DataChunks(dataOffset, size, 0)
  {
    w := [];
    var offset := 0;
    while offset < size
      invariant offset >= 0
      invariant w + DataChunks(dataOffset, size, offset) == DataChunks(dataOffset, size, 0)
      decreases size - offset
    {
      var step := ChunkWrites(dataOffset + offset, offset, Data);
      Assoc(w, step, DataChunks(dataOffset, size, offset + ChunkSize));
      w := w + step;
      offset := offset + ChunkSize;
    }
    assert w + [] == w;
  }

  /** The writes of falcon_boot once the buffer exists: DMA control off,
    * the DMA base of the binary data, the data segment chunk by chunk,
    * the first code chunk into IMEM, the interrupt masks and routing,
    * the interface enables, the boot vector and the CPU start. */
  function BootWrites(paddr: int, layout: Layout): seq<Write> {
    [Write(RegDmactl, 0), Write(RegDmatrfbase, ToU32(((paddr + layout.binData.offset) % U64) / 256))] +
    DataChunks(layout.data.offset, layout.data.size, 0) +
    ChunkWrites(layout.code.offset, 0, Imem) +
    [Write(RegIrqmset, IrqmsetValue), Write(RegIrqdest, IrqdestValue), Write(RegItfen, ItfenValue),
     Write(RegBootvec, 0), Write(RegCpuctl, CpuctlStartcpu)]
  }

  /** Exactly one transfer command of a boot targets IMEM: the code chunk,
    * right after the data chunks. */
  lemma BootImemOnce(paddr: int, layout: Layout)
    ensures var w := BootWrites(paddr, layout);
            var k := 2 + 3 * NumChunks(layout.data.size) + 2;
            k < |w| && w[k] == Write(RegDmatrfcmd, ChunkCmd(Imem)) && Bit(w[k].value, 4) &&
            forall i :: 0 <= i < |w| && i != k && w[i].reg == RegDmatrfcmd ==> !Bit(w[i].value, 4)
  {
    var d := DataChunks(layout.data.offset, layout.data.size, 0);
    DataChunksLength(layout.data.offset, layout.data.size, 0);
    DataChunksNoImem(layout.data.offset, layout.data.size, 0);
    var w := BootWrites(paddr, layout);
    var c := ChunkWrites(layout.code.offset, 0, Imem);
    forall i | 0 <= i < |w| && i != 2 + |d| + 2 && w[i].reg == RegDmatrfcmd
      ensures !Bit(w[i].value, 4)
    {
      if 2 <= i < 2 + |d| {
        assert w[i] == d[i - 2];
        assert w[i] in d;
      }
    }
  }

  // ---------------------------------------------------------------
  // The Falcon
  // ---------------------------------------------------------------

  /** The ops table a driver hands in; absent callbacks are false. */
  datatype Ops = Ops(hasAlloc: bool, hasFree: bool)

  /** A call of ops->free, with the size and the DMA address it was given. */
  datatype FreeCall = FreeCall(size: int, paddr: int)

  /** The bytes copy_firmware_image leaves in a buffer of |blob| bytes
    * that started zeroed: every whole word of the blob. */
  function Copied(blob: seq<int>): (r: seq<int>)
    ensures |r| == |blob|
  {
    blob[..4 * (|blob| / 4)] + seq(|blob| - 4 * (|blob| / 4), _ => 0)
  }

  class Falcon {
    var ops: Option<Ops>
    /** falcon->firmware.firmware: the blob request_firmware handed over. */
    var firmware: Option<seq<int>>
    /** falcon->firmware.vaddr: the DMA buffer, or NULL. */
    var vaddr: array?<int>
    var size: int
    var paddr: int
    var layout: Layout
    /** Every register write, in order. */
    var mmio: seq<Write>
    /** Every ops->free call, in order. */
    var frees: seq<FreeCall>

    constructor (ops: Option<Ops>)
      ensures this.ops == ops && firmware.None? && vaddr == null
      ensures mmio == [] && frees == []
    {
      this.ops := ops;
      firmware := None;
      vaddr := null;
      size, paddr := 0, 0;
      layout := Layout(Section(0, 0), Section(0, 0), Section(0, 0));
      mmio, frees := [], [];
    }

    /** falcon_init: -EINVAL without ops, alloc or free; otherwise no
      * buffer yet. */
    method Init() returns (err: int)
      modifies this
      ensures err == -EINVAL <==> (ops.None? || !ops.value.hasAlloc || !ops.value.hasFree)
      ensures err == 0 || err == -EINVAL
      ensures err == 0 ==> vaddr == null
      ensures err != 0 ==> vaddr == old(vaddr)
      ensures ops == old(ops) && firmware == old(firmware) && mmio == old(mmio) && frees == old(frees)
    {
      if ops.None? || !ops.value.hasAlloc || !ops.value.hasFree {
        return -EINVAL;
      }
      vaddr := null;
      err := 0;
    }

    /** falcon_read_firmware: request_firmware's error, or the blob. */
    method ReadFirmware(requestErr: int, blob: seq<int>) returns (err: int)
      requires requestErr <= 0
      modifies this
      ensures requestErr < 0 ==> err == requestErr && firmware.None?
      ensures requestErr == 0 ==> err == 0 && firmware == Some(blob)
      ensures vaddr == old(vaddr) && mmio == old(mmio) && frees == old(frees) && ops == old(ops)
    {
      if requestErr < 0 {
        firmware := None;
        return requestErr;
      }
      firmware := Some(blob);
      err := 0;
    }

    /** falcon_copy_firmware_image: every whole 32-bit word of the blob
      * into the buffer. */
    method CopyFirmwareImage(blob: seq<int>)
      requires vaddr != null && vaddr.Length == |blob|
      modifies vaddr
      ensures vaddr[..4 * (|blob| / 4)] == blob[..4 * (|blob| / 4)]
      ensures vaddr[4 * (|blob| / 4)..] == old(vaddr[4 * (|blob| / 4)..])
    {
      var n := |blob| / 4;
      for i := 0 to n
        invariant vaddr[..4 * i] == blob[..4 * i]
        invariant vaddr[4 * i..] == old(vaddr[4 * i..])
      {
        vaddr[4 * i] := blob[4 * i];
        vaddr[4 * i + 1] := blob[4 * i + 1];
        vaddr[4 * i + 2] := blob[4 * i + 2];
        vaddr[4 * i + 3] := blob[4 * i + 3];
        assert vaddr[..4 * i + 4] == vaddr[..4 * i] + vaddr[4 * i..4 * i + 4];
        assert blob[..4 * i + 4] == blob[..4 * i] + blob[4 * i..4 * i + 4];
      }
    }

    /** ops->alloc of a buffer the size of the blob, then the copy. */
    method AllocAndCopy(blob: seq<int>, newPaddr: int)
      modifies this
      ensures vaddr != null && fresh(vaddr) && vaddr[..] == Copied(blob) && paddr == newPaddr
      ensures size == old(size) && firmware == old(firmware) && layout == old(layout)
      ensures ops == old(ops) && mmio == old(mmio) && frees == old(frees)
    {
      vaddr := new int[|blob|](_ => 0);
      paddr := newPaddr;
      CopyFirmwareImage(blob);
      assert vaddr[..] == vaddr[..4 * (|blob| / 4)] + vaddr[4 * (|blob| / 4)..];
    }

    /** falcon_parse_firmware_image on the buffer. */
    method ParseFirmwareImage() returns (err: int)
      requires vaddr != null && Readable(vaddr[..])
      modifies this
      ensures vaddr == old(vaddr)
      ensures ParseImage(vaddr[..]).Invalid? ==> err == -EINVAL && layout == old(layout)
      ensures ParseImage(vaddr[..]).Parsed? ==> err == 0 && layout == ParseImage(vaddr[..]).layout
      ensures vaddr == old(vaddr) && firmware == old(firmware) && mmio == old(mmio) && frees == old(frees)
      ensures size == old(size) && paddr == old(paddr) && ops == old(ops)
    {
      var r := ParseImage(vaddr[..]);
      if r.Invalid? {
        return -EINVAL;
      }
      layout := r.layout;
      err := 0;
    }

    /**
      * falcon_load_firmware as written: a failed allocation is -ENOMEM; a
      * failed parse frees the buffer and returns -EINVAL, but leaves
      * vaddr pointing at the freed buffer; success releases the blob.
      */
    method LoadFirmwareAsWritten(allocOk: bool, newPaddr: int) returns (err: int)
      requires firmware.Some? && ops.Some? && ops.value.hasAlloc && ops.value.hasFree
      requires Readable(Copied(firmware.value))
      modifies this
      ensures size == |old(firmware).value| && ops == old(ops) && mmio == old(mmio)
      ensures err != 0 ==> firmware == old(firmware) && layout == old(layout)
      ensures !allocOk ==> err == -ENOMEM && vaddr == null && frees == old(frees)
      ensures allocOk && ParseImage(Copied(old(firmware).value)).Invalid? ==>
                err == -EINVAL && vaddr != null && paddr == newPaddr &&
                frees == old(frees) + [FreeCall(size, newPaddr)]
      ensures allocOk && ParseImage(Copied(old(firmware).value)).Parsed? ==>
                err == 0 && vaddr != null && paddr == newPaddr && firmware.None? && frees == old(frees) &&
                layout == ParseImage(Copied(old(firmware).value)).layout
    {
      var blob := firmware.value;
      size := |blob|;
      if !allocOk {
        vaddr := null;
        return -ENOMEM;
      }
      AllocAndCopy(blob, newPaddr);
      err := ParseFirmwareImage();
      if err < 0 {
        frees := frees + [FreeCall(size, paddr)];
        return err;
      }
      firmware := None;
    }

    /**
      * falcon_load_firmware with the buffer forgotten once it is freed:
      * as written, except that a failed parse leaves vaddr NULL.
      */
    method LoadFirmware(allocOk: bool, newPaddr: int) returns (err: int)
      requires firmware.Some? && ops.Some? && ops.value.hasAlloc && ops.value.hasFree
      requires Readable(Copied(firmware.value))
      modifies this
      ensures size == |old(firmware).value| && ops == old(ops) && mmio == old(mmio)
      ensures err != 0 ==> firmware == old(firmware) && layout == old(layout)
      ensures !allocOk ==> err == -ENOMEM && vaddr == null && frees == old(frees)
      ensures allocOk && ParseImage(Copied(old(firmware).value)).Invalid? ==>
                err == -EINVAL && vaddr == null && frees == old(frees) + [FreeCall(size, newPaddr)]
      ensures allocOk && ParseImage(Copied(old(firmware).value)).Parsed? ==>
                err == 0 && vaddr != null && paddr == newPaddr && firmware.None? && frees == old(frees) &&
                layout == ParseImage(Copied(old(firmware).value)).layout
    {
      err := LoadFirmwareAsWritten(allocOk, newPaddr);
      if err == -EINVAL {
        vaddr := null;
      }
    }

    /** falcon_exit: releases the blob and frees the buffer if there is
      * one, leaving both NULL. */
    method Exit()
      modifies this
      ensures firmware.None? && vaddr == null
      ensures old(vaddr) != null ==> frees == old(frees) + [FreeCall(size, paddr)]
      ensures old(vaddr) == null ==> frees == old(frees)
      ensures size == old(size) && paddr == old(paddr) && mmio == old(mmio) && ops == old(ops)
    {
      firmware := None;
      if vaddr != null {
        frees := frees + [FreeCall(size, paddr)];
        vaddr := null;
      }
    }

    /**
      * falcon_boot: -EINVAL without a buffer, with no register written;
      * otherwise the boot writes, and the result of waiting for the
      * Falcon to go idle (idleErr).
      */
    method Boot(idleErr: int) returns (err: int)
      requires idleErr <= 0
      modifies this
      ensures old(vaddr) == null ==> err == -EINVAL && mmio == old(mmio)
      ensures old(vaddr) != null ==> err == idleErr && mmio == old(mmio) + BootWrites(paddr, layout)
      ensures vaddr == old(vaddr) && layout == old(layout) && paddr == old(paddr) && frees == old(frees)
    {
      if vaddr == null {
        return -EINVAL;
      }
      var chunks := CopyDataSegment(layout.data.offset, layout.data.size);
      mmio := mmio + ([Write(RegDmactl, 0), Write(RegDmatrfbase, ToU32(((paddr + layout.binData.offset) % U64) / 256))] +
                      chunks + ChunkWrites(layout.code.offset, 0, Imem) +
                      [Write(RegIrqmset, IrqmsetValue), Write(RegIrqdest, IrqdestValue), Write(RegItfen, ItfenValue),
                       Write(RegBootvec, 0), Write(RegCpuctl, CpuctlStartcpu)]);
      err := idleErr;
    }
  }

  /** An image of 28 zero bytes: its magic is wrong, so it does not parse. */
  function BadImage(): (r: seq<int>)
    ensures Readable(Copied(r)) && ParseImage(Copied(r)).Invalid?
  {
    var img := seq(BinHeaderSize, _ => 0);
    assert Copied(img) == img;
    assert img[0..4] == [0, 0, 0, 0];
    img
  }

  /** A load that fails to parse followed by falcon_exit, as written:
    * ops->free is called twice with the same buffer. */
  method DoubleFreeAsWritten(paddr: int) returns (frees: seq<FreeCall>)
    ensures |frees| == 2 && frees[0] == frees[1]
  {
    var f := new Falcon(Some(Ops(true, true)));
    var e := f.Init();
    e := f.ReadFirmware(0, BadImage());
    e := f.LoadFirmwareAsWritten(true, paddr);
    f.Exit();
    frees := f.frees;
  }

  /** The same sequence with the corrected load frees the buffer once. */
  method SingleFree(paddr: int) returns (frees: seq<FreeCall>)
    ensures |frees| == 1 && frees[0] == FreeCall(|BadImage()|, paddr)
  {
    var f := new Falcon(Some(Ops(true, true)));
    var e := f.Init();
    e := f.ReadFirmware(0, BadImage());
    e := f.LoadFirmware(true, paddr);
    f.Exit();
    frees := f.frees;
  }
}
