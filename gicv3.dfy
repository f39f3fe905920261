/**
 * Register-field helpers of include/linux/irqchip/arm-gic-v3.h: the
 * GICD_TYPER, GITS_TYPER and GITS_BASER decoders, the GIC_ENCODE_SZ
 * encoder, the 52-bit physical address packing of GITS_BASER, the GICv4
 * ITS command numbers and gic_enable_sre.
 *
 * Registers are non-negative integers; a field `(x >> s) & (2^w - 1)` is
 * `(x / 2^s) % 2^w`, written with the powers of two as literals.
 */
module GicV3 {
  import opened Wrappers

  // ---------------------------------------------------------------
  // Bit fields
  // ---------------------------------------------------------------

  /** (x >> shift) & (span - 1) where scale = 2^shift and span = 2^width. */
  function Field(x: nat, scale: nat, span: nat): (r: nat)
    requires scale > 0 && span > 0
    ensures r < span
  {
    (x / scale) % span
  }

  /** Euclidean division has a unique quotient and remainder. */
  lemma DivModUnique(q: int, r: int, d: int)
    requires d > 0 && 0 <= r < d
    ensures (q * d + r) / d == q
    ensures (q * d + r) % d == r
  {
    var x := q * d + r;
    var k := x / d - q;
    assert d * k == r - x % d;
  }

  /** A value placed in a field reads back unchanged, whatever the bits
    * above and below it hold. */
  lemma FieldOfPlaced(hi: nat, v: nat, lo: nat, scale: nat, span: nat)
    requires scale > 0 && span > 0
    requires v < span && lo < scale
    ensures Field((hi * span + v) * scale + lo, scale, span) == v
  {
    DivModUnique(hi * span + v, lo, scale);
    DivModUnique(hi, v, span);
  }

  // ---------------------------------------------------------------
  // Decoders: fields that hold a count minus one
  // ---------------------------------------------------------------

  /** GICD_TYPER_ID_BITS: bits 23:19 plus one. */
  function TyperIdBits(typer: nat): (r: nat)
    ensures 1 <= r <= 32
    ensures r - 1 == Field(typer, 0x8_0000, 0x20)
  {
    Field(typer, 0x8_0000, 0x20) + 1
  }

  /** GICD_TYPER_NUM_LPIS: bits 15:11 plus one. */
  function TyperNumLpis(typer: nat): (r: nat)
    ensures 1 <= r <= 32
    ensures r - 1 == Field(typer, 0x800, 0x20)
  {
    Field(typer, 0x800, 0x20) + 1
  }

  /** GICD_TYPER_IRQS: bits 4:0 plus one, in units of 32 interrupts. */
  function TyperIrqs(typer: nat): (r: nat)
    ensures 32 <= r <= 1024
    ensures r % 32 == 0
    ensures r / 32 - 1 == typer % 0x20
  {
    (typer % 0x20 + 1) * 32
  }

  /** GITS_TYPER_ITT_ENTRY_SIZE: bits 7:4 plus one. */
  function ItsTyperIttEntrySize(typer: nat): (r: nat)
    ensures 1 <= r <= 16
    ensures r - 1 == Field(typer, 0x10, 0x10)
  {
    Field(typer, 0x10, 0x10) + 1
  }

  /** GITS_TYPER_DEVBITS: bits 17:13 plus one. */
  function ItsTyperDevBits(typer: nat): (r: nat)
    ensures 1 <= r <= 32
    ensures r - 1 == Field(typer, 0x2000, 0x20)
  {
    Field(typer, 0x2000, 0x20) + 1
  }

  /** GITS_TYPER_HCC: bits 31:24, not biased. */
  function ItsTyperHcc(typer: nat): (r: nat)
    ensures r < 0x100
  {
    Field(typer, 0x100_0000, 0x100)
  }

  /** GITS_BASER_TYPE: bits 58:56. */
  function BaserType(baser: nat): (r: nat)
    ensures r < 8
  {
    Field(baser, 0x100_0000_0000_0000, 8)
  }

  /** GITS_BASER_ENTRY_SIZE: bits 52:48 plus one. */
  function BaserEntrySize(baser: nat): (r: nat)
    ensures 1 <= r <= 32
    ensures r - 1 == Field(baser, 0x1_0000_0000_0000, 0x20)
  {
    Field(baser, 0x1_0000_0000_0000, 0x20) + 1
  }

  const BaserPagesMax: nat := 256

  /** GITS_BASER_NR_PAGES: bits 7:0 plus one, at most GITS_BASER_PAGES_MAX. */
  function BaserNrPages(baser: nat): (r: nat)
    ensures 1 <= r <= BaserPagesMax
    ensures r - 1 == baser % 0x100
  {
    baser % 0x100 + 1
  }

  // ---------------------------------------------------------------
  // GIC_ENCODE_SZ
  // ---------------------------------------------------------------

  /** GIC_ENCODE_SZ(n, w): n - 1 cast to unsigned long, masked to its low
    * w bits. The cast reduces modulo 2^64 and the mask modulo 2^w, which
    * divides 2^64 for w <= 64, so the result is n - 1 modulo 2^w (zero
    * minus one wraps round to all ones, as the unsigned cast does). */
  function EncodeSz(n: int, w: nat): (r: nat)
    requires 1 <= w <= 64
    ensures r < Pow2(w)
  {
    (n - 1) % Pow2(w)
  }

  /** For 1 <= n <= 2^w the encoded field is exactly n - 1; zero wraps
    * round to the all-ones field. */
  lemma EncodeSzRoundTrip(n: int, w: nat)
    requires 1 <= w <= 64
    ensures 1 <= n <= Pow2(w) ==> EncodeSz(n, w) + 1 == n
    ensures n == 0 ==> EncodeSz(n, w) == Pow2(w) - 1
  {
    if 1 <= n <= Pow2(w) {
      DivModUnique(0, n - 1, Pow2(w));
    } else if n == 0 {
      DivModUnique(-1, Pow2(w) - 1, Pow2(w));
    }
  }

  /** A size written with GIC_ENCODE_SZ(n, 5) into bits 52:48 of
    * GITS_BASER reads back as n through GITS_BASER_ENTRY_SIZE. */
  lemma BaserEntrySizeRoundTrip(n: int, hi: nat, lo: nat)
    requires 1 <= n <= 32 && lo < 0x1_0000_0000_0000
    ensures BaserEntrySize((hi * 0x20 + EncodeSz(n, 5)) * 0x1_0000_0000_0000 + lo) == n
  {
    assert Pow2(5) == 32;
    EncodeSzRoundTrip(n, 5);
    FieldOfPlaced(hi, EncodeSz(n, 5), lo, 0x1_0000_0000_0000, 0x20);
  }

  /** The same for the identifier width in bits 23:19 of GICD_TYPER. */
  lemma TyperIdBitsRoundTrip(n: int, hi: nat, lo: nat)
    requires 1 <= n <= 32 && lo < 0x8_0000
    ensures TyperIdBits((hi * 0x20 + EncodeSz(n, 5)) * 0x8_0000 + lo) == n
  {
    assert Pow2(5) == 32;
    EncodeSzRoundTrip(n, 5);
    FieldOfPlaced(hi, EncodeSz(n, 5), lo, 0x8_0000, 0x20);
  }

  /** GICD_TYPER_IRQS takes every multiple of 32 from 32 to 1024. */
  lemma TyperIrqsOnto(m: nat, hi: nat)
    requires 32 <= m <= 1024 && m % 32 == 0
    ensures TyperIrqs(hi * 0x20 + (m / 32 - 1)) == m
  {
    DivModUnique(hi, m / 32 - 1, 0x20);
  }

  // ---------------------------------------------------------------
  // 52-bit physical addresses in GITS_BASER
  // ---------------------------------------------------------------

  /** GITS_BASER_PHYS_52_to_48: bits 47:16 of phys stay where they are,
    * bits 51:48 move down to 15:12. The two parts occupy disjoint bits,
    * so the bitwise or is their sum. */
  function Phys52To48(phys: nat): (r: nat)
    ensures r < 0x1_0000_0000_0000
    ensures r % 0x1000 == 0
    ensures r / 0x1_0000 == Field(phys, 0x1_0000, 0x1_0000_0000)
    ensures r % 0x1_0000 / 0x1000 == Field(phys, 0x1_0000_0000_0000, 0x10)
  {
    var high := Field(phys, 0x1_0000, 0x1_0000_0000);
    var top := Field(phys, 0x1_0000_0000_0000, 0x10);
    DivModUnique(high, top * 0x1000, 0x1_0000);
    DivModUnique(top, 0, 0x1000);
    high * 0x1_0000 + top * 0x1000
  }

  /** Reading the field back: bits 47:16 are address bits 47:16 and
    * bits 15:12 are address bits 51:48. */
  function Phys48To52(field: nat): (r: nat)
  {
    Field(field, 0x1_0000, 0x1_0000_0000) * 0x1_0000
      + Field(field, 0x1000, 0x10) * 0x1_0000_0000_0000
  }

  /** A 64K-aligned address below 2^52 survives the packing. */
  lemma PhysRoundTrip(phys: nat)
    requires phys < 0x10_0000_0000_0000 && phys % 0x1_0000 == 0
    ensures Phys48To52(Phys52To48(phys)) == phys
  {
    var high := Field(phys, 0x1_0000, 0x1_0000_0000);
    var top := Field(phys, 0x1_0000_0000_0000, 0x10);
    var r := Phys52To48(phys);
    assert phys / 0x1_0000 == top * 0x1_0000_0000 + high by {
      DivModUnique(phys / 0x1_0000_0000_0000, phys % 0x1_0000_0000_0000, 0x1_0000_0000_0000);
      assert phys / 0x1_0000_0000_0000 == top;
    }
    assert Field(r, 0x1_0000, 0x1_0000_0000) == high;
    assert Field(r, 0x1000, 0x10) == top by {
      DivModUnique(high * 0x10 + top, 0, 0x1000);
      DivModUnique(high, top, 0x10);
    }
  }

  // ---------------------------------------------------------------
  // ITS commands
  // ---------------------------------------------------------------

  /** GITS_CMD_GICv4(x) = x | 0x20: bit 5 set, every other bit kept. */
  function CmdGicV4(x: nat): (r: nat)
    ensures Field(r, 0x20, 2) == 1
    ensures r / 0x40 == x / 0x40 && r % 0x20 == x % 0x20
  {
    if Field(x, 0x20, 2) == 1 then x else x + 0x20
  }

  datatype ItsCommand =
    | Mapd | Mapc | Mapti | Mapi | Movi | Discard | Inv | Movall | Invall
    | Int | Clear | Sync
    | Vinvall | Vmapp | Vmapti | Vmovi | Vsync | Vmovp
  {
    /** The GICv4 (virtual LPI) commands. */
    predicate IsVirtual() {
      Vinvall? || Vmapp? || Vmapti? || Vmovi? || Vsync? || Vmovp?
    }
  }

  /** The physical command numbers (GITS_CMD_MAPD ... GITS_CMD_SYNC). */
  function PhysicalCode(c: ItsCommand): (r: nat)
    requires !c.IsVirtual()
  {
    match c
    case Mapd => 0x08
    case Mapc => 0x09
    case Mapti => 0x0a
    case Mapi => 0x0b
    case Movi => 0x01
    case Discard => 0x0f
    case Inv => 0x0c
    case Movall => 0x0e
    case Invall => 0x0d
    case Int => 0x03
    case Clear => 0x04
    case Sync => 0x05
  }

  /** Command numbers: the GICv4 ones are GITS_CMD_GICv4 of their
    * physical counterpart, VMOVP of 2. */
  function Code(c: ItsCommand): (r: nat)
  {
    match c
    case Vinvall => CmdGicV4(PhysicalCode(Invall))
    case Vmapp => CmdGicV4(PhysicalCode(Mapc))
    case Vmapti => CmdGicV4(PhysicalCode(Mapti))
    case Vmovi => CmdGicV4(PhysicalCode(Movi))
    case Vsync => CmdGicV4(PhysicalCode(Sync))
    case Vmovp => CmdGicV4(2)
    case _ => PhysicalCode(c)
  }

  /** The command a number stands for, if any. */
  function Decode(code: nat): (r: Option<ItsCommand>)
  {
    if code == 0x08 then Some(Mapd)
    else if code == 0x09 then Some(Mapc)
    else if code == 0x0a then Some(Mapti)
    else if code == 0x0b then Some(Mapi)
    else if code == 0x01 then Some(Movi)
    else if code == 0x0f then Some(Discard)
    else if code == 0x0c then Some(Inv)
    else if code == 0x0e then Some(Movall)
    else if code == 0x0d then Some(Invall)
    else if code == 0x03 then Some(Int)
    else if code == 0x04 then Some(Clear)
    else if code == 0x05 then Some(Sync)
    else if code == 0x2d then Some(Vinvall)
    else if code == 0x29 then Some(Vmapp)
    else if code == 0x2a then Some(Vmapti)
    else if code == 0x21 then Some(Vmovi)
    else if code == 0x25 then Some(Vsync)
    else if code == 0x22 then Some(Vmovp)
    else None
  }

  /** Every command number decodes to its command, so no two commands
    * share a number; physical numbers have bit 5 clear and GICv4 ones
    * have it set. */
  lemma CodesDistinct(c: ItsCommand)
    ensures Decode(Code(c)) == Some(c)
    ensures c.IsVirtual() <==> Field(Code(c), 0x20, 2) == 1
  {
  }

  // ---------------------------------------------------------------
  // gic_enable_sre
  // ---------------------------------------------------------------

  /** ICC_SRE_EL1_SRE, bit 0. */
  function Sre(val: nat): (r: bool)
  {
    val % 2 == 1
  }

  /** ICC_SRE_EL1, read with gic_read_sre and written with gic_write_sre.
    * Whether the SRE bit takes a write is up to the implementation and
    * higher exception levels: when `sreFixed` holds a write leaves it as
    * it was. */
  class SreRegister {
    var value: nat
    var writes: nat
    const sreFixed: bool

    constructor (initial: nat, fixed: bool)
      ensures value == initial && writes == 0 && sreFixed == fixed
    {
      value := initial;
      writes := 0;
      sreFixed := fixed;
    }

    method Read() returns (v: nat)
      ensures v == value
    {
      v := value;
    }

    method Write(v: nat)
      modifies this
      ensures writes == old(writes) + 1
      ensures value == if sreFixed && Sre(v) != Sre(old(value))
                       then (if Sre(v) then v - 1 else v + 1) else v
    {
      writes := writes + 1;
      if sreFixed && Sre(v) != Sre(value) {
        value := if Sre(v) then v - 1 else v + 1;
      } else {
        value := v;
      }
    }

    /** gic_enable_sre: true at once, without a write, if SRE is already
      * set; otherwise set it, write, and report the bit read back. */
    method EnableSre() returns (enabled: bool)
      modifies this
      ensures old(Sre(value)) ==> enabled && value == old(value) && writes == old(writes)
      ensures !old(Sre(value)) ==> writes == old(writes) + 1
      ensures !old(Sre(value)) ==> value == (if sreFixed then old(value) else old(value) + 1)
      ensures enabled <==> Sre(value)
      ensures enabled <==> old(Sre(value)) || !sreFixed
    {
      var val := Read();
      if Sre(val) {
        return true;
      }
      val := val + 1;
      Write(val);
      val := Read();
      enabled := Sre(val);
    }
  }
}
