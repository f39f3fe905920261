/**
 * Timing and format helpers of techpack/display/msm/dsi/dsi_defs.h: the
 * horizontal and vertical totals of a video mode (with the DSC
 * substitution of the active width), rectangle equality, bits per pixel
 * of a pixel format, and the lane and clock bit enumerations.
 *
 * struct msm_display_dsc_info lives in msm_drv.h, which is not part of
 * this model: only its pclk_per_line member is used, as a u32.
 */
module DsiDefs {
  import opened Wrappers

  /** The one member of struct msm_display_dsc_info the totals read. */
  datatype DscInfo = DscInfo(pclkPerLine: nat)

  /** struct dsi_mode_info, the members the macros read. A NULL dsc
    * pointer is None. */
  datatype ModeInfo = ModeInfo(
    hActive: nat, hBackPorch: nat, hSyncWidth: nat, hFrontPorch: nat,
    vActive: nat, vBackPorch: nat, vSyncWidth: nat, vFrontPorch: nat,
    dscEnabled: bool, dsc: Option<DscInfo>)
  {
    /** Every member holds a value of its C type (u32). */
    predicate Valid() {
      IsU32(hActive) && IsU32(hBackPorch) && IsU32(hSyncWidth) && IsU32(hFrontPorch) &&
      IsU32(vActive) && IsU32(vBackPorch) && IsU32(vSyncWidth) && IsU32(vFrontPorch) &&
      (dsc.Some? ==> IsU32(dsc.value.pclkPerLine))
    }

    /** The exact (unbounded) sum of the horizontal members. */
    function HSum(): nat {
      hActive + hBackPorch + hSyncWidth + hFrontPorch
    }
  }

  // ---------------------------------------------------------------
  // Totals
  // ---------------------------------------------------------------

  /** DSI_H_TOTAL: the four u32 members added in u32 arithmetic, so the
    * sum wraps modulo 2^32. */
  function HTotal(t: ModeInfo): (r: nat)
    ensures r < U32
    ensures (r - t.HSum()) % U32 == 0
  {
    (t.hActive + t.hBackPorch + t.hSyncWidth + t.hFrontPorch) % U32
  }

  /** DSI_V_TOTAL: the vertical counterpart, also in u32 arithmetic. */
  function VTotal(t: ModeInfo): (r: nat)
    ensures r < U32
    ensures (r - (t.vActive + t.vBackPorch + t.vSyncWidth + t.vFrontPorch)) % U32 == 0
  {
    (t.vActive + t.vBackPorch + t.vSyncWidth + t.vFrontPorch) % U32
  }

  /** Whether the DSC substitution applies: dsc_enabled and a non-NULL dsc. */
  predicate DscActive(t: ModeInfo) {
    t.dscEnabled && t.dsc.Some?
  }

  /** DSI_H_ACTIVE_DSC: pclk_per_line under DSC, h_active otherwise. */
  function HActiveDsc(t: ModeInfo): (r: nat)
    ensures DscActive(t) ==> r == t.dsc.value.pclkPerLine
    ensures !DscActive(t) ==> r == t.hActive
  {
    if t.dscEnabled && t.dsc.Some? then t.dsc.value.pclkPerLine else t.hActive
  }

  /** DSI_H_TOTAL_DSC: the active width chosen as above, plus the three
    * porch and sync members, accumulated in a u64. */
  function HTotalDsc(t: ModeInfo): (r: nat)
    ensures r < U64
  {
    (HActiveDsc(t) + t.hBackPorch + t.hSyncWidth + t.hFrontPorch) % U64
  }

  /** With u32 members the u64 accumulator never wraps: the DSC total is
    * the exact sum, and without DSC it is the exact horizontal sum. */
  lemma HTotalDscExact(t: ModeInfo)
    requires t.Valid()
    ensures HTotalDsc(t) == HActiveDsc(t) + t.hBackPorch + t.hSyncWidth + t.hFrontPorch
    ensures !DscActive(t) ==> HTotalDsc(t) == t.HSum()
  {
  }

  /** Without DSC, DSI_H_TOTAL_DSC agrees with DSI_H_TOTAL exactly when the
    * u32 sum does not wrap. */
  lemma HTotalDscAgrees(t: ModeInfo)
    requires t.Valid() && !DscActive(t)
    ensures HTotalDsc(t) == HTotal(t) <==> t.HSum() < U32
  {
    HTotalDscExact(t);
  }

  /** A mode whose porches overflow 32 bits: the two totals differ. */
  lemma HTotalWraps()
    ensures var t := ModeInfo(0xffff_ffff, 1, 0, 0, 0, 0, 0, 0, false, None);
            t.Valid() && HTotal(t) == 0 && HTotalDsc(t) == U32
  {
  }

  // ---------------------------------------------------------------
  // Rectangles
  // ---------------------------------------------------------------

  /** struct dsi_rect: four u16 members. */
  datatype Rect = Rect(x: nat, y: nat, w: nat, h: nat)

  /** dsi_rect_is_equal. */
  function RectIsEqual(r1: Rect, r2: Rect): (r: bool)
    ensures r <==> r1 == r2
  {
    r1.x == r2.x && r1.y == r2.y && r1.w == r2.w && r1.h == r2.h
  }

  // ---------------------------------------------------------------
  // Pixel formats
  // ---------------------------------------------------------------

  /** enum dsi_pixel_format. */
  datatype PixelFormat =
    | Rgb565 | Rgb666 | Rgb666Loose | Rgb888 | Rgb111 | Rgb332 | Rgb444 | FormatMax

  /** dsi_pixel_format_to_bpp. */
  function PixelFormatToBpp(fmt: PixelFormat): (r: nat)
  {
    match fmt
    case Rgb888 | FormatMax => 24
    case Rgb666 | Rgb666Loose => 18
    case Rgb565 => 16
    case Rgb111 => 3
    case Rgb332 => 8
    case Rgb444 => 12
  }

  /** The red, green and blue component widths a format name spells out;
    * DSI_PIXEL_FORMAT_MAX falls back to RGB888. */
  function ComponentBits(fmt: PixelFormat): (nat, nat, nat)
  {
    match fmt
    case Rgb565 => (5, 6, 5)
    case Rgb666 | Rgb666Loose => (6, 6, 6)
    case Rgb888 | FormatMax => (8, 8, 8)
    case Rgb111 => (1, 1, 1)
    case Rgb332 => (3, 3, 2)
    case Rgb444 => (4, 4, 4)
  }

  /** Bits per pixel is the sum of the component widths: the loose RGB666
    * layout is counted at 18 bits, not at the 24 it occupies on the
    * link. */
  lemma BppIsComponentSum(fmt: PixelFormat)
    ensures var (r, g, b) := ComponentBits(fmt); PixelFormatToBpp(fmt) == r + g + b
  {
  }

  // ---------------------------------------------------------------
  // Lanes and clocks
  // ---------------------------------------------------------------

  /** enum dsi_logical_lane, without DSI_LANE_MAX. */
  datatype LogicalLane = Lane0 | Lane1 | Lane2 | Lane3 | ClockLane

  function LaneIndex(l: LogicalLane): (r: nat)
    ensures r < 5
  {
    match l
    case Lane0 => 0
    case Lane1 => 1
    case Lane2 => 2
    case Lane3 => 3
    case ClockLane => 4
  }

  /** enum dsi_data_lanes: BIT(logical lane). */
  function LaneBit(l: LogicalLane): (r: nat)
  {
    match l
    case Lane0 => 1
    case Lane1 => 2
    case Lane2 => 4
    case Lane3 => 8
    case ClockLane => 16
  }

  /** Each lane's bit is 1 << its logical index, so the bits are distinct
    * and together fill the low five bits. */
  lemma LaneBits(l: LogicalLane, m: LogicalLane)
    ensures LaneBit(l) == Pow2(LaneIndex(l))
    ensures LaneBit(l) == LaneBit(m) ==> l == m
    ensures LaneBit(Lane0) + LaneBit(Lane1) + LaneBit(Lane2) + LaneBit(Lane3) + LaneBit(ClockLane) == 0x1f
  {
    assert Pow2(1) == 2 && Pow2(2) == 4 && Pow2(3) == 8 && Pow2(4) == 16;
  }

  /** enum dsi_clk_gate_type. */
  const PixelClk: nat := 1
  const ByteClk: nat := 2
  const DsiPhy: nat := 4
  const DsiClkAll: nat := 7
  const DsiClkNone: nat := 8

  /** DSI_CLK_ALL is the or of the three clocks, and DSI_CLK_NONE shares
    * no bit with it. */
  lemma ClockBits(b: nat)
    requires b < 4
    ensures Bit(DsiClkAll, b) <==> Bit(PixelClk, b) || Bit(ByteClk, b) || Bit(DsiPhy, b)
    ensures !(Bit(DsiClkAll, b) && Bit(DsiClkNone, b))
  {
    assert Pow2(1) == 2 && Pow2(2) == 4 && Pow2(3) == 8;
    if b == 0 {
    } else if b == 1 {
    } else if b == 2 {
    } else {
    }
  }
}
