/**
 * Current conversions of include/linux/leds-ktd2692.h: a requested
 * current in mA is scaled against the maximum into a 5-bit code for the
 * flash and video current registers, and torch levels are multiples of a
 * step derived from the maximum.
 *
 * The macros compute on C int, whose division truncates toward zero;
 * CDiv writes that out. Signed overflow is undefined in C, so each
 * conversion asks that its intermediate product fit in an int.
 */
module LedsKtd2692 {

  const MaxCurrent: int := 1500
  const FlashDefaultCurrent: int := 1200
  const VideoDefaultCurrent: int := 175
  const FactoryTorchCurrent: int := 240

  /** C's `/` on int for a positive divisor: truncation toward zero. */
  function CDiv(a: int, b: int): (r: int)
    requires b > 0
    ensures a >= 0 ==> r == a / b
    ensures a < 0 ==> r == -((-a) / b)
  {
    if a >= 0 then a / b else -((-a) / b)
  }

  /** The product `mA * factor * 10` stays inside a 32-bit int. */
  predicate FitsInt(mA: int, factor: int) {
    -0x8000_0000 <= mA * factor * 10 < 0x8000_0000
  }

  /** The calibration shared by both macros: factor * mA / max, rounded
    * to the nearest integer at one decimal place, minus one. */
  function Cal(mA: int, max: int, factor: int): int
    requires max > 0
  {
    CDiv(CDiv(mA * factor * 10, max) + 5, 10) - 1
  }

  /** KTD2692_CAL_FLASH_CURRENT: factor 16. */
  function CalFlashCurrent(mA: int, max: int): int
    requires max > 0 && FitsInt(mA, 16)
  {
    Cal(mA, max, 16)
  }

  /** KTD2692_CAL_VIDEO_CURRENT: factor 16 * 3. */
  function CalVideoCurrent(mA: int, max: int): int
    requires max > 0 && FitsInt(mA, 48)
  {
    Cal(mA, max, 48)
  }

  /** A positive calibration masked to its low five bits, zero otherwise
    * (`& 0x1f` of a positive int is its remainder modulo 32). */
  function Code(cal: int): (r: nat)
    ensures r < 32
    ensures cal <= 0 ==> r == 0
    ensures 0 < cal < 32 ==> r == cal
  {
    if cal > 0 then cal % 32 else 0
  }

  /** KTD2692_FLASH_CURRENT. */
  function FlashCurrent(mA: int, max: int): (r: nat)
    requires max > 0 && FitsInt(mA, 16)
    ensures r < 32
  {
    Code(CalFlashCurrent(mA, max))
  }

  /** KTD2692_VIDEO_CURRENT. */
  function VideoCurrent(mA: int, max: int): (r: nat)
    requires max > 0 && FitsInt(mA, 48)
    ensures r < 32
  {
    Code(CalVideoCurrent(mA, max))
  }

  lemma MulMono(a: int, b: int, m: int)
    requires a <= b && m >= 0
    ensures a * m <= b * m
  {
  }

  lemma DivBounds(x: int, d: int)
    requires d > 0
    ensures (x / d) * d <= x < (x / d) * d + d
  {
  }

  /** (k * d) / d == k. */
  lemma MulDiv(k: int, d: int)
    requires d > 0
    ensures (k * d) / d == k
  {
    DivBounds(k * d, d);
    var q := (k * d) / d;
    if q < k {
      MulMono(q + 1, k, d);
    } else if q > k {
      MulMono(k + 1, q, d);
    }
  }

  /** Rounding x / max to one decimal place and then half up to an
    * integer c gives the integer nearest to y / max for x = 10 * y:
    * (2c - 1) * max <= 2 * y < (2c + 1) * max. */
  lemma RoundHalfUp(x: int, y: int, max: int)
    requires max > 0 && x == 10 * y
    ensures var c := (x / max + 5) / 10;
            (2 * c - 1) * max <= 2 * y < (2 * c + 1) * max
  {
    var q := x / max;
    var c := (q + 5) / 10;
    DivBounds(x, max);
    assert 10 * c - 5 <= q < 10 * c + 5;
    MulMono(10 * c - 5, q, max);
    MulMono(q + 1, 10 * c + 5, max);
    assert (10 * c - 5) * max == 5 * ((2 * c - 1) * max);
    assert (10 * c + 5) * max == 5 * ((2 * c + 1) * max);
  }

  /** For a non-negative current the calibration plus one is
    * factor * mA / max rounded half up: it lies within half a step of the
    * exact quotient. */
  lemma CalRounds(mA: int, max: int, factor: int)
    requires max > 0 && mA >= 0 && factor >= 0
    ensures var c := Cal(mA, max, factor) + 1;
            (2 * c - 1) * max <= 2 * (factor * mA) < (2 * c + 1) * max
  {
    var y := factor * mA;
    assert mA * factor * 10 == 10 * y;
    MulMono(0, mA, factor);
    RoundHalfUp(mA * factor * 10, y, max);
  }

  /** A current of zero gives the zero code, and the maximum current gives
    * flash code 15 (sixteen steps) and video code 47 masked to 15. */
  lemma CodeEndpoints(max: int)
    requires 0 < max && FitsInt(max, 48)
    ensures FlashCurrent(0, max) == 0 && VideoCurrent(0, max) == 0
    ensures FlashCurrent(max, max) == 15
    ensures VideoCurrent(max, max) == 15
  {
    assert max * 16 * 10 == 160 * max;
    MulDiv(160, max);
    assert max * 48 * 10 == 480 * max;
    MulDiv(480, max);
  }

  lemma DivMono(x: int, y: int, d: int)
    requires d > 0 && x <= y
    ensures x / d <= y / d
  {
    DivBounds(x, d);
    DivBounds(y, d);
    if x / d > y / d {
      MulMono(y / d + 1, x / d, d);
    }
  }

  /** The calibration never decreases as the requested current grows. */
  lemma CalMonotone(a: int, b: int, max: int, factor: int)
    requires max > 0 && 0 <= a <= b && factor >= 0
    ensures Cal(a, max, factor) <= Cal(b, max, factor)
  {
    MulMono(a, b, factor);
    MulMono(0, a, factor);
    assert a * factor * 10 <= b * factor * 10;
    DivMono(a * factor * 10, b * factor * 10, max);
    DivMono(CDiv(a * factor * 10, max) + 5, CDiv(b * factor * 10, max) + 5, 10);
  }

  /** So the codes grow with the current until the calibration leaves the
    * five bits of the mask. */
  lemma CodeMonotone(a: int, b: int, max: int)
    requires max > 0 && 0 <= a <= b && FitsInt(b, 48)
    ensures CalFlashCurrent(b, max) < 32 ==> FlashCurrent(a, max) <= FlashCurrent(b, max)
    ensures CalVideoCurrent(b, max) < 32 ==> VideoCurrent(a, max) <= VideoCurrent(b, max)
  {
    MulMono(a, b, 480);
    CalMonotone(a, b, max, 16);
    CalMonotone(a, b, max, 48);
  }

  /** Past that point the mask wraps: against the 1500 mA maximum, a video
    * request of 1000 mA gives code 31 but 1020 mA gives code 0. */
  lemma VideoCodeWraps()
    ensures VideoCurrent(1000, MaxCurrent) == 31
    ensures VideoCurrent(1020, MaxCurrent) == 0
  {
  }

  /** KTD2692_TORCH_STEP_LEVEL_CURRENT: level n of a step of
    * max / 16 / 3 + 1 mA. */
  function TorchStepLevelCurrent(n: int, max: int): int
    requires max > 0
  {
    (CDiv(CDiv(max, 16), 3) + 1) * n
  }

  /** Torch levels are linear in n with a positive step. */
  lemma TorchLinear(n: int, m: int, max: int)
    requires max > 0
    ensures TorchStepLevelCurrent(n + m, max) == TorchStepLevelCurrent(n, max) + TorchStepLevelCurrent(m, max)
    ensures TorchStepLevelCurrent(1, max) >= 1
    ensures n <= m ==> TorchStepLevelCurrent(n, max) <= TorchStepLevelCurrent(m, max)
  {
    var step := CDiv(CDiv(max, 16), 3) + 1;
    assert step * (n + m) == step * n + step * m;
    if n <= m {
      MulMono(n, m, step);
    }
  }

  /** The default currents stay within the maximum and calibrate to flash
    * code 12, video code 5 and factory torch code 7. */
  lemma DefaultCurrents()
    ensures FlashDefaultCurrent <= MaxCurrent && VideoDefaultCurrent <= MaxCurrent
    ensures FactoryTorchCurrent <= MaxCurrent
    ensures FlashCurrent(FlashDefaultCurrent, MaxCurrent) == 12
    ensures VideoCurrent(VideoDefaultCurrent, MaxCurrent) == 5
    ensures VideoCurrent(FactoryTorchCurrent, MaxCurrent) == 7
  {
  }
}
