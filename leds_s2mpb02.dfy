/**
 * Register encodings of include/linux/leds-s2mpb02.h: the LV_SEL output
 * voltage code and the bit masks of the flash and torch control
 * registers.
 */
module LedsS2mpb02 {
  import opened Wrappers

  const LvSelVoutMask: nat := 0x07
  const FlashMask: nat := 0xF0
  const TorchMask: nat := 0x0F
  const FledEnableShift: nat := 7
  const FledModeShift: nat := 6
  const FledEnableModeMask: nat := 0xC0
  const FlashTorchCurrentMax: nat := 0xF

  /** S2MPB02_LV_SEL_VOLT: 0 up to 2700 mV, one step per 100 mV above it,
    * 7 beyond 3400 mV. (The middle branch divides a positive value, so
    * C's truncating division agrees with Dafny's.) */
  function LvSelVolt(mV: int): (r: nat)
    ensures r <= LvSelVoutMask
    ensures mV <= 2700 ==> r == 0
    ensures 2700 < mV <= 3400 ==> 100 * r <= mV - 2700 < 100 * r + 100
    ensures mV > 3400 ==> r == 7
  {
    if mV <= 2700 then 0
    else if mV <= 3400 then (mV - 2700) / 100
    else 7
  }

  /** The code never decreases as the voltage grows. */
  lemma LvSelMonotone(a: int, b: int)
    requires a <= b
    ensures LvSelVolt(a) <= LvSelVolt(b)
  {
    if 2700 < a && b <= 3400 {
      assert 100 * LvSelVolt(a) <= b - 2700;
    }
  }

  /** The voltage a code selects, 2.7 V plus 100 mV per step. */
  function CodeVoltage(code: nat): (mV: int)
    requires code <= LvSelVoutMask
  {
    2700 + 100 * code
  }

  /** Each code's own voltage converts back to it; a voltage converts to
    * the largest code whose voltage does not exceed it. */
  lemma LvSelRoundTrip(code: nat, mV: int)
    requires code <= LvSelVoutMask
    ensures LvSelVolt(CodeVoltage(code)) == code
    ensures 2700 <= mV ==> CodeVoltage(LvSelVolt(mV)) <= mV
    ensures 2700 <= mV && LvSelVolt(mV) < 7 ==> mV < CodeVoltage(LvSelVolt(mV) + 1)
  {
  }

  /** The flash and torch current fields split the register byte with no
    * bit in common. */
  lemma CurrentMasksSplitByte(b: nat)
    requires b < 8
    ensures Bit(FlashMask, b) != Bit(TorchMask, b)
  {
    assert Pow2(1) == 2 && Pow2(2) == 4 && Pow2(3) == 8 && Pow2(4) == 16;
    assert Pow2(5) == 32 && Pow2(6) == 64 && Pow2(7) == 128;
    if b == 0 {
    } else if b == 1 {
    } else if b == 2 {
    } else if b == 3 {
    } else if b == 4 {
    } else if b == 5 {
    } else if b == 6 {
    } else {
    }
  }

  /** A flash current in the high nibble and a torch current in the low
    * one: both read back through their masks. */
  function PackCurrents(flash: nat, torch: nat): (r: nat)
    requires flash <= FlashTorchCurrentMax && torch <= FlashTorchCurrentMax
    ensures r < 0x100
    ensures r / 0x10 == flash && r % 0x10 == torch
  {
    flash * 0x10 + torch
  }

  /** The enable bit (7) and the mode bit (6) lie inside
    * S2MPB02_FLED_ENABLE_MODE_MASK and are its only bits. */
  lemma EnableModeBits(b: nat)
    requires b < 8
    ensures Bit(FledEnableModeMask, b) <==> b == FledEnableShift || b == FledModeShift
  {
    assert Pow2(1) == 2 && Pow2(2) == 4 && Pow2(3) == 8 && Pow2(4) == 16;
    assert Pow2(5) == 32 && Pow2(6) == 64 && Pow2(7) == 128;
    if b == 0 {
    } else if b == 1 {
    } else if b == 2 {
    } else if b == 3 {
    } else if b == 4 {
    } else if b == 5 {
    } else if b == 6 {
    } else {
    }
  }

  /** The enable/mode field written by the driver: enable << 7 | mode << 6. */
  function EnableMode(enable: nat, mode: nat): (r: nat)
    requires enable <= 1 && mode <= 1
    ensures r % 0x40 == 0 && r < 0x100
    ensures Bit(r, FledEnableShift) == (enable == 1)
    ensures Bit(r, FledModeShift) == (mode == 1)
  {
    assert Pow2(6) == 64 && Pow2(7) == 128;
    enable * 0x80 + mode * 0x40
  }
}
