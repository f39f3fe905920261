/**
 * Calendar conversion and wrap-around time comparisons of
 * include/linux/time.h: mktime64 and the time_*32 macros.
 *
 * Every C operand is an `unsigned int`; the model keeps the C arithmetic
 * exactly, wrapping each unsigned intermediate at 2^32.
 */
module KernelTime {
  import opened Wrappers

  /** The month rotation of mktime64: 1..12 becomes 11,12,1..10, and the
    * year goes back by one for January and February so that February,
    * with its leap day, is the last month of the shifted year.
    * `mon -= 2` is unsigned and the test reads it as a signed int. */
  function ShiftMonth(year0: int, mon0: int): (r: (int, int))
    requires IsU32(year0) && IsU32(mon0)
    ensures IsU32(r.0) && IsU32(r.1)
    ensures 1 <= mon0 <= 12 ==> r.1 == (mon0 + 9) % 12 + 1
    ensures 1 <= mon0 <= 12 && 1 <= year0 ==> r.0 == (if mon0 <= 2 then year0 - 1 else year0)
  {
    var mon := ToU32(mon0 - 2);
    if ToS32(mon) <= 0 then (ToU32(year0 - 1), ToU32(mon + 12)) else (year0, mon)
  }

  /** Day number of the shifted date, computed in unsigned int:
    * year/4 - year/100 + year/400 + 367*mon/12 + day. */
  function DayTerm(year: int, mon: int, day: int): (r: int)
    requires IsU32(year) && IsU32(mon) && IsU32(day)
    ensures IsU32(r)
  {
    ToU32(year / 4 - year / 100 + year / 400 + ToU32(367 * mon) / 12 + day)
  }

  /** mktime64: seconds since 1970-01-01 00:00:00 of a Gregorian date. */
  function MkTime64(year0: int, mon0: int, day: int, hour: int, min: int, sec: int): (r: int)
    requires IsU32(year0) && IsU32(mon0) && IsU32(day)
    requires IsU32(hour) && IsU32(min) && IsU32(sec)
    // the 64-bit signed result never overflows, whatever the inputs
    ensures -0x8000_0000_0000_0000 <= r < 0x8000_0000_0000_0000
  {
    var (year, mon) := ShiftMonth(year0, mon0);
    (((DayTerm(year, mon, day) + ToU32(year * 365) - 719499) * 24 + hour) * 60 + min) * 60 + sec
  }

  /** A date the arithmetic handles without any unsigned wrap-around. */
  predicate PlainDate(year: int, mon: int, day: int)
  {
    1 <= year <= 1_000_000 && 1 <= mon <= 12 && 0 <= day <= 1_000_000
  }

  /** Days from the epoch to a shifted date, in unbounded integers. */
  function EpochDays(year: int, mon: int, day: int): int
  {
    year / 4 - year / 100 + year / 400 + 367 * mon / 12 + day + year * 365 - 719499
  }

  /** Below the wrap-around bounds no unsigned intermediate wraps. */
  lemma NoWrap(year0: int, mon0: int, day: int)
    requires PlainDate(year0, mon0, day)
    ensures var (year, mon) := ShiftMonth(year0, mon0);
      0 <= year <= 1_000_000 && 1 <= mon <= 12 &&
      DayTerm(year, mon, day) + ToU32(year * 365) - 719499 == EpochDays(year, mon, day)
  {
    var (year, mon) := ShiftMonth(year0, mon0);
    assert 0 <= year <= 1_000_000 && 1 <= mon <= 12;
    ToU32Fits(367 * mon);
    var leap := year / 4 - year / 100 + year / 400;
    assert 0 <= leap <= year;
    assert 0 <= 367 * mon / 12 <= 367;
    ToU32Fits(leap + 367 * mon / 12 + day);
    ToU32Fits(year * 365);
  }

  /** Below the wrap-around bounds the result is affine in its time fields. */
  lemma MkTime64Affine(year: int, mon: int, day: int, hour: int, min: int, sec: int)
    requires PlainDate(year, mon, day)
    requires IsU32(hour) && IsU32(min) && IsU32(sec)
    ensures MkTime64(year, mon, day, hour, min, sec)
            == EpochDays(ShiftMonth(year, mon).0, ShiftMonth(year, mon).1, day) * 86400
               + hour * 3600 + min * 60 + sec
  {
    NoWrap(year, mon, day);
  }

  predicate IsLeap(year: int)
  {
    year % 4 == 0 && (year % 100 != 0 || year % 400 == 0)
  }

  /** Length of a month in the Gregorian calendar. */
  function DaysInMonth(year: int, mon: int): (r: int)
    requires 1 <= mon <= 12
    ensures 28 <= r <= 31
  {
    if mon == 2 then (if IsLeap(year) then 29 else 28)
    else if mon == 4 || mon == 6 || mon == 9 || mon == 11 then 30
    else 31
  }

  /** The month after (year, mon). */
  function NextMonth(year: int, mon: int): (r: (int, int))
  {
    if mon == 12 then (year + 1, 1) else (year, mon + 1)
  }

  /** The epoch itself converts to 0. */
  lemma EpochIsZero()
    ensures MkTime64(1970, 1, 1, 0, 0, 0) == 0
  {
    assert ShiftMonth(1970, 1) == (1969, 11);
    assert DayTerm(1969, 11, 1) == 814;
  }

  /** A leap second (sec = 60) is the same instant as second 0 of the next minute. */
  lemma LeapSecond(year: int, mon: int, day: int, hour: int, min: int)
    requires IsU32(year) && IsU32(mon) && IsU32(day) && IsU32(hour) && IsU32(min) && IsU32(min + 1)
    ensures MkTime64(year, mon, day, hour, min, 60) == MkTime64(year, mon, day, hour, min + 1, 0)
  {
  }

  /** Hour 24 of a day is hour 0 of the following day. */
  lemma MidnightTomorrow(year: int, mon: int, day: int, min: int, sec: int)
    requires PlainDate(year, mon, day) && day < 1_000_000
    requires IsU32(min) && IsU32(sec)
    ensures MkTime64(year, mon, day, 24, min, sec) == MkTime64(year, mon, day + 1, 0, min, sec)
  {
    MkTime64Affine(year, mon, day, 24, min, sec);
    MkTime64Affine(year, mon, day + 1, 0, min, sec);
  }

  /** Number of multiples of 4, 100 or 400 in (y - 1, y]. */
  lemma StepDiv(y: int)
    requires 1 <= y
    ensures y / 4 - (y - 1) / 4 == (if y % 4 == 0 then 1 else 0)
    ensures y / 100 - (y - 1) / 100 == (if y % 100 == 0 then 1 else 0)
    ensures y / 400 - (y - 1) / 400 == (if y % 400 == 0 then 1 else 0)
  {
  }

  /** Divisibility by 400 implies divisibility by 100, and by 100 implies by 4. */
  lemma CenturyDivides(y: int)
    ensures y % 400 == 0 ==> y % 100 == 0
    ensures y % 100 == 0 ==> y % 4 == 0
  {
    if y % 400 == 0 {
      DivModUnique(y, 100, 4 * (y / 400), 0);
    }
    if y % 100 == 0 {
      DivModUnique(y, 4, 25 * (y / 100), 0);
    }
  }

  /** February: the shifted year ends with it, so the step into March
    * carries the leap-day terms. */
  lemma EpochDaysFebruary(year: int)
    requires 1 <= year
    ensures EpochDays(year, 1, 1) == EpochDays(year - 1, 12, 1) + DaysInMonth(year, 2)
  {
    StepDiv(year);
    CenturyDivides(year);
  }

  /** One month step of the shifted day count. */
  lemma EpochDaysMonthStep(year: int, mon: int)
    requires 1 <= year < 1_000_000 && 1 <= mon <= 12
    ensures EpochDays(ShiftMonth(NextMonth(year, mon).0, NextMonth(year, mon).1).0,
                      ShiftMonth(NextMonth(year, mon).0, NextMonth(year, mon).1).1, 1)
            == EpochDays(ShiftMonth(year, mon).0, ShiftMonth(year, mon).1, 1) + DaysInMonth(year, mon)
  {
    if mon == 2 {
      EpochDaysFebruary(year);
      assert ShiftMonth(year, 2) == (year - 1, 12);
      assert ShiftMonth(year, 3) == (year, 1);
    } else if mon == 12 {
      assert ShiftMonth(year, 12) == (year, 10);
      assert ShiftMonth(year + 1, 1) == (year, 11);
    } else if mon == 1 {
      assert ShiftMonth(year, 1) == (year - 1, 11);
      assert ShiftMonth(year, 2) == (year - 1, 12);
    } else {
      assert ShiftMonth(year, mon) == (year, mon - 2);
      assert ShiftMonth(year, mon + 1) == (year, mon - 1);
      MidMonthTerm(year, mon);
    }
  }

  /** March to November: the 367 * mon / 12 term steps by the month's length. */
  lemma MidMonthTerm(year: int, mon: int)
    requires 3 <= mon <= 11
    ensures 367 * (mon - 1) / 12 - 367 * (mon - 2) / 12 == DaysInMonth(year, mon)
  {
    if mon == 3 {
    } else if mon == 4 {
    } else if mon == 5 {
    } else if mon == 6 {
    } else if mon == 7 {
    } else if mon == 8 {
    } else if mon == 9 {
    } else if mon == 10 {
    } else {
      assert mon == 11;
    }
  }

  /** Consecutive first-of-month midnights lie exactly one Gregorian month
    * apart: the closed form agrees with the calendar's month lengths. */
  lemma MonthLength(year: int, mon: int)
    requires 1 <= year < 1_000_000 && 1 <= mon <= 12
    ensures MkTime64(NextMonth(year, mon).0, NextMonth(year, mon).1, 1, 0, 0, 0)
            == MkTime64(year, mon, 1, 0, 0, 0) + 86400 * DaysInMonth(year, mon)
  {
    MkTime64Affine(year, mon, 1, 0, 0, 0);
    MkTime64Affine(NextMonth(year, mon).0, NextMonth(year, mon).1, 1, 0, 0, 0);
    EpochDaysMonthStep(year, mon);
  }

  /** time_after32(a, b): a is after b when (s32)(b - a) < 0. */
  predicate TimeAfter32(a: int, b: int)
    requires IsU32(a) && IsU32(b)
  {
    ToS32(ToU32(b - a)) < 0
  }

  /** time_before32(b, a) is time_after32(a, b). */
  predicate TimeBefore32(b: int, a: int)
    requires IsU32(a) && IsU32(b)
  {
    TimeAfter32(a, b)
  }

  /** time_between32(t, l, h): (u32)(h - l) >= (u32)(t - l). */
  predicate TimeBetween32(t: int, l: int, h: int)
  {
    ToU32(h - l) >= ToU32(t - l)
  }

  /** For real times less than 2^31 seconds apart, the wrapped 32-bit
    * comparison gives the real ordering. */
  lemma TimeAfter32Correct(a: int, b: int)
    requires -0x8000_0000 < a - b < 0x8000_0000
    ensures TimeAfter32(ToU32(a), ToU32(b)) <==> a > b
    ensures TimeBefore32(ToU32(b), ToU32(a)) <==> b < a
  {
    ToU32Sub(b, a);
    if b - a >= 0 {
      ToU32Fits(b - a);
    } else {
      ToU32Shift(b - a, 1);
      ToU32Fits(b - a + U32);
    }
  }

  /** A 32-bit timestamp t lies in [l, h] of the real timeline: if l <= h
    * and t are fewer than 2^32 seconds past l, the wrapped test holds
    * iff t <= h. */
  lemma TimeBetween32Correct(t: int, l: int, h: int)
    requires 0 <= h - l < U32 && 0 <= t - l < U32
    ensures TimeBetween32(ToU32(t), ToU32(l), ToU32(h)) <==> t <= h
  {
    ToU32Sub(h, l);
    ToU32Fits(h - l);
    ToU32Sub(t, l);
    ToU32Fits(t - l);
  }

  /** The documented equivalence with !(time_before32(t, l) ||
    * time_after32(t, h)) holds while the range h - l is below 2^31. */
  lemma TimeBetween32AsBeforeAfter(t: int, l: int, h: int)
    requires IsU32(t) && IsU32(l) && IsU32(h)
    requires ToU32(h - l) < 0x8000_0000
    ensures TimeBetween32(t, l, h) <==> !(TimeBefore32(t, l) || TimeAfter32(t, h))
  {
    var d := ToU32(h - l);
    var e := ToU32(t - l);
    assert ToU32(h - t) == ToU32(d - e) by {
      ToU32Sub(h - l, t - l);
    }
    if e < 0x8000_0000 {
      if d >= e {
        ToU32Fits(d - e);
      } else {
        ToU32Shift(d - e, 1);
        ToU32Fits(d - e + U32);
      }
    }
  }

  /** Over a range of 2^31 or more the documented equivalence fails. */
  lemma TimeBetween32WideRange()
    ensures TimeBetween32(0x8000_0005, 0, 0x8000_000A)
    ensures TimeBefore32(0x8000_0005, 0)
  {
  }

  /** timespec64_valid of include/linux/time64.h: a non-negative second
    * count and a nanosecond count below NSEC_PER_SEC (read as unsigned). */
  const NSEC_PER_SEC: int := 1_000_000_000

  datatype Timespec64 = Timespec64(tvSec: int, tvNsec: int)

  datatype Itimerspec64 = Itimerspec64(interval: Timespec64, value: Timespec64)

  predicate TimespecValid(ts: Timespec64)
  {
    ts.tvSec >= 0 && 0 <= ts.tvNsec < NSEC_PER_SEC
  }

  /** itimerspec64_valid: false as soon as either member is invalid. */
  function ItimerspecValid(its: Itimerspec64): (r: bool)
    ensures r <==> TimespecValid(its.interval) && TimespecValid(its.value)
  {
    if !TimespecValid(its.interval) || !TimespecValid(its.value) then false else true
  }
}
