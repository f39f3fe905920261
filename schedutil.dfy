/**
 * The frequency-selection state of kernel/sched/cpufreq_schedutil.c: the
 * rate limits a policy applies before moving its next frequency, the
 * IO-wait boost a CPU accumulates and spends, the utilisation the
 * governor derives for a CPU, and the tunables that feed them.
 *
 * Times are u64 nanoseconds and their differences are read as s64.
 * Runqueue readings (RT, deadline and IRQ utilisation, uclamp) come from
 * the scheduler core, which is not part of this model: they are
 * parameters. TICK_NSEC depends on HZ and is a parameter too.
 */
module Schedutil {
  import opened Wrappers

  const CapacityShift: nat := 10
  const CapacityScale: nat := 1024
  const NsecPerUsec: nat := 1000

  /** `s64 delta_ns = time - last`: the u64 difference read as s64. */
  function DeltaNs(time: nat, last: nat): (r: int)
    requires IsU64(time) && IsU64(last)
    ensures last <= time && time - last < 0x8000_0000_0000_0000 ==> r == time - last
  {
    ToS64((time - last) % U64)
  }

  // ---------------------------------------------------------------
  // Rate limits
  // ---------------------------------------------------------------

  class SugovPolicy {
    var lastFreqUpdateTime: nat
    var minRateLimitNs: int
    var upRateDelayNs: int
    var downRateDelayNs: int
    var nextFreq: nat
    var limitsChanged: bool
    var needFreqUpdate: bool

    predicate Valid()
      reads this
    {
      IsU64(lastFreqUpdateTime)
    }

    /** The policy state sugov_start sets up from the tunables' limits. */
    constructor (upRateLimitUs: nat, downRateLimitUs: nat)
      ensures Valid() && lastFreqUpdateTime == 0 && nextFreq == 0
      ensures upRateDelayNs == upRateLimitUs * NsecPerUsec && downRateDelayNs == downRateLimitUs * NsecPerUsec
      ensures minRateLimitNs == Min(upRateDelayNs, downRateDelayNs)
      ensures !limitsChanged && !needFreqUpdate
    {
      var up := upRateLimitUs * NsecPerUsec;
      var down := downRateLimitUs * NsecPerUsec;
      upRateDelayNs := up;
      downRateDelayNs := down;
      minRateLimitNs := Min(up, down);
      lastFreqUpdateTime := 0;
      nextFreq := 0;
      limitsChanged := false;
      needFreqUpdate := false;
    }

    /** sugov_up_down_rate_limit: a rise is held back until the up delay
      * has passed since the last update, a fall until the down delay has. */
    predicate UpDownRateLimit(time: nat, next: nat)
      requires Valid() && IsU64(time)
      reads this
    {
      var delta := DeltaNs(time, lastFreqUpdateTime);
      (next > nextFreq && delta < upRateDelayNs) || (next < nextFreq && delta < downRateDelayNs)
    }

    /** sugov_should_update_freq. A CPU that cannot update the policy
      * gives false; a pending limits change is consumed and forces an
      * update; otherwise the minimum rate limit decides. */
    method ShouldUpdateFreq(time: nat, thisCpuCanUpdate: bool) returns (r: bool)
      requires Valid() && IsU64(time)
      modifies this`limitsChanged, this`needFreqUpdate
      ensures !thisCpuCanUpdate ==> !r && limitsChanged == old(limitsChanged) && needFreqUpdate == old(needFreqUpdate)
      ensures thisCpuCanUpdate && old(limitsChanged) ==> r && !limitsChanged && needFreqUpdate
      ensures thisCpuCanUpdate && !old(limitsChanged) ==>
                (r <==> DeltaNs(time, lastFreqUpdateTime) >= minRateLimitNs) &&
                !limitsChanged && needFreqUpdate == old(needFreqUpdate)
    {
      if !thisCpuCanUpdate {
        return false;
      }
      if limitsChanged {
        limitsChanged := false;
        needFreqUpdate := true;
        return true;
      }
      var deltaNs := DeltaNs(time, lastFreqUpdateTime);
      r := deltaNs >= minRateLimitNs;
    }

    /** sugov_update_next_freq: adopt a new next frequency unless it is
      * the current one or the rate limit for its direction holds it back. */
    method UpdateNextFreq(time: nat, next: nat) returns (r: bool)
      requires Valid() && IsU64(time)
      modifies this`nextFreq, this`lastFreqUpdateTime
      ensures Valid()
      ensures r <==> next != old(nextFreq) && !old(UpDownRateLimit(time, next))
      ensures r ==> nextFreq == next && lastFreqUpdateTime == time
      ensures !r ==> nextFreq == old(nextFreq) && lastFreqUpdateTime == old(lastFreqUpdateTime)
    {
      if nextFreq == next {
        return false;
      }
      if UpDownRateLimit(time, next) {
        return false;
      }
      nextFreq := next;
      lastFreqUpdateTime := time;
      return true;
    }

    /** update_min_rate_limit_ns. */
    method UpdateMinRateLimitNs()
      modifies this`minRateLimitNs
      ensures minRateLimitNs == Min(upRateDelayNs, downRateDelayNs)
    {
      minRateLimitNs := Min(upRateDelayNs, downRateDelayNs);
    }
  }

  /** Once both delays have passed nothing is rate-limited, and an
    * unchanged frequency never is. */
  lemma RateLimitLapses(p: SugovPolicy, time: nat, next: nat)
    requires p.Valid() && IsU64(time)
    ensures next == p.nextFreq ==> !p.UpDownRateLimit(time, next)
    ensures DeltaNs(time, p.lastFreqUpdateTime) >= Max(p.upRateDelayNs, p.downRateDelayNs) ==>
              !p.UpDownRateLimit(time, next)
  {
  }

  /** Whenever the minimum rate limit is the lesser delay, a time that
    * passes sugov_should_update_freq's test is the earliest at which one
    * direction can move, and one that fails it is limited both ways. */
  lemma MinRateLimitIsFirstDeadline(p: SugovPolicy, time: nat, next: nat)
    requires p.Valid() && IsU64(time)
    requires p.minRateLimitNs == Min(p.upRateDelayNs, p.downRateDelayNs)
    ensures DeltaNs(time, p.lastFreqUpdateTime) < p.minRateLimitNs && next != p.nextFreq ==>
              p.UpDownRateLimit(time, next)
  {
  }

  // ---------------------------------------------------------------
  // Tunables
  // ---------------------------------------------------------------

  /** The frequency state of a policy is as it was before a store. */
  twostate predicate Unmoved(p: SugovPolicy)
    reads p
  {
    p.nextFreq == old(p.nextFreq) && p.lastFreqUpdateTime == old(p.lastFreqUpdateTime) &&
    p.limitsChanged == old(p.limitsChanged) && p.needFreqUpdate == old(p.needFreqUpdate)
  }

  /** The tunables a sysfs store changes, and the policies sharing them. */
  class SugovTunables {
    var upRateLimitUs: nat
    var downRateLimitUs: nat
    var hispeedLoad: nat
    const policies: seq<SugovPolicy>

    constructor (policies: seq<SugovPolicy>)
      ensures this.policies == policies
      ensures upRateLimitUs == 0 && downRateLimitUs == 0 && hispeedLoad == 0
    {
      this.policies := policies;
      upRateLimitUs := 0;
      downRateLimitUs := 0;
      hispeedLoad := 0;
    }

    /** up_rate_limit_us_store: ignored for a booster task, -EINVAL when
      * the text is not a number (`parsed` is kstrtouint's result);
      * otherwise the limit is recorded and every policy gets the new up
      * delay and a recomputed minimum. */
    method UpRateLimitStore(parsed: Option<nat>, isBooster: bool, count: int) returns (ret: int)
      requires parsed.Some? ==> IsU32(parsed.value)
      modifies this`upRateLimitUs, policies
      ensures isBooster ==> ret == count && upRateLimitUs == old(upRateLimitUs)
      ensures !isBooster && parsed.None? ==> ret == -EINVAL && upRateLimitUs == old(upRateLimitUs)
      ensures !isBooster && parsed.Some? ==>
                ret == count && upRateLimitUs == parsed.value &&
                forall p | p in policies ::
                  p.upRateDelayNs == parsed.value * NsecPerUsec &&
                  p.minRateLimitNs == Min(p.upRateDelayNs, p.downRateDelayNs)
      ensures forall p | p in policies :: p.downRateDelayNs == old(p.downRateDelayNs) && Unmoved(p)
      ensures isBooster || parsed.None? ==>
                forall p | p in policies :: p.upRateDelayNs == old(p.upRateDelayNs) &&
                                           p.minRateLimitNs == old(p.minRateLimitNs)
    {
      if isBooster {
        return count;
      }
      if parsed.None? {
        return -EINVAL;
      }
      var us := parsed.value;
      upRateLimitUs := us;
      for i := 0 to |policies|
        invariant forall j | 0 <= j < i :: policies[j].upRateDelayNs == us * NsecPerUsec &&
                    policies[j].minRateLimitNs == Min(policies[j].upRateDelayNs, policies[j].downRateDelayNs)
        invariant forall p | p in policies :: p.downRateDelayNs == old(p.downRateDelayNs) && Unmoved(p)
        invariant upRateLimitUs == us
      {
        var p := policies[i];
        p.upRateDelayNs := us * NsecPerUsec;
        p.UpdateMinRateLimitNs();
      }
      ret := count;
    }

    /** down_rate_limit_us_store, the same for the down delay. */
    method DownRateLimitStore(parsed: Option<nat>, isBooster: bool, count: int) returns (ret: int)
      requires parsed.Some? ==> IsU32(parsed.value)
      modifies this`downRateLimitUs, policies
      ensures isBooster ==> ret == count && downRateLimitUs == old(downRateLimitUs)
      ensures !isBooster && parsed.None? ==> ret == -EINVAL && downRateLimitUs == old(downRateLimitUs)
      ensures !isBooster && parsed.Some? ==>
                ret == count && downRateLimitUs == parsed.value &&
                forall p | p in policies ::
                  p.downRateDelayNs == parsed.value * NsecPerUsec &&
                  p.minRateLimitNs == Min(p.upRateDelayNs, p.downRateDelayNs)
      ensures forall p | p in policies :: p.upRateDelayNs == old(p.upRateDelayNs) && Unmoved(p)
      ensures isBooster || parsed.None? ==>
                forall p | p in policies :: p.downRateDelayNs == old(p.downRateDelayNs) &&
                                           p.minRateLimitNs == old(p.minRateLimitNs)
    {
      if isBooster {
        return count;
      }
      if parsed.None? {
        return -EINVAL;
      }
      var us := parsed.value;
      downRateLimitUs := us;
      for i := 0 to |policies|
        invariant forall j | 0 <= j < i :: policies[j].downRateDelayNs == us * NsecPerUsec &&
                    policies[j].minRateLimitNs == Min(policies[j].upRateDelayNs, policies[j].downRateDelayNs)
        invariant forall p | p in policies :: p.upRateDelayNs == old(p.upRateDelayNs) && Unmoved(p)
        invariant downRateLimitUs == us
      {
        var p := policies[i];
        p.downRateDelayNs := us * NsecPerUsec;
        p.UpdateMinRateLimitNs();
      }
      ret := count;
    }

    /** hispeed_load_show: the load in decimal and a newline. */
    method HispeedLoadShow() returns (text: string)
      ensures text == HispeedLoadText(hispeedLoad)
    {
      text := HispeedLoadText(hispeedLoad);
    }

    /** hispeed_load_store: the parsed value, capped at 100; a text that
      * does not parse leaves the tunable alone. */
    method HispeedLoadStore(parsed: Option<nat>, count: int) returns (ret: int)
      modifies this`hispeedLoad
      ensures parsed.None? ==> ret == -EINVAL && hispeedLoad == old(hispeedLoad)
      ensures parsed.Some? ==> ret == count && hispeedLoad == Min(100, parsed.value)
    {
      if parsed.None? {
        return -EINVAL;
      }
      hispeedLoad := Min(100, parsed.value);
      ret := count;
    }
  }

  /** hispeed_load_show's text, "%u\n": decimal digits that read back
    * as the load, then a newline. */
  function HispeedLoadText(load: nat): (t: string)
    ensures |t| >= 2 && t[|t| - 1] == '\n'
    ensures forall i :: 0 <= i < |t| - 1 ==> '0' <= t[i] <= '9'
    ensures DigitsValue(t[..|t| - 1]) == load
  {
    DecimalValue(load);
    var t := Decimal(load) + "\n";
    assert t[..|t| - 1] == Decimal(load);
    t
  }

  /** Store, show, store: whatever number is stored, the load shown is
    * a percentage, and writing the shown number back stores that same
    * load again. */
  lemma HispeedLoadRoundTrip(v: nat)
    ensures Min(100, v) <= 100
    ensures var load := Min(100, v);
            var t := HispeedLoadText(load);
            Min(100, DigitsValue(t[..|t| - 1])) == load
  {
  }

  // ---------------------------------------------------------------
  // IO-wait boost
  // ---------------------------------------------------------------

  /** One doubling step: `min_t(unsigned int, boost << 1, SCALE)`. */
  function DoubleBoost(boost: nat): (r: nat)
    ensures r <= CapacityScale
  {
    Min(ToU32(boost * 2), CapacityScale)
  }

  /** The boost after n successive IO wakeups, each one tick apart at
    * most, starting from no boost: the first sets the minimum, every
    * later one doubles. */
  function BoostAfter(n: nat, min: nat): nat {
    if n == 0 then 0
    else if BoostAfter(n - 1, min) == 0 then min
    else DoubleBoost(BoostAfter(n - 1, min))
  }

  /** The boost after k + 1 wakeups is min * 2^k, capped at the capacity
    * scale. */
  lemma {:induction false} BoostDoubles(k: nat, min: nat)
    requires 0 < min <= CapacityScale
    ensures BoostAfter(k + 1, min) == Min(min * Pow2(k), CapacityScale)
  {
    if k > 0 {
      BoostDoubles(k - 1, min);
      var x := min * Pow2(k - 1);
      DoubleStep(min, Pow2(k - 1));
      DoubleCapped(x);
    }
  }

  lemma DoubleStep(m: nat, p: nat)
    requires m > 0 && p > 0
    ensures m * p > 0 && m * (2 * p) == 2 * (m * p)
  {
    MulMono(1, p, m);
  }

  /** Doubling a capped positive value and capping again is capping the
    * doubled value. */
  lemma DoubleCapped(x: nat)
    requires x > 0
    ensures Min(x, CapacityScale) != 0
    ensures DoubleBoost(Min(x, CapacityScale)) == Min(2 * x, CapacityScale)
  {
    var b := Min(x, CapacityScale);
    assert ToU32(b * 2) == b * 2;
  }

  class SugovCpu {
    var iowaitBoost: nat
    var iowaitBoostPending: bool
    var lastUpdate: nat
    var min: nat

    predicate Valid()
      reads this
    {
      iowaitBoost <= CapacityScale && min <= CapacityScale && IsU64(lastUpdate)
    }

    /** The per-CPU state sugov_start sets up: a zeroed structure whose
      * minimum boost is the minimum frequency in capacity units. */
    constructor (minFreq: nat, maxFreq: nat)
      requires 0 < maxFreq && minFreq <= maxFreq
      ensures Valid()
      ensures iowaitBoost == 0 && !iowaitBoostPending && lastUpdate == 0
      ensures min == (CapacityScale * minFreq) / maxFreq
    {
      iowaitBoost := 0;
      iowaitBoostPending := false;
      lastUpdate := 0;
      ScaleBounded(minFreq, maxFreq);
      min := (CapacityScale * minFreq) / maxFreq;
    }

    /** More than a tick has passed since the last update. */
    predicate Idle(time: nat, tickNsec: nat)
      requires Valid() && IsU64(time)
      reads this
    {
      DeltaNs(time, lastUpdate) > tickNsec
    }

    /** sugov_iowait_reset: after more than a tick the boost restarts
      * from the minimum if an IO boost is asked for, from nothing if not. */
    method IowaitReset(time: nat, setIowaitBoost: bool, tickNsec: nat) returns (r: bool)
      requires Valid() && IsU64(time)
      modifies this`iowaitBoost, this`iowaitBoostPending
      ensures Valid()
      ensures r == old(Idle(time, tickNsec))
      ensures r ==> iowaitBoost == (if setIowaitBoost then min else 0) && iowaitBoostPending == setIowaitBoost
      ensures !r ==> iowaitBoost == old(iowaitBoost) && iowaitBoostPending == old(iowaitBoostPending)
    {
      var deltaNs := DeltaNs(time, lastUpdate);
      if deltaNs <= tickNsec {
        return false;
      }
      iowaitBoost := if setIowaitBoost then min else 0;
      iowaitBoostPending := setIowaitBoost;
      return true;
    }

    /** sugov_iowait_boost: a boost idle for over a tick is reset; an IO
      * wakeup with no boost pending marks one pending and starts the boost
      * at the minimum or doubles it. */
    method IowaitBoost(time: nat, iowait: bool, tickNsec: nat)
      requires Valid() && IsU64(time)
      modifies this`iowaitBoost, this`iowaitBoostPending
      ensures Valid()
      ensures old(iowaitBoost) != 0 && old(Idle(time, tickNsec)) ==>
                iowaitBoost == (if iowait then min else 0) && iowaitBoostPending == iowait
      ensures !(old(iowaitBoost) != 0 && old(Idle(time, tickNsec))) && (!iowait || old(iowaitBoostPending)) ==>
                iowaitBoost == old(iowaitBoost) && iowaitBoostPending == old(iowaitBoostPending)
      ensures !(old(iowaitBoost) != 0 && old(Idle(time, tickNsec))) && iowait && !old(iowaitBoostPending) ==>
                iowaitBoostPending &&
                iowaitBoost == if old(iowaitBoost) == 0 then min else DoubleBoost(old(iowaitBoost))
    {
      if iowaitBoost != 0 {
        var reset := IowaitReset(time, iowait, tickNsec);
        if reset {
          return;
        }
      }
      if !iowait {
        return;
      }
      if iowaitBoostPending {
        return;
      }
      iowaitBoostPending := true;
      if iowaitBoost != 0 {
        iowaitBoost := DoubleBoost(iowaitBoost);
        return;
      }
      iowaitBoost := min;
    }

    /** sugov_iowait_apply: without a boost, or after a reset, util is
      * returned; a boost not renewed since the last apply is halved and
      * dropped below the minimum; what remains is scaled into capacity
      * units and raises util to it. */
    method IowaitApply(time: nat, util: nat, max: nat, tickNsec: nat) returns (r: nat)
      requires Valid() && IsU64(time)
      modifies this`iowaitBoost, this`iowaitBoostPending
      ensures Valid()
      ensures r == util || r == Max(Boosted(iowaitBoost, max), util)
      ensures r >= util
      ensures old(iowaitBoost) == 0 ==> iowaitBoost == 0 && iowaitBoostPending == old(iowaitBoostPending)
      ensures old(iowaitBoost) != 0 && old(Idle(time, tickNsec)) ==> iowaitBoost == 0 && !iowaitBoostPending
      ensures old(iowaitBoost) != 0 && !old(Idle(time, tickNsec)) ==>
                !iowaitBoostPending &&
                iowaitBoost == (if old(iowaitBoostPending) then old(iowaitBoost)
                                else if old(iowaitBoost) / 2 < min then 0 else old(iowaitBoost) / 2)
      ensures old(iowaitBoost) != 0 && !old(Idle(time, tickNsec)) && iowaitBoost != 0 ==>
                r == Max(Boosted(iowaitBoost, max), util)
    {
      if iowaitBoost == 0 {
        return util;
      }
      var reset := IowaitReset(time, false, tickNsec);
      if reset {
        return util;
      }
      if !iowaitBoostPending {
        iowaitBoost := iowaitBoost / 2;
        if iowaitBoost < min {
          iowaitBoost := 0;
          iowaitBoostPending := false;
          return util;
        }
      }
      iowaitBoostPending := false;
      var boost := Boosted(iowaitBoost, max);
      r := Max(boost, util);
    }
  }

  /** `(iowait_boost * max) >> SCHED_CAPACITY_SHIFT` in unsigned long. */
  function Boosted(boost: nat, max: nat): nat {
    (boost * max % U64) / CapacityScale
  }

  lemma ScaleBounded(f: nat, maxFreq: nat)
    requires 0 < maxFreq && f <= maxFreq
    ensures (CapacityScale * f) / maxFreq <= CapacityScale
  {
    MulMono(f, maxFreq, CapacityScale);
    DivMono(CapacityScale * f, CapacityScale * maxFreq, maxFreq);
    MulDiv(CapacityScale, maxFreq);
  }

  /** A boost in capacity units never lifts util above the CPU's
    * capacity, for any realistic capacity. */
  lemma BoostedBounded(boost: nat, max: nat)
    requires boost <= CapacityScale && max < 0x10_0000_0000_0000
    ensures Boosted(boost, max) <= max
  {
    MulMono(boost, CapacityScale, max);
    assert boost * max < U64;
    DivMono(boost * max, max * CapacityScale, CapacityScale);
    MulDiv(max, CapacityScale);
  }

  // ---------------------------------------------------------------
  // Utilisation
  // ---------------------------------------------------------------

  /** mult_frac(x, n, d): x / d * n plus the scaled remainder, computed so
    * as not to overflow x * n. */
  function MultFrac(x: nat, n: nat, d: nat): nat
    requires d > 0
  {
    MulNonneg(x / d, n);
    MulNonneg(x % d, n);
    (x / d) * n + ((x % d) * n) / d
  }

  /** mult_frac loses nothing: it is exactly floor(x * n / d). */
  lemma MultFracExact(x: nat, n: nat, d: nat)
    requires d > 0
    ensures MultFrac(x, n, d) == (x * n) / d
  {
    var q := x / d;
    var r := x % d;
    assert x * n == (q * n) * d + r * n;
    DivAddMul(q * n, r * n, d);
  }

  /** freq_to_util: the policy's capacity scaled by freq / max_freq. */
  function FreqToUtil(max: nat, freq: nat, maxFreq: nat): (r: nat)
    requires maxFreq > 0
  {
    MultFrac(max, freq, maxFreq)
  }

  /** A frequency up to the maximum converts to a utilisation up to the
    * capacity, growing with the frequency. */
  lemma FreqToUtilBounded(max: nat, f: nat, g: nat, maxFreq: nat)
    requires 0 < maxFreq && f <= g <= maxFreq
    ensures FreqToUtil(max, f, maxFreq) <= FreqToUtil(max, g, maxFreq) <= max
  {
    MultFracExact(max, f, maxFreq);
    MultFracExact(max, g, maxFreq);
    MulMono(f, g, max);
    MulMono(g, maxFreq, max);
    DivMono(max * f, max * g, maxFreq);
    DivMono(max * g, max * maxFreq, maxFreq);
    MulDiv(max, maxFreq);
  }

  /** FREQUENCY_UTIL or ENERGY_UTIL. */
  datatype SchedutilType = FrequencyUtil | EnergyUtil

  /** The runqueue readings schedutil_cpu_util consults. */
  datatype RqUtil = RqUtil(uclampUsed: bool, rtRunnable: bool, irq: nat, utilRt: nat, utilDl: nat, bwDl: nat)

  /** scale_irq_capacity: the task utilisation shrunk to the share of
    * the CPU left by IRQ time. */
  function ScaleIrqCapacity(util: nat, irq: nat, max: nat): nat
    requires irq < max
  {
    MulNonneg(util, max - irq);
    util * (max - irq) / max
  }

  /** schedutil_cpu_util; `clamp` is uclamp_rq_util_with on this
    * runqueue. */
  function SchedutilCpuUtil(utilCfs: nat, max: nat, ty: SchedutilType, rq: RqUtil, clamp: nat -> nat): (r: nat)
    ensures r <= max
    ensures !rq.uclampUsed && ty == FrequencyUtil && rq.rtRunnable ==> r == max
    ensures rq.irq >= max ==> r == max
    ensures rq.irq < max && ty == EnergyUtil && utilCfs + rq.utilRt + rq.utilDl >= max ==> r == max
    ensures rq.irq < max && ty == FrequencyUtil && clamp(utilCfs + rq.utilRt) + rq.utilDl >= max ==> r == max
  {
    if !rq.uclampUsed && ty == FrequencyUtil && rq.rtRunnable then max
    else if rq.irq >= max then max
    else
      var util := utilCfs + rq.utilRt;
      var util := if ty == FrequencyUtil then clamp(util) else util;
      if util + rq.utilDl >= max then max
      else
        var util := if ty == EnergyUtil then util + rq.utilDl else util;
        var util := ScaleIrqCapacity(util, rq.irq, max) + rq.irq;
        var util := if ty == FrequencyUtil then util + rq.bwDl else util;
        Min(max, util)
  }

  /** The IRQ share is always accounted: below saturation the result is
    * at least the IRQ utilisation. */
  lemma CpuUtilCoversIrq(utilCfs: nat, max: nat, ty: SchedutilType, rq: RqUtil, clamp: nat -> nat)
    ensures rq.irq < max ==> SchedutilCpuUtil(utilCfs, max, ty, rq, clamp) >= rq.irq
  {
  }

  /** For energy estimation more CFS utilisation never gives less. */
  lemma EnergyUtilMonotone(a: nat, b: nat, max: nat, rq: RqUtil, clamp: nat -> nat)
    requires a <= b
    ensures SchedutilCpuUtil(a, max, EnergyUtil, rq, clamp) <= SchedutilCpuUtil(b, max, EnergyUtil, rq, clamp)
  {
    if rq.irq < max && b + rq.utilRt + rq.utilDl < max {
      var ua := a + rq.utilRt + rq.utilDl;
      var ub := b + rq.utilRt + rq.utilDl;
      MulMono(ua, ub, max - rq.irq);
      DivMono(ua * (max - rq.irq), ub * (max - rq.irq), max);
    }
  }
}
