/**
 * CPU capacity bookkeeping of drivers/base/arch_topology.c: the per-CPU
 * frequency-invariance scales set by cpufreq, the per-CPU capacity
 * (cpu_scale) written through sysfs, and the boot-time computation of
 * capacities from the device tree's capacity-dmips-mhz values and the
 * policies' maximum frequencies.
 *
 * The file's static state is one `Topology` object: each per-CPU variable
 * is a sequence indexed by CPU, `raw_capacity` is the array kcalloc
 * returns (null once freed), cpumasks are sets of CPU numbers. All CPUs
 * 0 .. n-1 are possible, so nr_cpu_ids is n. Allocation failures, the
 * text sysfs hands in and the policies cpufreq reports are parameters;
 * scheduled work is recorded as a flag.
 */
module ArchTopology {
  import opened Wrappers

  const CapacityShift: nat := 10
  const TaskCommLen: nat := 16
  const CapacityScale: nat := 1024

  /** `(cur_freq << SCHED_CAPACITY_SHIFT) / max_freq` in unsigned long. */
  function FreqScale(cur: nat, max: nat): nat
    requires max > 0
  {
    (cur * CapacityScale % U64) / max
  }

  /** A current frequency up to the maximum scales into 0 ..
    * SCHED_CAPACITY_SCALE, the maximum itself to exactly 1024, and the
    * scale grows with the frequency. */
  lemma FreqScaleBounds(cur: nat, cur': nat, max: nat)
    requires 0 < max < 0x40_0000_0000_0000 && cur <= cur' <= max
    ensures FreqScale(cur, max) <= FreqScale(cur', max) <= CapacityScale
    ensures FreqScale(max, max) == CapacityScale
  {
    assert max * CapacityScale < U64;
    assert cur * CapacityScale % U64 == cur * CapacityScale;
    assert cur' * CapacityScale % U64 == cur' * CapacityScale;
    assert max * CapacityScale % U64 == max * CapacityScale;
    DivMono(cur * CapacityScale, cur' * CapacityScale, max);
    DivMono(cur' * CapacityScale, max * CapacityScale, max);
    MulDiv(CapacityScale, max);
  }

  /** `(raw << SCHED_CAPACITY_SHIFT) / capacity_scale` where raw is a u32:
    * the shift is done in 32 bits before the quotient is widened. */
  function NormCap(raw: nat, scale: nat): nat
    requires scale > 0
  {
    (raw * CapacityScale % U32) / scale
  }

  /** Normalisation never exceeds SCHED_CAPACITY_SCALE for a raw value up
    * to the scale, and a raw value equal to a scale below 2^22 becomes
    * exactly 1024. */
  lemma NormCapBounds(raw: nat, scale: nat)
    requires 0 < scale && raw <= scale
    ensures NormCap(raw, scale) <= CapacityScale
    ensures raw == scale && scale < 0x40_0000 ==> NormCap(raw, scale) == CapacityScale
  {
    assert raw * CapacityScale % U32 <= raw * CapacityScale <= scale * CapacityScale;
    DivMono(raw * CapacityScale % U32, scale * CapacityScale, scale);
    MulDiv(CapacityScale, scale);
  }

  /** The 32-bit shift wraps from 2^22 up: a largest raw capacity of
    * 0x40_0000 normalises to 0 instead of 1024. */
  lemma NormCapWraps()
    ensures NormCap(0x40_0000, 0x40_0000) == 0
  {
  }

  /** The raw capacity the cpufreq callback derives, `cpu_scale *
    * max_freq / 1000UL` in unsigned long, stored in a u32. */
  function RawFromFreq(cpuScale: nat, maxFreq: nat): (r: nat)
    ensures r < U32
  {
    MulNonneg(cpuScale, maxFreq);
    ((cpuScale * maxFreq) % U64 / 1000) % U32
  }

  /** The first CPU of the mask at or after `from`, or nr_cpu_ids. */
  function FirstCpu(cpus: set<nat>, n: nat, from: nat): (r: nat)
    requires from <= n
    ensures from <= r <= n
    ensures r < n ==> r in cpus
    ensures forall c :: from <= c < r ==> c !in cpus
    decreases n - from
  {
    if from == n then n else if from in cpus then from else FirstCpu(cpus, n, from + 1)
  }

  /** arch_set_max_freq_scale's guard as written, `cpu > nr_cpu_ids`:
    * true when the function returns early. */
  predicate MaxFreqGuardAsWritten(first: nat, n: nat) {
    first > n
  }

  /** For an empty mask cpumask_first returns nr_cpu_ids, which the
    * guard lets through; the per-CPU read that follows is then of CPU
    * nr_cpu_ids, which does not exist. */
  lemma EmptyMaskPassesGuard(n: nat)
    ensures FirstCpu({}, n, 0) == n
    ensures !MaxFreqGuardAsWritten(FirstCpu({}, n, 0), n)
  {
  }

  /** The guard `cpu >= nr_cpu_ids`. */
  predicate MaxFreqGuard(first: nat, n: nat) {
    first >= n
  }

  /** Past the corrected guard the first CPU is a member of the mask and a
    * valid CPU number; the guard stops exactly the empty mask. */
  lemma MaxFreqGuardSound(cpus: set<nat>, n: nat)
    ensures !MaxFreqGuard(FirstCpu(cpus, n, 0), n) ==> FirstCpu(cpus, n, 0) < n && FirstCpu(cpus, n, 0) in cpus
    ensures MaxFreqGuard(FirstCpu(cpus, n, 0), n) <==> forall c :: 0 <= c < n ==> c !in cpus
  {
  }

  /** The possible CPUs, 0 .. n-1, as a cpumask. */
  function AllCpus(n: nat): (r: set<nat>)
    ensures forall c: nat :: c in r <==> c < n
  {
    if n == 0 then {} else AllCpus(n - 1) + {n - 1}
  }

  /** strncmp(comm, target, strnlen(comm, TASK_COMM_LEN)) == 0: the
    * target starts with the task's name (every target matches an empty
    * name). */
  predicate FixupTarget(comm: string, target: string)
  {
    var k := Min(|comm|, TaskCommLen);
    k <= |target| && target[..k] == comm[..k]
  }

  /** How kstrtoul read the text written to cpu_capacity: the value, or
    * the error it returns (-EINVAL for bad text, -ERANGE on overflow). */
  datatype Parsed = Value(v: nat) | Invalid | Overflow

  class Topology {
    /** The number of possible CPUs, which is also nr_cpu_ids. */
    const n: nat

    var freqScale: seq<nat>
    var maxCpuFreq: seq<nat>
    var maxFreqScale: seq<nat>
    var cpuScale: seq<nat>

    var capacityScale: nat
    var rawCapacity: array?<nat>
    var capParsingFailed: bool
    var cpusToVisit: set<nat>

    /** update_topology_flags_work has been scheduled. */
    var topologyWorkQueued: bool
    /** parsing_done_work has been scheduled. */
    var parsingDoneQueued: bool

    /** Every per-CPU variable covers every CPU; capacity_scale, a u32, is
      * at least every raw capacity, and raw_capacity has one slot per
      * possible CPU. */
    predicate Valid()
      reads this, rawCapacity
    {
      |freqScale| == n && |maxCpuFreq| == n && |maxFreqScale| == n && |cpuScale| == n &&
      capacityScale < U32 &&
      (rawCapacity != null ==>
        rawCapacity.Length == n &&
        forall i :: 0 <= i < n ==> rawCapacity[i] <= capacityScale)
    }

    /** The boot state: freq_scale, max_freq_scale and cpu_scale at
      * SCHED_CAPACITY_SCALE, max_cpu_freq and capacity_scale 0, no raw
      * capacities. */
    constructor (n: nat)
      ensures Valid() && this.n == n
      ensures freqScale == seq(n, _ => CapacityScale) && maxFreqScale == seq(n, _ => CapacityScale)
      ensures cpuScale == seq(n, _ => CapacityScale) && maxCpuFreq == seq(n, _ => 0)
      ensures capacityScale == 0 && rawCapacity == null && !capParsingFailed
      ensures cpusToVisit == {} && !topologyWorkQueued && !parsingDoneQueued
    {
      this.n := n;
      freqScale := seq(n, _ => CapacityScale);
      maxCpuFreq := seq(n, _ => 0);
      maxFreqScale := seq(n, _ => CapacityScale);
      cpuScale := seq(n, _ => CapacityScale);
      capacityScale := 0;
      rawCapacity := null;
      capParsingFailed := false;
      cpusToVisit := {};
      topologyWorkQueued := false;
      parsingDoneQueued := false;
    }

    /** The state a method leaves alone when it only writes the named
      * per-CPU sequences. */
    twostate predicate ScalarsUnchanged()
      reads this
    {
      capacityScale == old(capacityScale) && rawCapacity == old(rawCapacity) &&
      capParsingFailed == old(capParsingFailed) && cpusToVisit == old(cpusToVisit) &&
      topologyWorkQueued == old(topologyWorkQueued) && parsingDoneQueued == old(parsingDoneQueued)
    }

    /** arch_set_freq_scale: every CPU of the mask, and only those, gets
      * the frequency scale of cur over max and records max as its
      * maximum frequency. */
    method ArchSetFreqScale(cpus: set<nat>, cur: nat, max: nat)
      requires Valid() && 0 < max < U64 && cur < U64
      modifies this
      ensures Valid() && ScalarsUnchanged()
      ensures maxFreqScale == old(maxFreqScale) && cpuScale == old(cpuScale)
      ensures forall i :: 0 <= i < n ==>
                freqScale[i] == (if i in cpus then FreqScale(cur, max) else old(freqScale[i])) &&
                maxCpuFreq[i] == (if i in cpus then max else old(maxCpuFreq[i]))
    {
      var scale := (cur * CapacityScale % U64) / max;
      var i := 0;
      while i < n
        invariant 0 <= i <= n && Valid() && ScalarsUnchanged()
        invariant maxFreqScale == old(maxFreqScale) && cpuScale == old(cpuScale)
        invariant forall j :: 0 <= j < n ==>
                    freqScale[j] == (if j < i && j in cpus then scale else old(freqScale[j])) &&
                    maxCpuFreq[j] == (if j < i && j in cpus then max else old(maxCpuFreq[j]))
      {
        if i in cpus {
          freqScale := freqScale[i := scale];
          maxCpuFreq := maxCpuFreq[i := max];
        }
        i := i + 1;
      }
    }

    /** arch_set_max_freq_scale with the guard `cpu >= nr_cpu_ids`: an
      * empty mask, or a first CPU with no maximum frequency recorded,
      * changes nothing; otherwise every CPU of the mask gets the policy
      * maximum scaled by that CPU's maximum frequency. */
    method ArchSetMaxFreqScale(cpus: set<nat>, policyMaxFreq: nat)
      requires Valid() && policyMaxFreq < U64
      modifies this
      ensures Valid() && ScalarsUnchanged()
      ensures freqScale == old(freqScale) && maxCpuFreq == old(maxCpuFreq) && cpuScale == old(cpuScale)
      ensures var first := FirstCpu(cpus, n, 0);
              if first >= n || maxCpuFreq[first] == 0 then maxFreqScale == old(maxFreqScale)
              else forall i :: 0 <= i < n ==>
                     maxFreqScale[i] == (if i in cpus then FreqScale(policyMaxFreq, maxCpuFreq[first])
                                         else old(maxFreqScale[i]))
    {
      var cpu := 0;
      while cpu < n && cpu !in cpus
        invariant 0 <= cpu <= n
        invariant FirstCpu(cpus, n, 0) == FirstCpu(cpus, n, cpu)
      {
        cpu := cpu + 1;
      }
      if MaxFreqGuard(cpu, n) {
        return;
      }
      var maxFreq := maxCpuFreq[cpu];
      if maxFreq == 0 {
        return;
      }
      var scale := (policyMaxFreq * CapacityScale % U64) / maxFreq;
      var i := 0;
      while i < n
        invariant 0 <= i <= n && Valid() && ScalarsUnchanged()
        invariant freqScale == old(freqScale) && maxCpuFreq == old(maxCpuFreq) && cpuScale == old(cpuScale)
        invariant forall j :: 0 <= j < n ==>
                    maxFreqScale[j] == (if j < i && j in cpus then scale else old(maxFreqScale[j]))
      {
        if i in cpus {
          maxFreqScale := maxFreqScale[i := scale];
        }
        i := i + 1;
      }
    }

    /** topology_set_cpu_scale. */
    method SetCpuScale(cpu: nat, capacity: nat)
      requires Valid() && cpu < n
      modifies this
      ensures Valid() && ScalarsUnchanged()
      ensures cpuScale == old(cpuScale)[cpu := capacity]
      ensures freqScale == old(freqScale) && maxCpuFreq == old(maxCpuFreq) && maxFreqScale == old(maxFreqScale)
    {
      cpuScale := cpuScale[cpu := capacity];
    }

    /** cpu_capacity_show: the CPU's capacity. With CONFIG_CPU_CAPACITY_FIXUP
      * (`fixup` holds cpu_cap_fixup_target) a reading task whose name
      * matches is shown the larger of the first and last CPU's capacity
      * for any CPU whose capacity is neither of those two, so it only
      * ever sees one of the two ends. */
    method CpuCapacityShow(cpu: nat, comm: string, fixup: Option<string>) returns (capacity: nat)
      requires Valid() && cpu < n
      ensures fixup.None? || !FixupTarget(comm, fixup.value) ==> capacity == cpuScale[cpu]
      ensures fixup.Some? && FixupTarget(comm, fixup.value) ==>
                && (capacity == cpuScale[0] || capacity == cpuScale[n - 1])
                && (cpuScale[cpu] == cpuScale[0] || cpuScale[cpu] == cpuScale[n - 1] ==> capacity == cpuScale[cpu])
                && (cpuScale[cpu] != cpuScale[0] && cpuScale[cpu] != cpuScale[n - 1] ==>
                      capacity == Max(cpuScale[0], cpuScale[n - 1]))
    {
      if fixup.Some? && FixupTarget(comm, fixup.value) {
        var curr, left, right := cpuScale[cpu], cpuScale[0], cpuScale[n - 1];
        if curr != left && curr != right {
          return if left > right then left else right;
        }
      }
      capacity := cpuScale[cpu];
    }

    /** cpu_capacity_store: an empty write returns 0 and a parse error its
      * code, a capacity above SCHED_CAPACITY_SCALE gives -EINVAL, all
      * without effect; otherwise every core sibling of the CPU gets the
      * new capacity, the topology update is scheduled and the whole count
      * is consumed. */
    method CpuCapacityStore(siblings: set<nat>, count: nat, parsed: Parsed) returns (r: int)
      requires Valid()
      modifies this
      ensures Valid()
      ensures count == 0 ==> r == 0
      ensures count > 0 && parsed.Invalid? ==> r == -EINVAL
      ensures count > 0 && parsed.Overflow? ==> r == -ERANGE
      ensures count > 0 && parsed.Value? && parsed.v > CapacityScale ==> r == -EINVAL
      ensures r != count ==> cpuScale == old(cpuScale) && topologyWorkQueued == old(topologyWorkQueued)
      ensures count > 0 && parsed.Value? && parsed.v <= CapacityScale ==>
                r == count && topologyWorkQueued &&
                forall i :: 0 <= i < n ==> cpuScale[i] == (if i in siblings then parsed.v else old(cpuScale[i]))
      ensures freqScale == old(freqScale) && maxCpuFreq == old(maxCpuFreq) && maxFreqScale == old(maxFreqScale)
      ensures capacityScale == old(capacityScale) && rawCapacity == old(rawCapacity)
      ensures capParsingFailed == old(capParsingFailed) && cpusToVisit == old(cpusToVisit)
      ensures parsingDoneQueued == old(parsingDoneQueued)
    {
      if count == 0 {
        return 0;
      }
      match parsed
      case Invalid => return -EINVAL;
      case Overflow => return -ERANGE;
      case Value(newCapacity) =>
        if newCapacity > CapacityScale {
          return -EINVAL;
        }
        var i := 0;
        while i < n
          invariant 0 <= i <= n && Valid() && ScalarsUnchanged()
          invariant freqScale == old(freqScale) && maxCpuFreq == old(maxCpuFreq) && maxFreqScale == old(maxFreqScale)
          invariant forall j :: 0 <= j < n ==>
                      cpuScale[j] == (if j < i && j in siblings then newCapacity else old(cpuScale[j]))
        {
          if i in siblings {
            SetCpuScale(i, newCapacity);
          }
          i := i + 1;
        }
        topologyWorkQueued := true;
        return count;
    }

    /** free_raw_capacity. */
    method FreeRawCapacity()
      modifies this
      ensures rawCapacity == null
      ensures freqScale == old(freqScale) && maxCpuFreq == old(maxCpuFreq)
      ensures maxFreqScale == old(maxFreqScale) && cpuScale == old(cpuScale)
      ensures capacityScale == old(capacityScale) && capParsingFailed == old(capParsingFailed)
      ensures cpusToVisit == old(cpusToVisit)
      ensures topologyWorkQueued == old(topologyWorkQueued) && parsingDoneQueued == old(parsingDoneQueued)
    {
      rawCapacity := null;
    }

    /** topology_normalize_cpu_scale: without raw capacities nothing
      * changes; otherwise each CPU's capacity becomes its raw capacity
      * normalised by capacity_scale. */
    method NormalizeCpuScale()
      requires Valid() && (rawCapacity != null ==> capacityScale > 0)
      modifies this
      ensures Valid() && ScalarsUnchanged()
      ensures freqScale == old(freqScale) && maxCpuFreq == old(maxCpuFreq) && maxFreqScale == old(maxFreqScale)
      ensures rawCapacity == null ==> cpuScale == old(cpuScale)
      ensures rawCapacity != null ==>
                forall i :: 0 <= i < n ==> cpuScale[i] == NormCap(rawCapacity[i], capacityScale)
    {
      if rawCapacity == null {
        return;
      }
      var cpu := 0;
      while cpu < n
        invariant 0 <= cpu <= n && Valid() && ScalarsUnchanged()
        invariant freqScale == old(freqScale) && maxCpuFreq == old(maxCpuFreq) && maxFreqScale == old(maxFreqScale)
        invariant forall j :: 0 <= j < cpu ==> cpuScale[j] == NormCap(rawCapacity[j], capacityScale)
      {
        var capacity := NormCap(rawCapacity[cpu], capacityScale);
        SetCpuScale(cpu, capacity);
        cpu := cpu + 1;
      }
    }

    /** topology_parse_cpu_capacity for one CPU node, whose
      * capacity-dmips-mhz property is `dmips` (None when missing). Once
      * parsing has failed every call returns false. A present value is
      * recorded, allocating the raw capacities on first use, and raises
      * capacity_scale to at least it; a missing one, or a failed
      * allocation, latches the failure and leaves no raw capacities. */
    method ParseCpuCapacity(cpu: nat, dmips: Option<nat>, allocFails: bool) returns (ok: bool)
      requires Valid() && cpu < n
      requires dmips.Some? ==> dmips.value < U32
      modifies this, rawCapacity
      ensures Valid()
      ensures old(capParsingFailed) ==> !ok && capParsingFailed && rawCapacity == old(rawCapacity)
      ensures !old(capParsingFailed) && dmips.None? ==> !ok && capParsingFailed && rawCapacity == null
      ensures !old(capParsingFailed) && dmips.Some? && old(rawCapacity) == null && allocFails ==>
                !ok && capParsingFailed && rawCapacity == null
      ensures ok <==> !old(capParsingFailed) && dmips.Some? && (old(rawCapacity) != null || !allocFails)
      ensures ok ==>
                !capParsingFailed && rawCapacity != null &&
                rawCapacity[cpu] == dmips.value &&
                capacityScale == Max(dmips.value, old(capacityScale)) &&
                forall i :: 0 <= i < n && i != cpu ==>
                  rawCapacity[i] == (if old(rawCapacity) == null then 0 else old(rawCapacity[i]))
      ensures !ok ==> capacityScale == old(capacityScale)
      ensures freqScale == old(freqScale) && maxCpuFreq == old(maxCpuFreq)
      ensures maxFreqScale == old(maxFreqScale) && cpuScale == old(cpuScale)
      ensures cpusToVisit == old(cpusToVisit)
      ensures topologyWorkQueued == old(topologyWorkQueued) && parsingDoneQueued == old(parsingDoneQueued)
    {
      if capParsingFailed {
        return false;
      }
      match dmips
      case Some(capacity) =>
        if rawCapacity == null {
          if allocFails {
            capParsingFailed := true;
            return false;
          }
          rawCapacity := new nat[n](_ => 0);
        }
        capacityScale := Max(capacity, capacityScale);
        rawCapacity[cpu] := capacity;
        return true;
      case None =>
        capParsingFailed := true;
        FreeRawCapacity();
        return false;
    }

    /** register_cpufreq_notifier: -EINVAL on ACPI systems or without raw
      * capacities, -ENOMEM when the cpumask cannot be allocated, otherwise
      * every possible CPU is left to visit and the registration's result
      * is returned. */
    method RegisterCpufreqNotifier(acpiDisabled: bool, allocFails: bool, registerResult: int) returns (r: int)
      requires Valid()
      modifies this
      ensures Valid()
      ensures !acpiDisabled || rawCapacity == null ==> r == -EINVAL && cpusToVisit == old(cpusToVisit)
      ensures acpiDisabled && rawCapacity != null && allocFails ==> r == -ENOMEM && cpusToVisit == old(cpusToVisit)
      ensures acpiDisabled && rawCapacity != null && !allocFails ==>
                r == registerResult && cpusToVisit == AllCpus(n)
      ensures freqScale == old(freqScale) && maxCpuFreq == old(maxCpuFreq)
      ensures maxFreqScale == old(maxFreqScale) && cpuScale == old(cpuScale)
      ensures capacityScale == old(capacityScale) && rawCapacity == old(rawCapacity)
      ensures capParsingFailed == old(capParsingFailed)
      ensures topologyWorkQueued == old(topologyWorkQueued) && parsingDoneQueued == old(parsingDoneQueued)
    {
      if !acpiDisabled || rawCapacity == null {
        return -EINVAL;
      }
      if allocFails {
        return -ENOMEM;
      }
      cpusToVisit := AllCpus(n);
      r := registerResult;
    }

    /** init_cpu_capacity_callback for a CPUFREQ_NOTIFY (when `notify`) of
      * a policy over `related` with maximum frequency `maxFreq`. Without
      * raw capacities or for another event nothing happens. Otherwise the
      * policy's CPUs are visited: each gets the raw capacity of its
      * capacity at maxFreq, and capacity_scale stays the running maximum.
      * When no CPU is left to visit the capacities are normalised, the
      * raw capacities freed and both works scheduled. */
    method InitCpuCapacityCallback(notify: bool, related: set<nat>, maxFreq: nat) returns (r: int)
      requires Valid() && maxFreq < U32
      requires rawCapacity != null && notify ==> capacityScale > 0
      modifies this, rawCapacity
      ensures Valid() && r == 0
      ensures old(rawCapacity) == null || !notify ==>
                cpuScale == old(cpuScale) && cpusToVisit == old(cpusToVisit) &&
                rawCapacity == old(rawCapacity) && capacityScale == old(capacityScale)
      ensures old(rawCapacity) != null && notify ==>
                cpusToVisit == old(cpusToVisit) - related &&
                old(capacityScale) <= capacityScale &&
                (capacityScale == old(capacityScale) ||
                 exists i :: 0 <= i < n && i in related && capacityScale == RawFromFreq(old(cpuScale[i]), maxFreq)) &&
                forall i :: 0 <= i < n ==>
                  old(rawCapacity)[i] ==
                    (if i in related then RawFromFreq(old(cpuScale[i]), maxFreq) else old(rawCapacity[i])) &&
                  old(rawCapacity)[i] <= capacityScale
      ensures old(rawCapacity) != null && notify && cpusToVisit != {} ==>
                rawCapacity == old(rawCapacity) && cpuScale == old(cpuScale)
      ensures old(rawCapacity) != null && notify && cpusToVisit == {} ==>
                rawCapacity == null && topologyWorkQueued && parsingDoneQueued &&
                forall i :: 0 <= i < n ==> cpuScale[i] == NormCap(old(rawCapacity)[i], capacityScale)
      ensures freqScale == old(freqScale) && maxCpuFreq == old(maxCpuFreq) && maxFreqScale == old(maxFreqScale)
      ensures capParsingFailed == old(capParsingFailed)
    {
      if rawCapacity == null {
        return 0;
      }
      if !notify {
        return 0;
      }
      cpusToVisit := cpusToVisit - related;
      var raw := rawCapacity;
      var cpu := 0;
      while cpu < n
        invariant 0 <= cpu <= n && Valid() && rawCapacity == raw
        invariant cpuScale == old(cpuScale) && cpusToVisit == old(cpusToVisit) - related
        invariant freqScale == old(freqScale) && maxCpuFreq == old(maxCpuFreq) && maxFreqScale == old(maxFreqScale)
        invariant capParsingFailed == old(capParsingFailed)
        invariant topologyWorkQueued == old(topologyWorkQueued) && parsingDoneQueued == old(parsingDoneQueued)
        invariant old(capacityScale) <= capacityScale
        invariant capacityScale == old(capacityScale) ||
                  exists i :: 0 <= i < cpu && i in related && capacityScale == RawFromFreq(cpuScale[i], maxFreq)
        invariant forall i :: 0 <= i < n ==>
                    raw[i] == (if i < cpu && i in related then RawFromFreq(cpuScale[i], maxFreq) else old(raw[i]))
      {
        if cpu in related {
          var v := RawFromFreq(cpuScale[cpu], maxFreq);
          raw[cpu] := v;
          capacityScale := Max(v, capacityScale);
        }
        cpu := cpu + 1;
      }
      if cpusToVisit == {} {
        NormalizeCpuScale();
        topologyWorkQueued := true;
        FreeRawCapacity();
        parsingDoneQueued := true;
      }
      return 0;
    }
  }

  /** After normalisation every capacity is at most SCHED_CAPACITY_SCALE,
    * because capacity_scale bounds every raw capacity; a CPU whose raw
    * capacity is the scale itself, below 2^22, gets exactly 1024. */
  lemma NormalizedCapacitiesBounded(raw: seq<nat>, scale: nat)
    requires scale > 0 && forall i :: 0 <= i < |raw| ==> raw[i] <= scale
    ensures forall i :: 0 <= i < |raw| ==> NormCap(raw[i], scale) <= CapacityScale
    ensures scale < 0x40_0000 ==>
              forall i :: 0 <= i < |raw| && raw[i] == scale ==> NormCap(raw[i], scale) == CapacityScale
  {
    forall i | 0 <= i < |raw|
      ensures NormCap(raw[i], scale) <= CapacityScale
      ensures scale < 0x40_0000 && raw[i] == scale ==> NormCap(raw[i], scale) == CapacityScale
    {
      NormCapBounds(raw[i], scale);
    }
  }
}
