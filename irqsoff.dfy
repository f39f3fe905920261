/**
 * The irqsoff, preemptoff and preemptirqsoff latency tracers
 * (kernel/trace/trace_irqsoff.c): a per-CPU critical section is timed
 * from the moment interrupts (or preemption) are disabled until they are
 * enabled again, and the longest one is kept as the tracer's maximum
 * latency, unless another CPU recorded a maximum in the meantime.
 *
 * The tracer's globals (tracer_enabled, trace_type, save_flags,
 * max_sequence, irqsoff_busy, function_enabled, the per-CPU tracing_cpu)
 * and the fields of the one trace array it uses (max_latency, the
 * LATENCY_FMT, OVERWRITE and FUNCTION flags, the per-CPU
 * trace_array_cpu records) are the fields of one `Tracer` object.
 * ftrace_now, tracing_thresh, tracing_is_enabled, is_tracing_stopped,
 * preempt_count and irqs_disabled are inputs; the trace entries written by
 * trace_function and __trace_stack are not modelled; the snapshot taken
 * by update_max_tr_single is recorded as the CPU it was taken for.
 */
module TraceIrqsoff {
  import opened Wrappers

  /** The two trace_type bits. */
  const TracerIrqsOffBit: nat := 2
  const TracerPreemptOffBit: nat := 4

  /** The three tracers and the trace_type each one's init sets. */
  datatype Kind = IrqsOff | PreemptOff | PreemptIrqsOff

  function TraceType(k: Kind): (r: nat)
    ensures Bit(r, 1) <==> k != PreemptOff
    ensures Bit(r, 2) <==> k != IrqsOff
  {
    match k
    case IrqsOff => TracerIrqsOffBit
    case PreemptOff => TracerPreemptOffBit
    case PreemptIrqsOff => TracerIrqsOffBit + TracerPreemptOffBit
  }

  /** preempt_trace: the preempt-off tracer is on and preemption is off. */
  predicate PreemptTrace(traceType: nat, pc: nat) {
    Bit(traceType, 2) && pc != 0
  }

  /** irq_trace: the irqs-off tracer is on and interrupts are off. */
  predicate IrqTrace(traceType: nat, irqsDisabled: bool) {
    Bit(traceType, 1) && irqsDisabled
  }

  /** tracer_hardirqs_on/off forward to the timing only for an irqs-off
    * section that preemption does not also cover. */
  function HardirqHookFires(traceType: nat, pc: nat, irqsDisabled: bool): bool {
    !PreemptTrace(traceType, pc) && IrqTrace(traceType, irqsDisabled)
  }

  /** tracer_preempt_on/off forward only for a preempt-off section that
    * interrupts being off does not also cover. */
  function PreemptHookFires(traceType: nat, pc: nat, irqsDisabled: bool): bool {
    PreemptTrace(traceType, pc) && !IrqTrace(traceType, irqsDisabled)
  }

  /** start/stop_critical_timings (idle) forward for either kind. */
  function IdleHookFires(traceType: nat, pc: nat, irqsDisabled: bool): bool {
    PreemptTrace(traceType, pc) || IrqTrace(traceType, irqsDisabled)
  }

  /** The interrupt and preemption hooks never both forward the same
    * event, and the idle hook forwards whenever either would. */
  lemma HooksExclusive(traceType: nat, pc: nat, irqsDisabled: bool)
    ensures !(HardirqHookFires(traceType, pc, irqsDisabled) && PreemptHookFires(traceType, pc, irqsDisabled))
    ensures HardirqHookFires(traceType, pc, irqsDisabled) || PreemptHookFires(traceType, pc, irqsDisabled) ==>
              IdleHookFires(traceType, pc, irqsDisabled)
  {
  }

  /** Which hook times what under each tracer: irqsoff times exactly the
    * interrupts-off sections, preemptoff exactly the preemption-off ones,
    * and preemptirqsoff hands a section covered by both to neither hook,
    * so it is timed until the later of the two is enabled again. */
  lemma HooksByKind(k: Kind, pc: nat, irqsDisabled: bool)
    ensures var t := TraceType(k);
            k == IrqsOff ==> (HardirqHookFires(t, pc, irqsDisabled) <==> irqsDisabled) &&
                             !PreemptHookFires(t, pc, irqsDisabled)
    ensures var t := TraceType(k);
            k == PreemptOff ==> (PreemptHookFires(t, pc, irqsDisabled) <==> pc != 0) &&
                                !HardirqHookFires(t, pc, irqsDisabled)
    ensures var t := TraceType(k);
            k == PreemptIrqsOff ==>
              (HardirqHookFires(t, pc, irqsDisabled) <==> irqsDisabled && pc == 0) &&
              (PreemptHookFires(t, pc, irqsDisabled) <==> pc != 0 && !irqsDisabled) &&
              (IdleHookFires(t, pc, irqsDisabled) <==> irqsDisabled || pc != 0)
  {
    var t := TraceType(k);
    assert Bit(t, 1) <==> k != PreemptOff;
    assert Bit(t, 2) <==> k != IrqsOff;
  }

  // ---------------------------------------------------------------
  // Measuring one critical section
  // ---------------------------------------------------------------

  /** delta = T1 - T0 in u64 arithmetic. */
  function Delta(t0: nat, t1: nat): (r: nat)
    requires IsU64(t0) && IsU64(t1)
    ensures IsU64(r)
    ensures t0 <= t1 ==> r == t1 - t0
    ensures t1 < t0 ==> r == U64 + t1 - t0
  {
    (t1 - t0) % U64
  }

  /** report_latency: with a tracing threshold set, every latency that
    * reaches it; otherwise only a new maximum. */
  function ReportLatency(thresh: nat, maxLatency: nat, delta: nat): (r: bool)
    ensures thresh != 0 ==> (r <==> delta >= thresh)
    ensures thresh == 0 ==> (r <==> delta > maxLatency)
  {
    if thresh != 0 then delta >= thresh else delta > maxLatency
  }

  /** struct trace_array_cpu, the fields the tracer uses. */
  datatype CpuData = CpuData(criticalSequence: nat, preemptTimestamp: nat, criticalStart: nat,
                             criticalEnd: nat, disabled: int)

  /** What check_critical_timing leaves: the maximum latency and sequence,
    * the CPU's record, and whether a snapshot of the maximum trace was
    * taken (update_max_tr_single). */
  datatype Check = Check(maxLatency: nat, maxSequence: nat, data: CpuData, snapshot: bool)

  /** check_critical_timing: the section's latency is recorded as the new
    * maximum when it is reported, no other CPU recorded one since the
    * section began (the sequence still matches) and tracing is not
    * stopped; a reported section with a matching sequence bumps the
    * sequence even when tracing is stopped.  Either way the CPU takes the
    * current sequence and restarts its clock. */
  function CheckCriticalTiming(thresh: nat, maxLatency: nat, maxSequence: nat, d: CpuData,
                               parentIp: nat, now: nat, restart: nat, stopped: bool): (r: Check)
    requires IsU64(d.preemptTimestamp) && IsU64(now) && IsU64(maxSequence)
    ensures IsU64(r.maxSequence)
    ensures r.data.criticalSequence == r.maxSequence && r.data.preemptTimestamp == restart
    ensures r.data.criticalStart == d.criticalStart && r.data.disabled == d.disabled
  {
    var delta := Delta(d.preemptTimestamp, now);
    if !ReportLatency(thresh, maxLatency, delta) || d.criticalSequence != maxSequence then
      Check(maxLatency, maxSequence, d.(criticalSequence := maxSequence, preemptTimestamp := restart), false)
    else
      var sequence := (maxSequence + 1) % U64;
      Check(if stopped then maxLatency else delta, sequence,
            d.(criticalEnd := parentIp, criticalSequence := sequence, preemptTimestamp := restart), !stopped)
  }

  /** The maximum changes only to a reported latency of a section no
    * other maximum interrupted, and only while tracing runs; such a
    * section always becomes the maximum. */
  lemma CheckRecords(thresh: nat, maxLatency: nat, maxSequence: nat, d: CpuData,
                     parentIp: nat, now: nat, restart: nat, stopped: bool)
    requires IsU64(d.preemptTimestamp) && IsU64(now) && IsU64(maxSequence)
    ensures var r := CheckCriticalTiming(thresh, maxLatency, maxSequence, d, parentIp, now, restart, stopped);
            var delta := Delta(d.preemptTimestamp, now);
            r.snapshot <==> ReportLatency(thresh, maxLatency, delta) && d.criticalSequence == maxSequence && !stopped
    ensures var r := CheckCriticalTiming(thresh, maxLatency, maxSequence, d, parentIp, now, restart, stopped);
            var delta := Delta(d.preemptTimestamp, now);
            (r.snapshot ==> r.maxLatency == delta && r.data.criticalEnd == parentIp) &&
            (!r.snapshot ==> r.maxLatency == maxLatency)
  {
  }

  /** max_sequence moves on by one (modulo 2^64) exactly when a reported
    * section had a matching sequence, whether or not tracing is stopped. */
  lemma CheckSequence(thresh: nat, maxLatency: nat, maxSequence: nat, d: CpuData,
                      parentIp: nat, now: nat, restart: nat, stopped: bool)
    requires IsU64(d.preemptTimestamp) && IsU64(now) && IsU64(maxSequence)
    ensures var r := CheckCriticalTiming(thresh, maxLatency, maxSequence, d, parentIp, now, restart, stopped);
            var delta := Delta(d.preemptTimestamp, now);
            r.maxSequence == if ReportLatency(thresh, maxLatency, delta) && d.criticalSequence == maxSequence
                             then (maxSequence + 1) % U64 else maxSequence
    ensures var r := CheckCriticalTiming(thresh, maxLatency, maxSequence, d, parentIp, now, restart, stopped);
            r.maxSequence != maxSequence ==> r.maxSequence == (maxSequence + 1) % U64
  {
  }

  /** Without a threshold the maximum never goes down, and a snapshot
    * means a strictly longer section. */
  lemma CheckGrowsMax(maxLatency: nat, maxSequence: nat, d: CpuData,
                      parentIp: nat, now: nat, restart: nat, stopped: bool)
    requires IsU64(d.preemptTimestamp) && IsU64(now) && IsU64(maxSequence)
    ensures var r := CheckCriticalTiming(0, maxLatency, maxSequence, d, parentIp, now, restart, stopped);
            r.maxLatency >= maxLatency && (r.snapshot ==> r.maxLatency > maxLatency)
  {
  }

  /** With a threshold, each recorded section replaces the maximum even
    * when it is shorter than it. */
  lemma ThresholdRecordsShorter(thresh: nat, maxLatency: nat, d: CpuData, parentIp: nat, now: nat, restart: nat)
    requires IsU64(d.preemptTimestamp) && IsU64(now) && IsU64(d.criticalSequence)
    requires d.preemptTimestamp <= now && 0 < thresh <= now - d.preemptTimestamp < maxLatency
    ensures var r := CheckCriticalTiming(thresh, maxLatency, d.criticalSequence, d, parentIp, now, restart, false);
            r.snapshot && r.maxLatency == now - d.preemptTimestamp < maxLatency
  {
  }

  /** Once one CPU records a maximum, a section another CPU began before
    * it is stale: its check leaves the maximum and the sequence alone. */
  lemma OtherSectionStale(thresh: nat, maxLatency: nat, maxSequence: nat, a: CpuData, b: CpuData,
                          ipA: nat, nowA: nat, restartA: nat, ipB: nat, nowB: nat, restartB: nat, stopped: bool)
    requires IsU64(a.preemptTimestamp) && IsU64(b.preemptTimestamp) && IsU64(nowA) && IsU64(nowB)
    requires IsU64(maxSequence) && b.criticalSequence == maxSequence
    ensures var ra := CheckCriticalTiming(thresh, maxLatency, maxSequence, a, ipA, nowA, restartA, stopped);
            var rb := CheckCriticalTiming(thresh, ra.maxLatency, ra.maxSequence, b, ipB, nowB, restartB, stopped);
            ra.maxSequence != maxSequence ==>
              rb.maxLatency == ra.maxLatency && rb.maxSequence == ra.maxSequence && !rb.snapshot
  {
    var ra := CheckCriticalTiming(thresh, maxLatency, maxSequence, a, ipA, nowA, restartA, stopped);
    CheckSequence(thresh, ra.maxLatency, ra.maxSequence, b, ipB, nowB, restartB, stopped);
    CheckRecords(thresh, ra.maxLatency, ra.maxSequence, b, ipB, nowB, restartB, stopped);
  }

  /** `parent_ip ? : ip`: where the section is said to start or end. */
  function CallSite(ip: nat, parentIp: nat): (r: nat)
    ensures r == parentIp || (parentIp == 0 && r == ip)
    ensures r != 0 <==> parentIp != 0 || ip != 0
  {
    if parentIp != 0 then parentIp else ip
  }

  /** What start_critical_timing does to the CPU's record when it starts
    * a section. */
  function Started(d: CpuData, maxSequence: nat, now: nat, ip: nat, parentIp: nat): (r: CpuData)
    ensures r.criticalSequence == maxSequence && r.preemptTimestamp == now
    ensures r.criticalStart == CallSite(ip, parentIp)
    ensures r.criticalEnd == d.criticalEnd && r.disabled == d.disabled
  {
    d.(criticalSequence := maxSequence, preemptTimestamp := now, criticalStart := CallSite(ip, parentIp))
  }

  /** A section started with no maximum recorded since, and not stopped,
    * becomes the maximum exactly when it is longer than the current one
    * (no threshold), and its length is the clock difference. */
  lemma StartThenCheck(maxLatency: nat, maxSequence: nat, d: CpuData, ip: nat, parentIp: nat,
                       start: nat, now: nat, restart: nat)
    requires IsU64(start) && IsU64(now) && IsU64(maxSequence) && start <= now
    ensures var s := Started(d, maxSequence, start, ip, parentIp);
            var r := CheckCriticalTiming(0, maxLatency, maxSequence, s, CallSite(ip, parentIp), now, restart, false);
            (r.snapshot <==> now - start > maxLatency) &&
            r.maxLatency == Max(maxLatency, now - start) &&
            (r.snapshot ==> r.data.criticalEnd == CallSite(ip, parentIp))
  {
    var s := Started(d, maxSequence, start, ip, parentIp);
    CheckRecords(0, maxLatency, maxSequence, s, CallSite(ip, parentIp), now, restart, false);
  }

  // ---------------------------------------------------------------
  // Trace flags
  // ---------------------------------------------------------------

  /** The trace array flags the tracer touches. */
  datatype TraceFlags = TraceFlags(latencyFmt: bool, overwrite: bool, funcTrace: bool)

  /** __irqsoff_tracer_init forces OVERWRITE and LATENCY_FMT on. */
  function InitFlags(f: TraceFlags): (r: TraceFlags)
    ensures r.latencyFmt && r.overwrite && r.funcTrace == f.funcTrace
  {
    f.(overwrite := true, latencyFmt := true)
  }

  /** __irqsoff_tracer_reset sets LATENCY_FMT and OVERWRITE back to their
    * values in the saved flags and leaves the rest as they are now. */
  function RestoreFlags(saved: TraceFlags, now: TraceFlags): (r: TraceFlags)
    ensures r.latencyFmt == saved.latencyFmt && r.overwrite == saved.overwrite
    ensures r.funcTrace == now.funcTrace
  {
    now.(latencyFmt := saved.latencyFmt, overwrite := saved.overwrite)
  }

  /** Reset undoes init: the flags come back as they were, including any
    * FUNCTION change made while the tracer ran. */
  lemma ResetUndoesInit(f: TraceFlags, funcTrace: bool)
    ensures RestoreFlags(f, InitFlags(f)) == f
    ensures RestoreFlags(f, InitFlags(f).(funcTrace := funcTrace)) == f.(funcTrace := funcTrace)
  {
  }

  // ---------------------------------------------------------------
  // The tracer
  // ---------------------------------------------------------------

  class Tracer {
    const ncpus: nat
    /** Per CPU: tracing_cpu and the trace_array_cpu record. */
    var tracingCpu: seq<bool>
    var data: seq<CpuData>
    /** tr->max_latency and max_sequence. */
    var maxLatency: nat
    var maxSequence: nat
    var tracerEnabled: bool
    var traceType: nat
    var busy: bool
    var functionEnabled: bool
    var flags: TraceFlags
    var saveFlags: TraceFlags
    /** The CPUs update_max_tr_single took a snapshot for, in order. */
    var snapshots: seq<nat>

    predicate Valid()
      reads this
    {
      |tracingCpu| == ncpus && |data| == ncpus && IsU64(maxSequence) &&
      forall c :: 0 <= c < ncpus ==> IsU64(data[c].preemptTimestamp)
    }

    /** The tracer as the kernel image holds it: nothing traced, nothing
      * recorded. */
    constructor(ncpus: nat, flags: TraceFlags)
      ensures Valid()
      ensures this.ncpus == ncpus && this.flags == flags
      ensures tracingCpu == seq(ncpus, _ => false) && data == seq(ncpus, _ => CpuData(0, 0, 0, 0, 0))
      ensures maxLatency == 0 && maxSequence == 0 && !tracerEnabled && traceType == 0
      ensures !busy && !functionEnabled && snapshots == []
    {
      this.ncpus := ncpus;
      tracingCpu := seq(ncpus, _ => false);
      data := seq(ncpus, _ => CpuData(0, 0, 0, 0, 0));
      maxLatency := 0;
      maxSequence := 0;
      tracerEnabled := false;
      traceType := 0;
      busy := false;
      functionEnabled := false;
      this.flags := flags;
      saveFlags := flags;
      snapshots := [];
    }

    /** func_prolog_dec: 1, with the CPU's `disabled` count raised, only
      * when the CPU is timing a section, interrupts or preemption are
      * really off, and nobody else on the CPU is already inside; 0 with
      * the count unchanged otherwise. */
    method FuncPrologDec(cpu: nat, irqsDisabled: bool, pc: nat) returns (r: int)
      requires Valid() && cpu < ncpus
      modifies this
      ensures Valid()
      ensures r == 1 <==> old(tracingCpu[cpu]) && (irqsDisabled || pc != 0) && old(data[cpu].disabled) == 0
      ensures r == 0 || r == 1
      ensures r == 1 ==> data == old(data)[cpu := old(data[cpu]).(disabled := 1)]
      ensures r == 0 ==> data == old(data)
      ensures tracingCpu == old(tracingCpu) && maxLatency == old(maxLatency) && maxSequence == old(maxSequence)
      ensures snapshots == old(snapshots)
    {
      if !tracingCpu[cpu] {
        return 0;
      }
      if !irqsDisabled && pc == 0 {
        return 0;
      }
      var disabled := data[cpu].disabled + 1;
      data := data[cpu := data[cpu].(disabled := disabled)];
      if disabled == 1 {
        return 1;
      }
      data := data[cpu := data[cpu].(disabled := disabled - 1)];
      return 0;
    }

    /** irqsoff_tracer_call: a traced function call inside a section;
      * the CPU's `disabled` count is back where it was afterwards. */
    method TracerCall(cpu: nat, irqsDisabled: bool, pc: nat) returns (traced: bool)
      requires Valid() && cpu < ncpus
      modifies this
      ensures Valid()
      ensures traced <==> old(tracingCpu[cpu]) && (irqsDisabled || pc != 0) && old(data[cpu].disabled) == 0
      ensures data == old(data) && tracingCpu == old(tracingCpu)
      ensures maxLatency == old(maxLatency) && maxSequence == old(maxSequence) && snapshots == old(snapshots)
    {
      var r := FuncPrologDec(cpu, irqsDisabled, pc);
      traced := r == 1;
      if traced {
        data := data[cpu := data[cpu].(disabled := data[cpu].disabled - 1)];
      }
    }

    /** start_critical_timing: with the tracer and tracing on, a CPU not
      * yet timing and not inside the tracer starts a section: it takes
      * the current sequence, the start time and the call site, and is
      * marked as timing.  Otherwise nothing changes. */
    method StartCriticalTiming(cpu: nat, ip: nat, parentIp: nat, now: nat, tracingOn: bool)
      requires Valid() && cpu < ncpus && IsU64(now)
      modifies this
      ensures Valid()
      ensures var go := tracerEnabled && tracingOn && !old(tracingCpu[cpu]) && old(data[cpu].disabled) == 0;
              (go ==> tracingCpu == old(tracingCpu)[cpu := true] &&
                      data == old(data)[cpu := Started(old(data[cpu]), maxSequence, now, ip, parentIp)]) &&
              (!go ==> tracingCpu == old(tracingCpu) && data == old(data))
      ensures maxLatency == old(maxLatency) && maxSequence == old(maxSequence) && snapshots == old(snapshots)
      ensures tracerEnabled == old(tracerEnabled)
    {
      if !tracerEnabled || !tracingOn {
        return;
      }
      if tracingCpu[cpu] {
        return;
      }
      if data[cpu].disabled != 0 {
        return;
      }
      var d := data[cpu].(disabled := data[cpu].disabled + 1);
      d := d.(criticalSequence := maxSequence, preemptTimestamp := now, criticalStart := CallSite(ip, parentIp));
      tracingCpu := tracingCpu[cpu := true];
      data := data[cpu := d.(disabled := d.disabled - 1)];
    }

    /** stop_critical_timing: the CPU always stops being marked as
      * timing; when it was timing a section that has a start, with the
      * tracer and tracing on and nobody inside the tracer, the section is
      * checked against the maximum and its start is cleared. */
    method StopCriticalTiming(thresh: nat, cpu: nat, ip: nat, parentIp: nat, now: nat, restart: nat,
                              tracingOn: bool, stopped: bool)
      requires Valid() && cpu < ncpus && IsU64(now) && IsU64(restart)
      modifies this
      ensures Valid()
      ensures tracingCpu == old(tracingCpu)[cpu := false]
      ensures var go := old(tracingCpu[cpu]) && tracerEnabled && tracingOn &&
                        old(data[cpu].criticalStart) != 0 && old(data[cpu].disabled) == 0;
              var c := CheckCriticalTiming(thresh, old(maxLatency), old(maxSequence), old(data[cpu]),
                                           CallSite(ip, parentIp), now, restart, stopped);
              (go ==> maxLatency == c.maxLatency && maxSequence == c.maxSequence &&
                      data == old(data)[cpu := c.data.(criticalStart := 0)] &&
                      snapshots == old(snapshots) + (if c.snapshot then [cpu] else [])) &&
              (!go ==> maxLatency == old(maxLatency) && maxSequence == old(maxSequence) &&
                       data == old(data) && snapshots == old(snapshots))
      ensures tracerEnabled == old(tracerEnabled)
    {
      if tracingCpu[cpu] {
        tracingCpu := tracingCpu[cpu := false];
      } else {
        return;
      }
      if !tracerEnabled || !tracingOn {
        return;
      }
      if data[cpu].criticalStart == 0 || data[cpu].disabled != 0 {
        return;
      }
      var c := CheckCriticalTiming(thresh, maxLatency, maxSequence, data[cpu].(disabled := 1),
                                   CallSite(ip, parentIp), now, restart, stopped);
      maxLatency, maxSequence := c.maxLatency, c.maxSequence;
      if c.snapshot {
        snapshots := snapshots + [cpu];
      }
      data := data[cpu := c.data.(criticalStart := 0, disabled := 0)];
    }

    /** irqsoff_tracer_start and irqsoff_tracer_stop. */
    method SetEnabled(on: bool)
      modifies this
      ensures tracerEnabled == on
      ensures tracingCpu == old(tracingCpu) && data == old(data) && busy == old(busy)
      ensures maxLatency == old(maxLatency) && maxSequence == old(maxSequence) && flags == old(flags)
    {
      tracerEnabled := on;
    }

    /** irqsoff_tracer_init, preemptoff_tracer_init and
      * preemptirqsoff_tracer_init: the trace_type is set first; a busy
      * tracer then gives -EBUSY.  Otherwise the flags are saved and
      * OVERWRITE and LATENCY_FMT forced on, the maximum is cleared, the
      * function tracer is registered when FUNCTION is set (`regErr` is
      * what the registration returns), the tracer is enabled when that
      * succeeded and tracing is on, and the tracer is busy; a failed
      * start is only logged, so the result is 0. */
    method Init(kind: Kind, tracingOn: bool, regErr: int) returns (r: int)
      requires regErr <= 0
      modifies this
      ensures traceType == TraceType(kind)
      ensures old(busy) ==> r == -EBUSY && flags == old(flags) && saveFlags == old(saveFlags) &&
                            maxLatency == old(maxLatency) && tracerEnabled == old(tracerEnabled) &&
                            functionEnabled == old(functionEnabled) && busy
      ensures !old(busy) ==> r == 0 && busy && saveFlags == old(flags) && flags == InitFlags(old(flags)) &&
                             maxLatency == 0
      ensures !old(busy) ==>
                functionEnabled == (old(functionEnabled) || (old(flags).funcTrace && regErr == 0)) &&
                tracerEnabled == ((old(functionEnabled) || !old(flags).funcTrace || regErr == 0) && tracingOn)
      ensures tracingCpu == old(tracingCpu) && data == old(data) && maxSequence == old(maxSequence)
      ensures snapshots == old(snapshots)
    {
      traceType := TraceType(kind);
      if busy {
        return -EBUSY;
      }
      saveFlags := flags;
      flags := flags.(overwrite := true);
      flags := flags.(latencyFmt := true);
      maxLatency := 0;
      var ret := 0;
      if !functionEnabled && flags.funcTrace {
        ret := regErr;
        if ret == 0 {
          functionEnabled := true;
        }
      }
      tracerEnabled := ret == 0 && tracingOn;
      busy := true;
      r := 0;
    }

    /** __irqsoff_tracer_reset: the tracer is disabled, the function
      * tracer unregistered, LATENCY_FMT and OVERWRITE set back to their
      * saved values, and the tracer no longer busy. */
    method Reset()
      modifies this
      ensures !tracerEnabled && !functionEnabled && !busy
      ensures flags == RestoreFlags(saveFlags, old(flags))
      ensures saveFlags == old(saveFlags) && traceType == old(traceType)
      ensures tracingCpu == old(tracingCpu) && data == old(data)
      ensures maxLatency == old(maxLatency) && maxSequence == old(maxSequence) && snapshots == old(snapshots)
    {
      var latFlag := saveFlags.latencyFmt;
      var overwriteFlag := saveFlags.overwrite;
      tracerEnabled := false;
      functionEnabled := false;
      flags := flags.(latencyFmt := latFlag);
      flags := flags.(overwrite := overwriteFlag);
      busy := false;
    }
  }
}
