/**
 * DAMON_LRU_SORT (mm/damon/lru_sort.c): two DAMON schemes, one that
 * prioritises hot regions on the LRU lists and one that deprioritises
 * cold ones, rebuilt from the module parameters, and the timer that turns
 * the monitoring thread on and off to follow the `enabled` parameter.
 *
 * The module's globals are the fields of one `LruSort` object. The DAMON
 * core it calls (damon_set_attrs, damon_new_scheme, damon_set_schemes,
 * damon_add_scheme, damon_set_regions, damon_start, damon_stop,
 * damon_find_biggest_system_ram) is outside the model: what those calls return is given as a `DamonEnv` value, and the
 * context they configure is kept as the attributes, schemes and regions
 * last installed.
 */
module DamonLruSort {
  import opened Wrappers

  const PageSize: nat := 4096
  const UlongMax: nat := 0xffff_ffff_ffff_ffff
  const UintMax: nat := 0xffff_ffff

  /** struct damon_attrs, intervals in microseconds. */
  datatype MonAttrs = MonAttrs(sampleInterval: nat, aggrInterval: nat, opsUpdateInterval: nat,
                               minNrRegions: nat, maxNrRegions: nat)

  /** struct damos_watermarks. */
  datatype Watermarks = Watermarks(metric: WmarkMetric, interval: nat, high: nat, mid: nat, low: nat)
  datatype WmarkMetric = WmarkNone | WmarkFreeMemRate

  /** struct damos_access_pattern: inclusive bounds on a region's size,
    * access count and age. */
  datatype AccessPattern = AccessPattern(minSz: nat, maxSz: nat, minNrAccesses: nat, maxNrAccesses: nat,
                                         minAge: nat, maxAge: nat)

  /** struct damos_quota: time and size limits per reset interval and the
    * weights that order regions within them. */
  datatype Quota = Quota(ms: nat, sz: nat, resetInterval: nat,
                         weightSz: nat, weightNrAccesses: nat, weightAge: nat)

  datatype Action = LruPrio | LruDeprio

  datatype Scheme = Scheme(pattern: AccessPattern, action: Action, quota: Quota, wmarks: Watermarks)

  /** A monitored region as a scheme sees it. */
  datatype Region = Region(size: nat, nrAccesses: nat, age: nat)

  /** A region is a scheme's target when each of its readings lies within
    * the pattern's bounds. */
  predicate Matches(p: AccessPattern, r: Region) {
    p.minSz <= r.size <= p.maxSz &&
    p.minNrAccesses <= r.nrAccesses <= p.maxNrAccesses &&
    p.minAge <= r.age <= p.maxAge
  }

  /** Readings DAMON can hold: an unsigned long size, unsigned int counts. */
  predicate Representable(r: Region) {
    r.size <= UlongMax && r.nrAccesses <= UintMax && r.age <= UintMax
  }

  const DefaultWmarks: Watermarks := Watermarks(WmarkFreeMemRate, 5000000, 200, 150, 50)
  const DefaultMonAttrs: MonAttrs := MonAttrs(5000, 100000, 0, 10, 1000)
  const DefaultHotThresAccessFreq: nat := 500
  const DefaultColdMinAge: nat := 120000000
  const DefaultQuotaMs: nat := 10
  const DefaultQuotaResetIntervalMs: nat := 1000

  /** hot_thres: aggr_interval / sample_interval, the most accesses a
    * region can show per aggregation, times the permil frequency, over
    * 1000, evaluated left to right in unsigned long and stored in an
    * unsigned int. */
  function HotThres(attrs: MonAttrs, hotThresAccessFreq: nat): (r: nat)
    requires attrs.sampleInterval > 0
    ensures r <= UintMax
  {
    var maxAccesses := attrs.aggrInterval / attrs.sampleInterval;
    MulNonneg(maxAccesses, hotThresAccessFreq);
    ToU32((maxAccesses * hotThresAccessFreq % U64) / 1000)
  }

  /** cold_thres: the minimum age in aggregation intervals. */
  function ColdThres(attrs: MonAttrs, coldMinAge: nat): (r: nat)
    requires attrs.aggrInterval > 0
    ensures r <= UintMax
  {
    ToU32(coldMinAge / attrs.aggrInterval)
  }

  /** A permil frequency up to 1000 never asks for more accesses than an
    * aggregation interval can hold, and a higher frequency never lowers
    * the threshold. */
  lemma HotThresBounded(attrs: MonAttrs, f: nat, g: nat)
    requires attrs.sampleInterval > 0 && attrs.aggrInterval < U32 && f <= g <= 1000
    ensures HotThres(attrs, f) <= HotThres(attrs, g) <= attrs.aggrInterval / attrs.sampleInterval
  {
    var m := attrs.aggrInterval / attrs.sampleInterval;
    DivBounds(attrs.aggrInterval, attrs.sampleInterval);
    MulMono(1, attrs.sampleInterval, m);
    PermilBounds(m, f, g);
    HotThresExact(attrs, f);
    HotThresExact(attrs, g);
  }

  /** Without wrap-around hot_thres is exactly the rounded-down share. */
  lemma HotThresExact(attrs: MonAttrs, f: nat)
    requires attrs.sampleInterval > 0
    requires (attrs.aggrInterval / attrs.sampleInterval) * f < U64
    requires (attrs.aggrInterval / attrs.sampleInterval) * f / 1000 < U32
    ensures HotThres(attrs, f) == (attrs.aggrInterval / attrs.sampleInterval) * f / 1000
  {
    var a := (attrs.aggrInterval / attrs.sampleInterval) * f;
    assert a % U64 == a;
    assert ToU32(a / 1000) == a / 1000;
  }

  /** A permil share of m, rounded down, grows with the share and stays
    * within m. */
  lemma PermilBounds(m: nat, f: nat, g: nat)
    requires m < U32 && f <= g <= 1000
    ensures m * f < U64 && m * g < U64
    ensures m * f / 1000 <= m * g / 1000 <= m
  {
    MulMono(f, g, m);
    MulMono(g, 1000, m);
    DivMono(m * f, m * g, 1000);
    DivMono(m * g, m * 1000, 1000);
    MulDiv(m, 1000);
  }

  /** The defaults give a hot threshold of 10 accesses and a cold one of
    * 1200 aggregation intervals. */
  lemma DefaultThresholds()
    ensures HotThres(DefaultMonAttrs, DefaultHotThresAccessFreq) == 10
    ensures ColdThres(DefaultMonAttrs, DefaultColdMinAge) == 1200
  {
  }

  /** damon_lru_sort_new_hot_scheme. */
  function HotScheme(hotThres: nat, quotaMs: nat, quotaResetIntervalMs: nat, wmarks: Watermarks): Scheme {
    Scheme(AccessPattern(PageSize, UlongMax, hotThres, UintMax, 0, UintMax),
           LruPrio,
           Quota(quotaMs / 2, 0, quotaResetIntervalMs, 0, 1, 0),
           wmarks)
  }

  /** damon_lru_sort_new_cold_scheme. */
  function ColdScheme(coldThres: nat, quotaMs: nat, quotaResetIntervalMs: nat, wmarks: Watermarks): Scheme {
    Scheme(AccessPattern(PageSize, UlongMax, 0, 0, coldThres, UintMax),
           LruDeprio,
           Quota(quotaMs / 2, 0, quotaResetIntervalMs, 0, 0, 1),
           wmarks)
  }

  /** The hot scheme targets every region of at least a page accessed at
    * least hot_thres times, whatever its age, and prioritises it, within
    * half the time quota, hotter regions first. */
  lemma HotSchemeTargets(hotThres: nat, quotaMs: nat, resetMs: nat, wmarks: Watermarks, r: Region)
    requires Representable(r)
    ensures Matches(HotScheme(hotThres, quotaMs, resetMs, wmarks).pattern, r)
            <==> r.size >= PageSize && r.nrAccesses >= hotThres
    ensures HotScheme(hotThres, quotaMs, resetMs, wmarks).action == LruPrio
    ensures HotScheme(hotThres, quotaMs, resetMs, wmarks).quota.ms * 2 <= quotaMs
  {
  }

  /** The cold scheme targets every region of at least a page with no
    * access for at least cold_thres intervals and deprioritises it,
    * within half the time quota, older regions first. */
  lemma ColdSchemeTargets(coldThres: nat, quotaMs: nat, resetMs: nat, wmarks: Watermarks, r: Region)
    requires Representable(r)
    ensures Matches(ColdScheme(coldThres, quotaMs, resetMs, wmarks).pattern, r)
            <==> r.size >= PageSize && r.nrAccesses == 0 && r.age >= coldThres
    ensures ColdScheme(coldThres, quotaMs, resetMs, wmarks).action == LruDeprio
    ensures ColdScheme(coldThres, quotaMs, resetMs, wmarks).quota.ms * 2 <= quotaMs
  {
  }

  /** With a positive hot threshold no region is both prioritised and
    * deprioritised, and together the two schemes spend at most quota_ms. */
  lemma SchemesDisjoint(hotThres: nat, coldThres: nat, quotaMs: nat, resetMs: nat, wmarks: Watermarks, r: Region)
    requires hotThres > 0
    ensures !(Matches(HotScheme(hotThres, quotaMs, resetMs, wmarks).pattern, r) &&
              Matches(ColdScheme(coldThres, quotaMs, resetMs, wmarks).pattern, r))
    ensures HotScheme(hotThres, quotaMs, resetMs, wmarks).quota.ms +
            ColdScheme(coldThres, quotaMs, resetMs, wmarks).quota.ms <= quotaMs
  {
  }

  /** What the DAMON core calls return: error codes (0 for success), the
    * allocation failures of damon_new_scheme, the biggest System RAM
    * resource if there is one, and the pid of a started kdamond. */
  datatype DamonEnv = DamonEnv(setAttrsErr: int, hotAllocFails: bool, setSchemesErr: int, coldAllocFails: bool,
                               biggestSystemRam: Option<(nat, nat)>, setRegionsErr: int,
                               startErr: int, kdamondPid: int, stopErr: int)

  /** struct damos_stat: regions and bytes tried and applied, and the
    * number of times the quota was exceeded. */
  datatype DamosStat = DamosStat(nrTried: nat, szTried: nat, nrApplied: nat, szApplied: nat, qtExceeds: nat)

  /** The statistics of the last scheme in the list with the given action,
    * or `dflt` when no scheme has it. */
  function LastStatFor(schemes: seq<Scheme>, stats: seq<DamosStat>, action: Action, dflt: DamosStat): DamosStat
    requires |stats| == |schemes|
  {
    if |schemes| == 0 then dflt
    else if schemes[|schemes| - 1].action == action then stats[|stats| - 1]
    else LastStatFor(schemes[..|schemes| - 1], stats[..|stats| - 1], action, dflt)
  }

  /** LastStatFor picks the statistics of a scheme with the action that no
    * later scheme shares, and falls back to `dflt` only when none has it. */
  lemma {:induction false} LastStatForIsLast(schemes: seq<Scheme>, stats: seq<DamosStat>, action: Action, dflt: DamosStat)
    requires |stats| == |schemes|
    ensures (forall i :: 0 <= i < |schemes| ==> schemes[i].action != action) ==>
              LastStatFor(schemes, stats, action, dflt) == dflt
    ensures (exists i :: 0 <= i < |schemes| && schemes[i].action == action) ==>
              exists i :: 0 <= i < |schemes| && schemes[i].action == action &&
                LastStatFor(schemes, stats, action, dflt) == stats[i] &&
                forall j :: i < j < |schemes| ==> schemes[j].action != action
  {
    if |schemes| > 0 && schemes[|schemes| - 1].action != action {
      var n := |schemes| - 1;
      LastStatForIsLast(schemes[..n], stats[..n], action, dflt);
      if exists i :: 0 <= i < |schemes| && schemes[i].action == action {
        var i :| 0 <= i < |schemes| && schemes[i].action == action;
        assert schemes[..n][i] == schemes[i];
      }
    }
  }

  /** Extending the scanned prefix by one scheme. */
  lemma LastStatStep(schemes: seq<Scheme>, stats: seq<DamosStat>, i: nat, action: Action, dflt: DamosStat)
    requires |stats| == |schemes| && i < |schemes|
    ensures LastStatFor(schemes[..i + 1], stats[..i + 1], action, dflt) ==
            if schemes[i].action == action then stats[i] else LastStatFor(schemes[..i], stats[..i], action, dflt)
  {
    assert schemes[..i + 1][..i] == schemes[..i] && stats[..i + 1][..i] == stats[..i];
  }

  /** damon_set_attrs, both scheme allocations and damon_set_schemes
    * succeeded. */
  predicate SchemesBuilt(env: DamonEnv) {
    env.setAttrsErr == 0 && !env.hotAllocFails && env.setSchemesErr == 0 && !env.coldAllocFails
  }

  class LruSort {
    var enabled: bool
    var lastEnabled: bool
    var commitInputs: bool
    var hotThresAccessFreq: nat
    var coldMinAge: nat
    var quotaMs: nat
    var quotaResetIntervalMs: nat
    var wmarks: Watermarks
    var monAttrs: MonAttrs
    var monitorRegionStart: nat
    var monitorRegionEnd: nat
    var kdamondPid: int
    var hotStat: DamosStat
    var coldStat: DamosStat
    var initialized: bool
    var timerQueued: bool

    /** The DAMON context as last configured. */
    var ctxAttrs: MonAttrs
    var schemes: seq<Scheme>
    var regions: seq<(nat, nat)>

    /** The parameters at load time. */
    constructor ()
      ensures !enabled && !lastEnabled && !commitInputs && kdamondPid == -1
      ensures hotThresAccessFreq == DefaultHotThresAccessFreq && coldMinAge == DefaultColdMinAge
      ensures quotaMs == DefaultQuotaMs && quotaResetIntervalMs == DefaultQuotaResetIntervalMs
      ensures wmarks == DefaultWmarks && monAttrs == DefaultMonAttrs
      ensures monitorRegionStart == 0 && monitorRegionEnd == 0
      ensures !initialized && !timerQueued && schemes == [] && regions == []
    {
      enabled := false;
      lastEnabled := false;
      commitInputs := false;
      hotThresAccessFreq := DefaultHotThresAccessFreq;
      coldMinAge := DefaultColdMinAge;
      quotaMs := DefaultQuotaMs;
      quotaResetIntervalMs := DefaultQuotaResetIntervalMs;
      wmarks := DefaultWmarks;
      monAttrs := DefaultMonAttrs;
      monitorRegionStart := 0;
      monitorRegionEnd := 0;
      kdamondPid := -1;
      hotStat := DamosStat(0, 0, 0, 0, 0);
      coldStat := DamosStat(0, 0, 0, 0, 0);
      initialized := false;
      timerQueued := false;
      ctxAttrs := DefaultMonAttrs;
      schemes := [];
      regions := [];
    }

    /** Nothing but the DAMON context and the monitoring region changed. */
    twostate predicate ParamsUnchanged()
      reads this
    {
      enabled == old(enabled) && lastEnabled == old(lastEnabled) && commitInputs == old(commitInputs) &&
      hotThresAccessFreq == old(hotThresAccessFreq) && coldMinAge == old(coldMinAge) &&
      quotaMs == old(quotaMs) && quotaResetIntervalMs == old(quotaResetIntervalMs) &&
      wmarks == old(wmarks) && monAttrs == old(monAttrs) && kdamondPid == old(kdamondPid) &&
      hotStat == old(hotStat) && coldStat == old(coldStat) && initialized == old(initialized) && timerQueued == old(timerQueued)
    }

    /** damon_lru_sort_apply_parameters. The attributes are installed
      * first, then the hot scheme replaces every scheme and the cold one
      * is added; each step that fails returns its error and ends the
      * call. A region start past its end, or no region given and no
      * System RAM found, is -EINVAL; with no region given the biggest
      * System RAM becomes the region. The monitored region is installed
      * last. */
    method ApplyParameters(env: DamonEnv) returns (err: int)
      requires monAttrs.sampleInterval > 0 && monAttrs.aggrInterval > 0
      modifies this
      ensures ParamsUnchanged()
      ensures env.setAttrsErr != 0 ==> err == env.setAttrsErr && ctxAttrs == old(ctxAttrs) && schemes == old(schemes)
      ensures env.setAttrsErr == 0 ==> ctxAttrs == monAttrs
      ensures env.setAttrsErr == 0 && env.hotAllocFails ==> err == -ENOMEM && schemes == old(schemes)
      ensures env.setAttrsErr == 0 && !env.hotAllocFails && env.setSchemesErr != 0 ==>
                err == env.setSchemesErr && schemes == old(schemes)
      ensures env.setAttrsErr == 0 && !env.hotAllocFails && env.setSchemesErr == 0 ==>
                |schemes| >= 1 &&
                schemes[0] == HotScheme(HotThres(monAttrs, hotThresAccessFreq), quotaMs, quotaResetIntervalMs, wmarks)
      ensures env.setAttrsErr == 0 && !env.hotAllocFails && env.setSchemesErr == 0 && env.coldAllocFails ==>
                err == -ENOMEM && |schemes| == 1
      ensures SchemesBuilt(env) ==>
                schemes == [HotScheme(HotThres(monAttrs, hotThresAccessFreq), quotaMs, quotaResetIntervalMs, wmarks),
                            ColdScheme(ColdThres(monAttrs, coldMinAge), quotaMs, quotaResetIntervalMs, wmarks)]
      ensures SchemesBuilt(env) && old(monitorRegionStart) > old(monitorRegionEnd) ==> err == -EINVAL
      ensures SchemesBuilt(env) && old(monitorRegionStart) == 0 && old(monitorRegionEnd) == 0 ==>
                if env.biggestSystemRam.None? then err == -EINVAL else
                monitorRegionStart == env.biggestSystemRam.value.0 && monitorRegionEnd == env.biggestSystemRam.value.1
      ensures !(old(monitorRegionStart) == 0 && old(monitorRegionEnd) == 0) ==>
                monitorRegionStart == old(monitorRegionStart) && monitorRegionEnd == old(monitorRegionEnd)
      ensures err == 0 <==>
                SchemesBuilt(env) &&
                old(monitorRegionStart) <= old(monitorRegionEnd) &&
                (old(monitorRegionStart) != 0 || old(monitorRegionEnd) != 0 || env.biggestSystemRam.Some?) &&
                env.setRegionsErr == 0
      ensures err == 0 ==> regions == [(monitorRegionStart, monitorRegionEnd)]
      ensures err != 0 ==> regions == old(regions)
    {
      err := env.setAttrsErr;
      if err != 0 {
        return;
      }
      ctxAttrs := monAttrs;

      var hotThres := HotThres(monAttrs, hotThresAccessFreq);
      if env.hotAllocFails {
        return -ENOMEM;
      }
      if env.setSchemesErr != 0 {
        return env.setSchemesErr;
      }
      schemes := [HotScheme(hotThres, quotaMs, quotaResetIntervalMs, wmarks)];

      var coldThres := ColdThres(monAttrs, coldMinAge);
      if env.coldAllocFails {
        return -ENOMEM;
      }
      schemes := schemes + [ColdScheme(coldThres, quotaMs, quotaResetIntervalMs, wmarks)];

      if monitorRegionStart > monitorRegionEnd {
        return -EINVAL;
      }
      if monitorRegionStart == 0 && monitorRegionEnd == 0 {
        match env.biggestSystemRam
        case None =>
          return -EINVAL;
        case Some(ram) =>
          monitorRegionStart := ram.0;
          monitorRegionEnd := ram.1;
      }
      err := env.setRegionsErr;
      if err == 0 {
        regions := [(monitorRegionStart, monitorRegionEnd)];
      }
    }

    /** damon_lru_sort_turn. Turning off stops kdamond and resets
      * kdamond_pid to -1 only if the stop succeeds. Turning on applies the
      * parameters and starts kdamond, recording its pid; the first error
      * is returned. */
    method Turn(on: bool, env: DamonEnv) returns (err: int)
      requires monAttrs.sampleInterval > 0 && monAttrs.aggrInterval > 0
      modifies this
      ensures !on ==> err == env.stopErr && schemes == old(schemes) && regions == old(regions)
      ensures !on && err == 0 ==> kdamondPid == -1
      ensures err != 0 ==> kdamondPid == old(kdamondPid)
      ensures on && err == 0 ==> kdamondPid == env.kdamondPid && env.startErr == 0
      ensures enabled == old(enabled) && lastEnabled == old(lastEnabled) && commitInputs == old(commitInputs)
      ensures monAttrs == old(monAttrs) && initialized == old(initialized) && timerQueued == old(timerQueued)
    {
      if !on {
        err := env.stopErr;
        if err == 0 {
          kdamondPid := -1;
        }
        return;
      }
      err := ApplyParameters(env);
      if err != 0 {
        return;
      }
      err := env.startErr;
      if err != 0 {
        return;
      }
      kdamondPid := env.kdamondPid;
    }

    /** damon_lru_sort_timer_fn: when `enabled` differs from the last state
      * acted on, turn to it; success makes it the last state, failure
      * puts `enabled` back. Either way the two agree afterwards. */
    method TimerFn(env: DamonEnv)
      requires monAttrs.sampleInterval > 0 && monAttrs.aggrInterval > 0
      modifies this
      ensures enabled == lastEnabled
      ensures old(enabled) == old(lastEnabled) ==>
                enabled == old(enabled) && kdamondPid == old(kdamondPid) &&
                schemes == old(schemes) && regions == old(regions)
      ensures old(enabled) != old(lastEnabled) && !old(enabled) ==>
                (lastEnabled == false <==> env.stopErr == 0)
      ensures old(enabled) != old(lastEnabled) && !old(enabled) && env.stopErr == 0 ==> kdamondPid == -1
      ensures old(enabled) != old(lastEnabled) && lastEnabled != old(lastEnabled) && old(enabled) ==>
                kdamondPid == env.kdamondPid
      ensures commitInputs == old(commitInputs) && monAttrs == old(monAttrs)
      ensures initialized == old(initialized) && timerQueued == old(timerQueued)
    {
      var nowEnabled := enabled;
      if lastEnabled != nowEnabled {
        var err := Turn(nowEnabled, env);
        if err == 0 {
          lastEnabled := nowEnabled;
        } else {
          enabled := lastEnabled;
        }
      }
    }

    /** damon_lru_sort_enabled_store: a value param_set_bool rejects
      * returns its error with nothing changed; otherwise `enabled` takes
      * the value and, once the module is initialised, the timer is
      * queued. */
    method EnabledStore(parsed: Option<bool>) returns (r: int)
      modifies this
      ensures parsed.None? ==> r == -EINVAL && enabled == old(enabled) && timerQueued == old(timerQueued)
      ensures parsed.Some? ==> r == 0 && enabled == parsed.value
      ensures parsed.Some? ==> timerQueued == (old(timerQueued) || initialized)
      ensures lastEnabled == old(lastEnabled) && commitInputs == old(commitInputs)
      ensures kdamondPid == old(kdamondPid) && initialized == old(initialized)
      ensures monAttrs == old(monAttrs) && schemes == old(schemes) && regions == old(regions)
    {
      match parsed
      case None =>
        return -EINVAL;
      case Some(v) =>
        enabled := v;
        if !initialized {
          return 0;
        }
        timerQueued := true;
        return 0;
    }

    /** damon_lru_sort_handle_commit_inputs: nothing unless commit_inputs
      * is set; then the parameters are applied again and the flag is
      * cleared whatever the result. */
    method HandleCommitInputs(env: DamonEnv) returns (err: int)
      requires monAttrs.sampleInterval > 0 && monAttrs.aggrInterval > 0
      modifies this
      ensures monAttrs == old(monAttrs)
      ensures !old(commitInputs) ==> err == 0 && schemes == old(schemes) && regions == old(regions)
      ensures !commitInputs
      ensures old(commitInputs) && env.setAttrsErr != 0 ==> err == env.setAttrsErr
      ensures old(commitInputs) && err == 0 ==>
                schemes == [HotScheme(HotThres(monAttrs, hotThresAccessFreq), quotaMs, quotaResetIntervalMs, wmarks),
                            ColdScheme(ColdThres(monAttrs, coldMinAge), quotaMs, quotaResetIntervalMs, wmarks)]
      ensures enabled == old(enabled) && lastEnabled == old(lastEnabled) && kdamondPid == old(kdamondPid)
      ensures hotStat == old(hotStat) && coldStat == old(coldStat)
    {
      if !commitInputs {
        return 0;
      }
      err := ApplyParameters(env);
      commitInputs := false;
    }

    /** damon_lru_sort_after_aggregation: the statistics of the context's
      * schemes (`stats[i]` belongs to `schemes[i]`) are published, the
      * last LRU_PRIO scheme's as the hot statistics and the last
      * LRU_DEPRIO scheme's as the cold ones; then pending inputs are
      * committed. */
    method AfterAggregation(stats: seq<DamosStat>, env: DamonEnv) returns (err: int)
      requires |stats| == |schemes|
      requires monAttrs.sampleInterval > 0 && monAttrs.aggrInterval > 0
      modifies this
      ensures hotStat == LastStatFor(old(schemes), stats, LruPrio, old(hotStat))
      ensures coldStat == LastStatFor(old(schemes), stats, LruDeprio, old(coldStat))
      ensures !commitInputs && monAttrs == old(monAttrs)
      ensures !old(commitInputs) ==> err == 0 && schemes == old(schemes)
      ensures enabled == old(enabled) && lastEnabled == old(lastEnabled) && kdamondPid == old(kdamondPid)
    {
      var i := 0;
      while i < |schemes|
        invariant schemes == old(schemes) && 0 <= i <= |schemes|
        invariant hotStat == LastStatFor(schemes[..i], stats[..i], LruPrio, old(hotStat))
        invariant coldStat == LastStatFor(schemes[..i], stats[..i], LruDeprio, old(coldStat))
        invariant schemes == old(schemes) && commitInputs == old(commitInputs) && monAttrs == old(monAttrs)
        invariant enabled == old(enabled) && lastEnabled == old(lastEnabled) && kdamondPid == old(kdamondPid)
      {
        LastStatStep(schemes, stats, i, LruPrio, old(hotStat));
        LastStatStep(schemes, stats, i, LruDeprio, old(coldStat));
        if schemes[i].action == LruPrio {
          hotStat := stats[i];
        } else if schemes[i].action == LruDeprio {
          coldStat := stats[i];
        }
        i := i + 1;
      }
      assert schemes[..i] == schemes && stats[..i] == stats;
      err := HandleCommitInputs(env);
    }

    /** damon_lru_sort_init: -ENOMEM when the context or the target cannot
      * be allocated, -EINVAL when the physical-address operations cannot
      * be selected; otherwise the timer is queued and the module is
      * initialised. */
    method Init(ctxAllocFails: bool, selectOpsFails: bool, targetAllocFails: bool) returns (r: int)
      modifies this
      ensures ctxAllocFails ==> r == -ENOMEM
      ensures !ctxAllocFails && selectOpsFails ==> r == -EINVAL
      ensures !ctxAllocFails && !selectOpsFails && targetAllocFails ==> r == -ENOMEM
      ensures r == 0 <==> !ctxAllocFails && !selectOpsFails && !targetAllocFails
      ensures r == 0 ==> initialized && timerQueued
      ensures r != 0 ==> initialized == old(initialized) && timerQueued == old(timerQueued)
      ensures enabled == old(enabled) && lastEnabled == old(lastEnabled) && kdamondPid == old(kdamondPid)
    {
      if ctxAllocFails {
        return -ENOMEM;
      }
      if selectOpsFails {
        return -EINVAL;
      }
      if targetAllocFails {
        return -ENOMEM;
      }
      timerQueued := true;
      initialized := true;
      return 0;
    }
  }
}
