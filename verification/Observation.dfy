/** The observation a node publishes, its validator, and the promise that every valid observation can
be published on the page. */
module Observation {
  import opened Vocabulary
  import opened Snapshot
  import opened ObjectNames

  datatype WindowCount = WindowCount(window: string, reason: string, count: I64)

  datatype BandCounters = BandCounters(totals: PageBandCounters, windows: seq<WindowCount>)

  datatype WouldKill = WouldKill(band: string, reason: string, at: Time)
  datatype PolicyRef = PolicyRef(name: string, resourceVersion: string)
  datatype AppliedPolicy = AppliedPolicy(ref: PolicyRef, outcome: string, clampedFields: seq<string>)

  datatype NodeBudgetObservation = NodeBudgetObservation(
    observedAt: Time, producerGeneration: I64, platform: string, level: string, admit: bool,
    admitReasonSignal: string, evictDeadline: Option<Time>, capacity: Capacity, signals: seq<BudgetSignal>,
    recommendation: Recommendation, killMode: KillMode, wouldKill: Option<WouldKill>,
    counters: seq<BandCounters>, policy: Option<AppliedPolicy>, inForce: Option<PolicyRef>,
    darwin: Option<DarwinSignals>, linux: Option<LinuxSignals>)

  const MAX_WINDOW_COUNTS: nat := 12
  const MAX_CLAMPED_FIELDS: nat := 8
  const MAX_RESOURCE_VERSION: nat := 64

  // ----- what is valid -----

  predicate NonNegative(v: Option<I64>) {
    v.Some? ==> v.value >= 0
  }

  predicate Permille(v: Option<I64>) {
    v.Some? ==> 0 <= v.value <= 1000
  }

  /** The rungs that are set climb with the pressure: down on a falling signal, up on a rising one. */
  predicate RungsOrdered(desc: bool, rungs: seq<Option<I64>>) {
    forall i, j :: 0 <= i < j < |rungs| && rungs[i].Some? && rungs[j].Some? ==>
      if desc then rungs[i].value > rungs[j].value else rungs[i].value < rungs[j].value
  }

  /** A release, where both are set, is reached before its rung is when the pressure eases. */
  predicate ReleasesCalm(desc: bool, rungs: seq<Option<I64>>, releases: seq<Option<I64>>)
    requires |rungs| == |releases|
  {
    forall i :: 0 <= i < |rungs| && rungs[i].Some? && releases[i].Some? ==>
      if desc then releases[i].value > rungs[i].value else releases[i].value < rungs[i].value
  }

  predicate LadderOk(signal: string, rungs: seq<Option<I64>>, releases: seq<Option<I64>>)
    requires |rungs| == |releases| == 5
  {
    && (forall i :: 0 <= i < 5 ==> NonNegative(rungs[i]) && NonNegative(releases[i]))
    && RungsOrdered(Falls(signal), rungs)
    && ReleasesCalm(Falls(signal), rungs, releases)
    && (signal == "memory.swap" ==> rungs[3].None?)
  }

  predicate Below(v: Option<I64>, w: Option<I64>) {
    v.Some? && w.Some? ==> v.value < w.value
  }

  /** warn > admitStop > critical > evictSoft > evictHard where set, every release above its rung. */
  predicate FallingLadder(g: BudgetSignal) {
    && Below(g.admitStopThreshold, g.warnThreshold) && Below(g.criticalThreshold, g.warnThreshold)
    && Below(g.evictSoftThreshold, g.warnThreshold) && Below(g.evictHardThreshold, g.warnThreshold)
    && Below(g.criticalThreshold, g.admitStopThreshold) && Below(g.evictSoftThreshold, g.admitStopThreshold)
    && Below(g.evictHardThreshold, g.admitStopThreshold) && Below(g.evictSoftThreshold, g.criticalThreshold)
    && Below(g.evictHardThreshold, g.criticalThreshold) && Below(g.evictHardThreshold, g.evictSoftThreshold)
    && Below(g.warnThreshold, g.warnRelease) && Below(g.admitStopThreshold, g.admitStopRelease)
    && Below(g.criticalThreshold, g.criticalRelease) && Below(g.evictSoftThreshold, g.evictSoftRelease)
    && Below(g.evictHardThreshold, g.evictHardRelease)
  }

  /** The same ladder the other way up. */
  predicate RisingLadder(g: BudgetSignal) {
    && Below(g.warnThreshold, g.admitStopThreshold) && Below(g.warnThreshold, g.criticalThreshold)
    && Below(g.warnThreshold, g.evictSoftThreshold) && Below(g.warnThreshold, g.evictHardThreshold)
    && Below(g.admitStopThreshold, g.criticalThreshold) && Below(g.admitStopThreshold, g.evictSoftThreshold)
    && Below(g.admitStopThreshold, g.evictHardThreshold) && Below(g.criticalThreshold, g.evictSoftThreshold)
    && Below(g.criticalThreshold, g.evictHardThreshold) && Below(g.evictSoftThreshold, g.evictHardThreshold)
    && Below(g.warnRelease, g.warnThreshold) && Below(g.admitStopRelease, g.admitStopThreshold)
    && Below(g.criticalRelease, g.criticalThreshold) && Below(g.evictSoftRelease, g.evictSoftThreshold)
    && Below(g.evictHardRelease, g.evictHardThreshold)
  }

  predicate NoNegativeRung(g: BudgetSignal) {
    && NonNegative(g.warnThreshold) && NonNegative(g.admitStopThreshold) && NonNegative(g.criticalThreshold)
    && NonNegative(g.evictSoftThreshold) && NonNegative(g.evictHardThreshold)
    && NonNegative(g.warnRelease) && NonNegative(g.admitStopRelease) && NonNegative(g.criticalRelease)
    && NonNegative(g.evictSoftRelease) && NonNegative(g.evictHardRelease)
  }

  /** The ladder of a signal, by the signal's name. */
  predicate ValidLadder(g: BudgetSignal) {
    && NoNegativeRung(g)
    && (FallingName(g.id) ==> FallingLadder(g))
    && (RisingName(g.id) ==> RisingLadder(g))
    && (g.id == "memory.swap" ==> g.evictSoftThreshold.None?)
  }

  predicate ValidSignal(g: BudgetSignal) {
    && SignalName(g.id) && UnitName(g.id, g.unit)
    && NonNegative(g.value) && NonNegative(g.graceSeconds) && NonNegative(g.minReclaimBytes)
    && NonNegative(g.windowSeconds) && NonNegative(g.etaToNextRungSeconds)
    && ValidLadder(g)
    && (g.trend == "" || g.trend == "unknown" || TrendName(g.trend))
    && (g.limitingResource == "" || g.limitingResource == "unknown" || ResourceName(g.limitingResource))
    && (g.sharedWith == "" || (SignalName(g.sharedWith) && g.sharedWith != g.id))
  }

  predicate ValidCapacity(c: Capacity) {
    && NonNegative(c.cpuCapacityMilli) && NonNegative(c.cpuSystemReserveMilli) && NonNegative(c.memCapacityBytes)
    && NonNegative(c.memSystemReserveBytes) && NonNegative(c.memEvictionReserveBytes)
    && NonNegative(c.memAllocatableBytes) && NonNegative(c.swapTotalBytes) && NonNegative(c.swapUsedBytes)
    && NonNegative(c.cpuPerformanceCores) && NonNegative(c.cpuEfficiencyCores) && NonNegative(c.gpuCount)
    && (c.gpuPresent.Some? && c.gpuCount.Some? ==> c.gpuPresent.value == (c.gpuCount.value > 0))
  }

  predicate ValidKillMode(k: KillMode) {
    || k == KillMode("", false, 0, "")
    || (KillModeName(k.mode) && k.armingEpisodes >= 0 && (k.reason == "" || k.reason == "unknown" || KillReasonName(k.reason)))
  }

  predicate ValidWindow(w: WindowCount) {
    WindowName(w.window) && CounterReasonName(w.reason) && w.count >= 0
  }

  predicate ValidWindows(ws: seq<WindowCount>) {
    && |ws| <= 12
    && (forall i :: 0 <= i < |ws| ==> ValidWindow(ws[i]))
    && (forall i, j :: 0 <= i < j < |ws| ==> ws[i].window != ws[j].window || ws[i].reason != ws[j].reason)
  }

  predicate ValidCounters(c: BandCounters) {
    && BandName(c.totals.band)
    && c.totals.evictionsTotal >= 0 && c.totals.oomKillsTotal >= 0 && c.totals.kernelKillsTotal >= 0
    && c.totals.restartsTotal >= 0 && c.totals.memHighEventsTotal >= 0 && c.totals.tier1RefusedTotal >= 0
    && ValidWindows(c.windows)
  }

  predicate Distinct(xs: seq<string>) {
    forall i, j :: 0 <= i < j < |xs| ==> xs[i] != xs[j]
  }

  predicate PrintableAscii(s: string, max: nat) {
    1 <= |s| <= max && forall i :: 0 <= i < |s| ==> ' ' <= s[i] <= '~'
  }

  ghost predicate ValidRef(r: PolicyRef) {
    DnsName(r.name) && (r.resourceVersion != "" ==> PrintableAscii(r.resourceVersion, 64))
  }

  predicate ValidClamped(fields: seq<string>) {
    (forall i :: 0 <= i < |fields| ==> PolicyFieldName(fields[i])) && Distinct(fields)
  }

  ghost predicate ValidPolicy(p: AppliedPolicy) {
    && ValidRef(p.ref) && OutcomeName(p.outcome) && |p.clampedFields| <= 8 && ValidClamped(p.clampedFields)
  }

  predicate ValidDarwin(d: DarwinSignals) {
    && NonNegative(d.vmPressureLevel) && Permille(d.memorystatusLevelPermille)
    && NonNegative(d.swapinsTotal) && NonNegative(d.swapoutsTotal)
    && (d.compressor.Some? ==>
        && NonNegative(d.compressor.value.bytesUsed) && NonNegative(d.compressor.value.bytesStored)
        && NonNegative(d.compressor.value.segmentLimitBytes))
  }

  predicate ValidLine(l: Option<PsiLine>) {
    l.Some? ==> Permille(l.value.avg10Permille) && Permille(l.value.avg60Permille) && NonNegative(l.value.totalUs)
  }

  predicate ValidResource(r: Option<PsiResource>) {
    r.Some? ==> ValidLine(r.value.some) && ValidLine(r.value.full)
  }

  predicate ValidLinux(l: LinuxSignals) {
    && (l.psi.Some? ==> ValidResource(l.psi.value.cpu) && ValidResource(l.psi.value.memory) && ValidResource(l.psi.value.io))
    && (l.memoryEvents.Some? ==>
        var e := l.memoryEvents.value;
        NonNegative(e.high) && NonNegative(e.max) && NonNegative(e.oom) && NonNegative(e.oomKill))
  }

  predicate DistinctIds(gs: seq<BudgetSignal>, n: nat)
    requires n <= |gs|
  {
    forall i, j :: 0 <= i < j < n ==> gs[i].id != gs[j].id
  }

  predicate ValidSignals(gs: seq<BudgetSignal>) {
    && |gs| <= 8
    && (forall i :: 0 <= i < |gs| ==> ValidSignal(gs[i]))
    && DistinctIds(gs, |gs|)
  }

  predicate ValidBands(cs: seq<BandCounters>) {
    && |cs| <= 3
    && (forall i :: 0 <= i < |cs| ==> ValidCounters(cs[i]))
    && (forall i, j :: 0 <= i < j < |cs| ==> cs[i].totals.band != cs[j].totals.band)
  }

  /** An applied or clamped policy is the one in force. */
  predicate ForceMatches(policy: Option<AppliedPolicy>, inForce: Option<PolicyRef>) {
    policy.Some? && policy.value.outcome != "rejected" ==> inForce == Some(policy.value.ref)
  }

  /** Not the zero time, midnight of 1 January of year 1. */
  predicate Dated(t: Time) {
    t != Time(-62135596800, 0)
  }

  predicate ValidHead(o: NodeBudgetObservation) {
    && Dated(o.observedAt) && o.producerGeneration >= 0
    && ((o.platform == "darwin" && o.darwin.Some? && o.linux.None?) || (o.platform == "linux" && o.darwin.None? && o.linux.Some?))
    && LevelName(o.level)
    && (o.admitReasonSignal == "" || (SignalName(o.admitReasonSignal) && !o.admit))
    && (o.evictDeadline.Some? ==> Dated(o.evictDeadline.value))
    && ValidCapacity(o.capacity)
  }

  predicate ValidAdvice(o: NodeBudgetObservation) {
    && NonNegative(o.recommendation.safeAdditionalBytes)
    && (o.recommendation.basis == "" || SignalName(o.recommendation.basis))
    && ValidKillMode(o.killMode)
    && (o.wouldKill.Some? ==>
        BandName(o.wouldKill.value.band) && WouldKillReasonName(o.wouldKill.value.reason) && Dated(o.wouldKill.value.at))
  }

  ghost predicate ValidTail(o: NodeBudgetObservation) {
    && (o.policy.Some? ==> ValidPolicy(o.policy.value)) && (o.inForce.Some? ==> ValidRef(o.inForce.value))
    && ForceMatches(o.policy, o.inForce)
    && (o.darwin.Some? ==> ValidDarwin(o.darwin.value)) && (o.linux.Some? ==> ValidLinux(o.linux.value))
  }

  /** What Validate promises to accept. */
  ghost predicate ValidObservation(o: NodeBudgetObservation) {
    ValidHead(o) && ValidSignals(o.signals) && ValidAdvice(o) && ValidBands(o.counters) && ValidTail(o)
  }

  // ----- the validator's loops -----

  /** The loop of nonNegative over a list of named values. */
  method CheckNonNegative(vs: seq<Option<I64>>) returns (ok: bool)
    ensures ok <==> forall i :: 0 <= i < |vs| ==> NonNegative(vs[i])
  {
    for i := 0 to |vs|
      invariant forall k :: 0 <= k < i ==> NonNegative(vs[k])
    {
      if vs[i].Some? && vs[i].value < 0 {
        assert !NonNegative(vs[i]);
        return false;
      }
    }
    ok := true;
  }

  method CheckPermille(v: Option<I64>) returns (ok: bool)
    ensures ok <==> Permille(v)
  {
    ok := !(v.Some? && (v.value < 0 || v.value > 1000));
  }

  /** checkLadder: signs first, then every pair of rungs, then every release, then memory.swap. */
  method CheckLadder(signal: string, rungs: seq<Option<I64>>, releases: seq<Option<I64>>) returns (ok: bool)
    requires |rungs| == |releases| == 5
    ensures ok <==> LadderOk(signal, rungs, releases)
  {
    var desc := IsDescending(signal);
    for i := 0 to 5
      invariant forall k :: 0 <= k < i ==> NonNegative(rungs[k]) && NonNegative(releases[k])
    {
      if !NonNegative(rungs[i]) || !NonNegative(releases[i]) {
        return false;
      }
    }
    for i := 0 to 5
      invariant forall x, y :: 0 <= x < i && x < y < 5 && rungs[x].Some? && rungs[y].Some? ==>
                  if desc then rungs[x].value > rungs[y].value else rungs[x].value < rungs[y].value
    {
      for j := i + 1 to 5
        invariant forall y :: i < y < j && rungs[i].Some? && rungs[y].Some? ==>
                    if desc then rungs[i].value > rungs[y].value else rungs[i].value < rungs[y].value
      {
        var a, b := rungs[i], rungs[j];
        if a.None? || b.None? {
          continue;
        }
        if desc && a.value <= b.value {
          return false;
        }
        if !desc && a.value >= b.value {
          return false;
        }
      }
    }
    for i := 0 to 5
      invariant forall x :: 0 <= x < i && rungs[x].Some? && releases[x].Some? ==>
                  if desc then releases[x].value > rungs[x].value else releases[x].value < rungs[x].value
    {
      var r, rel := rungs[i], releases[i];
      if r.None? || rel.None? {
        continue;
      }
      if desc && rel.value <= r.value {
        return false;
      }
      if !desc && rel.value >= r.value {
        return false;
      }
    }
    ok := !(signal == SWAP && rungs[3].Some?);
  }

  lemma RungPairs(desc: bool, r: seq<Option<I64>>)
    requires |r| == 5
    ensures !desc ==> (RungsOrdered(desc, r) <==>
                       && Below(r[0], r[1]) && Below(r[0], r[2]) && Below(r[0], r[3]) && Below(r[0], r[4])
                       && Below(r[1], r[2]) && Below(r[1], r[3]) && Below(r[1], r[4])
                       && Below(r[2], r[3]) && Below(r[2], r[4]) && Below(r[3], r[4]))
    ensures desc ==> (RungsOrdered(desc, r) <==>
                      && Below(r[1], r[0]) && Below(r[2], r[0]) && Below(r[3], r[0]) && Below(r[4], r[0])
                      && Below(r[2], r[1]) && Below(r[3], r[1]) && Below(r[4], r[1])
                      && Below(r[3], r[2]) && Below(r[4], r[2]) && Below(r[4], r[3]))
  {
  }

  lemma ReleasePairs(desc: bool, r: seq<Option<I64>>, q: seq<Option<I64>>)
    requires |r| == |q| == 5
    ensures !desc ==> (ReleasesCalm(desc, r, q) <==>
                       Below(q[0], r[0]) && Below(q[1], r[1]) && Below(q[2], r[2]) && Below(q[3], r[3]) && Below(q[4], r[4]))
    ensures desc ==> (ReleasesCalm(desc, r, q) <==>
                      Below(r[0], q[0]) && Below(r[1], q[1]) && Below(r[2], q[2]) && Below(r[3], q[3]) && Below(r[4], q[4]))
  {
  }

  lemma RungSigns(r: seq<Option<I64>>, q: seq<Option<I64>>)
    requires |r| == |q| == 5
    ensures (forall i :: 0 <= i < 5 ==> NonNegative(r[i]) && NonNegative(q[i])) <==>
            && NonNegative(r[0]) && NonNegative(r[1]) && NonNegative(r[2]) && NonNegative(r[3]) && NonNegative(r[4])
            && NonNegative(q[0]) && NonNegative(q[1]) && NonNegative(q[2]) && NonNegative(q[3]) && NonNegative(q[4])
  {
  }

  /** The ladder rule over the two lists is the ladder of the signal's own fields. */
  lemma LadderByName(g: BudgetSignal)
    requires g.id in SIGNALS
    ensures LadderOk(g.id, g.Rungs(), g.Releases()) <==> ValidLadder(g)
  {
    SignalByName(g.id);
    RungPairs(Falls(g.id), g.Rungs());
    ReleasePairs(Falls(g.id), g.Rungs(), g.Releases());
    RungSigns(g.Rungs(), g.Releases());
  }

  predicate UnsetOr(v: string, table: seq<string>) {
    v == "" || v in table || v == UNKNOWN
  }

  /** The words of a signal, through the tables. */
  lemma SignalWords(g: BudgetSignal)
    ensures SignalName(g.id) && UnitName(g.id, g.unit) <==> g.id in SIGNALS && g.unit == UnitOf(g.id)
    ensures g.trend == "" || g.trend == "unknown" || TrendName(g.trend) <==> UnsetOr(g.trend, TRENDS)
    ensures g.limitingResource == "" || g.limitingResource == "unknown" || ResourceName(g.limitingResource)
            <==> UnsetOr(g.limitingResource, RESOURCES)
    ensures SignalName(g.sharedWith) <==> g.sharedWith in SIGNALS
  {
    SignalNames(g.id);
    SignalNames(g.sharedWith);
    TrendNames(g.trend);
    ResourceNames(g.limitingResource);
    if g.id in SIGNALS {
      SignalByName(g.id);
    }
  }

  method CheckSignal(g: BudgetSignal) returns (ok: bool)
    ensures ok <==> ValidSignal(g)
  {
    SignalWords(g);
    if g.id !in SIGNALS || g.unit != UnitOf(g.id) {
      return false;
    }
    var vs := [g.value, g.graceSeconds, g.minReclaimBytes, g.windowSeconds, g.etaToNextRungSeconds];
    ok := CheckNonNegative(vs);
    if !ok {
      return;
    }
    assert NonNegative(vs[0]) && NonNegative(vs[1]) && NonNegative(vs[2]) && NonNegative(vs[3]) && NonNegative(vs[4]);
    LadderByName(g);
    ok := CheckLadder(g.id, g.Rungs(), g.Releases());
    ok := ok && UnsetOr(g.trend, TRENDS) && UnsetOr(g.limitingResource, RESOURCES)
          && !(g.sharedWith != "" && (g.sharedWith !in SIGNALS || g.sharedWith == g.id));
  }

  lemma DistinctIdsSnoc(gs: seq<BudgetSignal>, n: nat, seen: set<string>)
    requires n < |gs| && DistinctIds(gs, n) && seen == set k | 0 <= k < n :: gs[k].id
    ensures DistinctIds(gs, n + 1) <==> gs[n].id !in seen
  {
    if gs[n].id in seen {
      var k :| 0 <= k < n && gs[k].id == gs[n].id;
    }
  }

  predicate SignalsUpTo(gs: seq<BudgetSignal>, n: nat)
    requires n <= |gs|
  {
    DistinctIds(gs, n) && forall k :: 0 <= k < n ==> ValidSignal(gs[k])
  }

  lemma SignalsUpToNext(gs: seq<BudgetSignal>, n: nat, seen: set<string>)
    requires n < |gs| && SignalsUpTo(gs, n) && seen == set k | 0 <= k < n :: gs[k].id
    ensures SignalsUpTo(gs, n + 1) <==> ValidSignal(gs[n]) && gs[n].id !in seen
    ensures !SignalsUpTo(gs, n + 1) ==> !SignalsUpTo(gs, |gs|)
  {
    DistinctIdsSnoc(gs, n, seen);
  }

  /** The seen set refuses a repeated signal: it accepts exactly the pairwise distinct lists. */
  method CheckSignals(gs: seq<BudgetSignal>) returns (ok: bool)
    ensures ok <==> ValidSignals(gs)
  {
    if |gs| > MAX_SIGNALS {
      return false;
    }
    var seen: set<string> := {};
    for i := 0 to |gs|
      invariant SignalsUpTo(gs, i)
      invariant seen == set k | 0 <= k < i :: gs[k].id
    {
      SignalsUpToNext(gs, i, seen);
      var valid := CheckSignal(gs[i]);
      if !valid || gs[i].id in seen {
        return false;
      }
      seen := seen + {gs[i].id};
    }
    ok := true;
  }

  /** Windowed counts, one per window and reason. */
  method CheckWindows(ws: seq<WindowCount>) returns (ok: bool)
    ensures ok <==> ValidWindows(ws)
  {
    if |ws| > MAX_WINDOW_COUNTS {
      return false;
    }
    var seen: set<(string, string)> := {};
    for i := 0 to |ws|
      invariant forall k :: 0 <= k < i ==> ValidWindow(ws[k])
      invariant forall x, y :: 0 <= x < y < i ==> ws[x].window != ws[y].window || ws[x].reason != ws[y].reason
      invariant seen == set k | 0 <= k < i :: (ws[k].window, ws[k].reason)
    {
      WindowNames(ws[i].window);
      CounterReasonNames(ws[i].reason);
      if ws[i].window !in WINDOWS || ws[i].reason !in COUNTER_REASONS || ws[i].count < 0 {
        assert !ValidWindow(ws[i]);
        return false;
      }
      if (ws[i].window, ws[i].reason) in seen {
        return false;
      }
      seen := seen + {(ws[i].window, ws[i].reason)};
    }
    ok := true;
  }

  method CheckCounters(c: BandCounters) returns (ok: bool)
    ensures ok <==> ValidCounters(c)
  {
    BandNames(c.totals.band);
    if c.totals.band !in BANDS {
      return false;
    }
    var t := c.totals;
    if t.evictionsTotal < 0 || t.oomKillsTotal < 0 || t.kernelKillsTotal < 0
       || t.restartsTotal < 0 || t.memHighEventsTotal < 0 || t.tier1RefusedTotal < 0 {
      return false;
    }
    ok := CheckWindows(c.windows);
  }

  method CheckBands(cs: seq<BandCounters>) returns (ok: bool)
    ensures ok <==> ValidBands(cs)
  {
    if |cs| > |BANDS| {
      return false;
    }
    var bands: set<string> := {};
    for i := 0 to |cs|
      invariant forall k :: 0 <= k < i ==> ValidCounters(cs[k])
      invariant forall x, y :: 0 <= x < y < i ==> cs[x].totals.band != cs[y].totals.band
      invariant bands == set k | 0 <= k < i :: cs[k].totals.band
    {
      var valid := CheckCounters(cs[i]);
      if !valid || cs[i].totals.band in bands {
        return false;
      }
      bands := bands + {cs[i].totals.band};
    }
    ok := true;
  }

  method CheckCapacity(c: Capacity) returns (ok: bool)
    ensures ok <==> ValidCapacity(c)
  {
    var vs := [c.cpuCapacityMilli, c.cpuSystemReserveMilli, c.memCapacityBytes, c.memSystemReserveBytes,
               c.memEvictionReserveBytes, c.memAllocatableBytes, c.swapTotalBytes, c.swapUsedBytes,
               c.cpuPerformanceCores, c.cpuEfficiencyCores, c.gpuCount];
    ok := CheckNonNegative(vs);
    if ok {
      assert NonNegative(vs[0]) && NonNegative(vs[1]) && NonNegative(vs[2]) && NonNegative(vs[3])
          && NonNegative(vs[4]) && NonNegative(vs[5]) && NonNegative(vs[6]) && NonNegative(vs[7])
          && NonNegative(vs[8]) && NonNegative(vs[9]) && NonNegative(vs[10]);
      ok := !(c.gpuPresent.Some? && c.gpuCount.Some? && c.gpuPresent.value != (c.gpuCount.value > 0));
    }
  }

  method CheckKillMode(k: KillMode) returns (ok: bool)
    ensures ok <==> ValidKillMode(k)
  {
    if k == KillMode("", false, 0, "") {
      return true;
    }
    KillModeNames(k.mode);
    KillReasonNames(k.reason);
    ok := k.mode in KILL_MODES && k.armingEpisodes >= 0
          && !(k.reason != "" && k.reason !in KILL_REASONS && k.reason != UNKNOWN);
  }

  method CheckPrintable(s: string, max: nat) returns (ok: bool)
    ensures ok <==> PrintableAscii(s, max)
  {
    if s == "" || |s| > max {
      return false;
    }
    for i := 0 to |s|
      invariant forall k :: 0 <= k < i ==> ' ' <= s[k] <= '~'
    {
      if s[i] < ' ' || s[i] > '~' {
        return false;
      }
    }
    ok := true;
  }

  method CheckRef(r: PolicyRef) returns (ok: bool)
    ensures ok <==> ValidRef(r)
  {
    ObjectNameExactly(r.name);
    if !ObjectName(r.name) {
      return false;
    }
    if r.resourceVersion == "" {
      return true;
    }
    ok := CheckPrintable(r.resourceVersion, MAX_RESOURCE_VERSION);
  }

  /** The seen map over the clamped fields refuses a repeated one. */
  method CheckClamped(fields: seq<string>) returns (ok: bool)
    ensures ok <==> ValidClamped(fields)
  {
    var seen: set<string> := {};
    for i := 0 to |fields|
      invariant forall k :: 0 <= k < i ==> PolicyFieldName(fields[k])
      invariant forall x, y :: 0 <= x < y < i ==> fields[x] != fields[y]
      invariant seen == set k | 0 <= k < i :: fields[k]
    {
      PolicyFieldNames(fields[i]);
      if fields[i] !in POLICY_FIELDS || fields[i] in seen {
        return false;
      }
      seen := seen + {fields[i]};
    }
    ok := true;
  }

  method CheckPolicy(p: AppliedPolicy) returns (ok: bool)
    ensures ok <==> ValidPolicy(p)
  {
    OutcomeNames(p.outcome);
    ok := CheckRef(p.ref);
    if !ok || p.outcome !in OUTCOMES || |p.clampedFields| > MAX_CLAMPED_FIELDS {
      return false;
    }
    ok := CheckClamped(p.clampedFields);
  }

  method CheckDarwin(d: DarwinSignals) returns (ok: bool)
    ensures ok <==> ValidDarwin(d)
  {
    ok := CheckNonNegative([d.vmPressureLevel, d.memorystatusLevelPermille, d.swapinsTotal, d.swapoutsTotal]);
    ghost var vs := [d.vmPressureLevel, d.memorystatusLevelPermille, d.swapinsTotal, d.swapoutsTotal];
    assert ok ==> NonNegative(vs[0]) && NonNegative(vs[1]) && NonNegative(vs[2]) && NonNegative(vs[3]);
    if !ok {
      return;
    }
    if d.compressor.Some? {
      var c := d.compressor.value;
      var cs := [c.bytesUsed, c.bytesStored, c.segmentLimitBytes];
      ok := CheckNonNegative(cs);
      if !ok {
        return;
      }
      assert NonNegative(cs[0]) && NonNegative(cs[1]) && NonNegative(cs[2]);
    }
    ok := CheckPermille(d.memorystatusLevelPermille);
  }

  /** The nested loops over the pressure resources and lines. */
  method CheckPressure(rs: seq<Option<PsiResource>>) returns (ok: bool)
    ensures ok <==> forall i :: 0 <= i < |rs| ==> ValidResource(rs[i])
  {
    for i := 0 to |rs|
      invariant forall k :: 0 <= k < i ==> ValidResource(rs[k])
    {
      if rs[i].None? {
        continue;
      }
      var lines := [rs[i].value.some, rs[i].value.full];
      for j := 0 to |lines|
        invariant forall k :: 0 <= k < j ==> ValidLine(lines[k])
      {
        if lines[j].None? {
          continue;
        }
        var l := lines[j].value;
        var avg10 := CheckPermille(l.avg10Permille);
        var avg60 := CheckPermille(l.avg60Permille);
        if !avg10 || !avg60 || (l.totalUs.Some? && l.totalUs.value < 0) {
          assert !ValidLine(lines[j]);
          assert !ValidResource(rs[i]);
          return false;
        }
      }
      assert ValidLine(lines[0]) && ValidLine(lines[1]);
    }
    ok := true;
  }

  method CheckLinux(l: LinuxSignals) returns (ok: bool)
    ensures ok <==> ValidLinux(l)
  {
    if l.psi.Some? {
      var rs := [l.psi.value.cpu, l.psi.value.memory, l.psi.value.io];
      ok := CheckPressure(rs);
      if !ok {
        return;
      }
      assert ValidResource(rs[0]) && ValidResource(rs[1]) && ValidResource(rs[2]);
    }
    ok := true;
    if l.memoryEvents.Some? {
      var e := l.memoryEvents.value;
      var vs := [e.high, e.max, e.oom, e.oomKill];
      ok := CheckNonNegative(vs);
      assert ok ==> NonNegative(vs[0]) && NonNegative(vs[1]) && NonNegative(vs[2]) && NonNegative(vs[3]);
    }
  }

  /** The checks before the signals. */
  method CheckHead(o: NodeBudgetObservation) returns (ok: bool)
    ensures ok <==> ValidHead(o)
  {
    PlatformNames(o.platform);
    LevelNames(o.level);
    SignalNames(o.admitReasonSignal);
    if o.observedAt.IsZero() || o.producerGeneration < 0 || o.platform !in PLATFORMS {
      return false;
    }
    if o.darwin.Some? == o.linux.Some? || (o.platform == DARWIN) != o.darwin.Some? || o.level !in LEVELS {
      return false;
    }
    if o.admitReasonSignal != "" && (o.admitReasonSignal !in SIGNALS || o.admit) {
      return false;
    }
    if o.evictDeadline.Some? && o.evictDeadline.value.IsZero() {
      return false;
    }
    ok := CheckCapacity(o.capacity);
  }

  /** The checks between the signals and the counters. */
  method CheckAdvice(o: NodeBudgetObservation) returns (ok: bool)
    ensures ok <==> ValidAdvice(o)
  {
    SignalNames(o.recommendation.basis);
    if o.recommendation.safeAdditionalBytes.Some? && o.recommendation.safeAdditionalBytes.value < 0 {
      return false;
    }
    if o.recommendation.basis != "" && o.recommendation.basis !in SIGNALS {
      return false;
    }
    ok := CheckKillMode(o.killMode);
    if ok && o.wouldKill.Some? {
      var w := o.wouldKill.value;
      BandNames(w.band);
      WouldKillReasonNames(w.reason);
      ok := w.band in BANDS && w.reason in WOULD_KILL_REASONS && !w.at.IsZero();
    }
  }

  /** The checks after the counters. */
  method CheckTail(o: NodeBudgetObservation) returns (ok: bool)
    ensures ok <==> ValidTail(o)
  {
    ok := true;
    if o.policy.Some? {
      ok := CheckPolicy(o.policy.value);
    }
    if ok && o.inForce.Some? {
      ok := CheckRef(o.inForce.value);
    }
    if !ok {
      return;
    }
    if o.policy.Some? && o.policy.value.outcome != "rejected" {
      if o.inForce.None? || o.inForce.value.name != o.policy.value.ref.name
         || o.inForce.value.resourceVersion != o.policy.value.ref.resourceVersion {
        return false;
      }
    }
    if o.darwin.Some? {
      ok := CheckDarwin(o.darwin.value);
    }
    if ok && o.linux.Some? {
      ok := CheckLinux(o.linux.value);
    }
  }

  /** NodeBudgetObservation.Validate accepts exactly the valid observations. */
  method Validate(o: NodeBudgetObservation) returns (ok: bool)
    ensures ok <==> ValidObservation(o)
  {
    ok := CheckHead(o);
    if !ok {
      return;
    }
    ok := CheckSignals(o.signals);
    if !ok {
      return;
    }
    ok := CheckAdvice(o);
    if !ok {
      return;
    }
    ok := CheckBands(o.counters);
    if !ok {
      return;
    }
    ok := CheckTail(o);
  }

  // ----- the snapshot of an observation -----

  function SnapshotOf(nodeName: seq<Byte>, period: I64, o: NodeBudgetObservation): PageSnapshot {
    PageSnapshot(o.producerGeneration, period, nodeName, o.observedAt, o.platform, o.capacity, o.level,
      o.darwin, o.linux, o.signals, o.admit, o.admitReasonSignal, o.evictDeadline, o.killMode, o.recommendation,
      seq(|o.counters|, i requires 0 <= i < |o.counters| => o.counters[i].totals))
  }

  /** NewPageSnapshot: the mirrored fields, and the counters without their windows. */
  method NewPageSnapshot(nodeName: seq<Byte>, period: I64, o: NodeBudgetObservation) returns (s: PageSnapshot)
    ensures s == SnapshotOf(nodeName, period, o)
  {
    var counters: seq<PageBandCounters> := [];
    for i := 0 to |o.counters|
      invariant counters == SnapshotOf(nodeName, period, o).counters[..i]
    {
      counters := counters + [o.counters[i].totals];
    }
    s := PageSnapshot(o.producerGeneration, period, nodeName, o.observedAt, o.platform, o.capacity, o.level,
      o.darwin, o.linux, o.signals, o.admit, o.admitReasonSignal, o.evictDeadline, o.killMode, o.recommendation, counters);
  }
}
