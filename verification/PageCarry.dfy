/** The snapshots a page can carry, over the snapshot's own fields: what EncodePage accepts, without the
getters, the tables or the checks that decide it. */
module PageCarry {
  import opened Vocabulary
  import opened PageWords
  import opened Snapshot
  import opened PageLayout
  import opened PageFields
  import opened PageCodec
  import opened PageAbi

  /** The int64 minimum marks an absent value, so no present value can be it. */
  predicate Fits(v: Option<I64>) {
    v != Some(-0x8000_0000_0000_0000)
  }

  predicate OptionalSignal(v: string) {
    v == "" || SignalName(v)
  }

  predicate CapacityFits(c: Capacity) {
    && Fits(c.cpuCapacityMilli) && Fits(c.cpuSystemReserveMilli) && Fits(c.memCapacityBytes)
    && Fits(c.memSystemReserveBytes) && Fits(c.memEvictionReserveBytes) && Fits(c.memAllocatableBytes)
    && Fits(c.swapTotalBytes) && Fits(c.swapUsedBytes) && Fits(c.cpuPerformanceCores)
    && Fits(c.cpuEfficiencyCores) && Fits(c.gpuCount)
  }

  predicate DarwinFits(d: Option<DarwinSignals>) {
    d.Some? ==>
      && Fits(d.value.vmPressureLevel) && Fits(d.value.memorystatusLevelPermille)
      && Fits(d.value.swapinsTotal) && Fits(d.value.swapoutsTotal)
      && (d.value.compressor.Some? ==>
          && Fits(d.value.compressor.value.bytesUsed) && Fits(d.value.compressor.value.bytesStored)
          && Fits(d.value.compressor.value.segmentLimitBytes))
  }

  predicate LineFits(l: Option<PsiLine>) {
    l.Some? ==> Fits(l.value.avg10Permille) && Fits(l.value.avg60Permille) && Fits(l.value.totalUs)
  }

  predicate ResourceFits(r: Option<PsiResource>) {
    r.Some? ==> LineFits(r.value.some) && LineFits(r.value.full)
  }

  predicate LinuxFits(l: Option<LinuxSignals>) {
    l.Some? ==>
      && (l.value.psi.Some? ==>
          && ResourceFits(l.value.psi.value.cpu) && ResourceFits(l.value.psi.value.memory)
          && ResourceFits(l.value.psi.value.io))
      && (l.value.memoryEvents.Some? ==>
          && Fits(l.value.memoryEvents.value.high) && Fits(l.value.memoryEvents.value.max)
          && Fits(l.value.memoryEvents.value.oom) && Fits(l.value.memoryEvents.value.oomKill))
  }

  predicate SignalValuesFit(g: BudgetSignal) {
    && Fits(g.value) && Fits(g.warnThreshold) && Fits(g.admitStopThreshold) && Fits(g.criticalThreshold)
    && Fits(g.evictSoftThreshold) && Fits(g.evictHardThreshold) && Fits(g.warnRelease) && Fits(g.admitStopRelease)
    && Fits(g.criticalRelease) && Fits(g.evictSoftRelease) && Fits(g.evictHardRelease) && Fits(g.graceSeconds)
    && Fits(g.minReclaimBytes) && Fits(g.windowSeconds) && Fits(g.etaToNextRungSeconds)
  }

  predicate SignalFits(g: BudgetSignal) {
    && SignalName(g.id) && UnitName(g.id, g.unit) && SignalValuesFit(g)
    && (g.trend == "" || g.trend == "unknown" || TrendName(g.trend))
    && (g.limitingResource == "" || g.limitingResource == "unknown" || ResourceName(g.limitingResource))
    && OptionalSignal(g.sharedWith)
  }

  predicate CounterFits(c: PageBandCounters) {
    && BandName(c.band) && c.evictionsTotal >= 0 && c.oomKillsTotal >= 0 && c.kernelKillsTotal >= 0
    && c.restartsTotal >= 0 && c.memHighEventsTotal >= 0 && c.tier1RefusedTotal >= 0
  }

  /** Not the zero time. */
  predicate TimeFits(t: Time) {
    t != Time(-62135596800, 0)
  }

  predicate HeadFits(s: PageSnapshot) {
    && 1 <= |s.nodeName| <= 253 && s.writerPeriodSeconds > 0 && TimeFits(s.observedAt) && LevelName(s.level)
    && ((s.platform == "darwin" && s.darwin.Some?) || (s.platform == "linux" && s.linux.Some? && s.darwin.None?))
  }

  predicate ActionFits(s: PageSnapshot) {
    && OptionalSignal(s.admitReasonSignal) && (s.evictDeadline.Some? ==> TimeFits(s.evictDeadline.value))
    && (s.killMode.mode == "" || KillModeName(s.killMode.mode)) && s.killMode.armingEpisodes >= 0
    && (s.killMode.reason == "" || s.killMode.reason == "unknown" || KillReasonName(s.killMode.reason))
    && Fits(s.recommendation.safeAdditionalBytes) && OptionalSignal(s.recommendation.basis)
  }

  predicate SnapshotFits(s: PageSnapshot) {
    && HeadFits(s) && CapacityFits(s.capacity) && DarwinFits(s.darwin) && LinuxFits(s.linux) && ActionFits(s)
    && |s.signals| <= 8 && (forall i :: 0 <= i < |s.signals| ==> SignalFits(s.signals[i]))
    && |s.counters| <= 3 && (forall i :: 0 <= i < |s.counters| ==> CounterFits(s.counters[i]))
  }

  // ----- what encodes fits -----

  lemma HeadNeeded(s: PageSnapshot)
    requires Encodable(s)
    ensures HeadFits(s)
  {
    assert Carries(ObservedAt, s);
    PlatformNames(s.platform);
    LevelNames(s.level);
  }

  lemma ActionNeeded(b: seq<Byte>, s: PageSnapshot)
    requires |b| >= 2344 && ActionAbi(b, s) && s.killMode.armingEpisodes >= 0
    requires s.evictDeadline.Some? ==> TimeFits(s.evictDeadline.value)
    ensures ActionFits(s)
  {
  }

  lemma ActionCarries(s: PageSnapshot)
    requires Encodable(s)
    ensures s.killMode.armingEpisodes >= 0 && (s.evictDeadline.Some? ==> TimeFits(s.evictDeadline.value))
  {
    assert Carries(ActionField(2), s) && Carries(ActionField(5), s);
  }

  lemma DarwinNeeded(b: seq<Byte>, d: Option<DarwinSignals>)
    requires |b| >= 2344 && DarwinAbi(b, d)
    ensures DarwinFits(d)
  {
  }

  lemma LinuxNeeded(b: seq<Byte>, l: Option<LinuxSignals>)
    requires |b| >= 2344 && LinuxAbi(b, l)
    ensures LinuxFits(l)
  {
  }

  lemma CapacityNeeded(b: seq<Byte>, c: Capacity)
    requires |b| >= 2344 && CapacityAbi(b, c) && AppendedAbi(b, c)
    ensures CapacityFits(c)
  {
  }

  lemma SignalNeeded(b: seq<Byte>, off: nat, g: BudgetSignal)
    requires off + 160 <= |b| && SignalAbi(b, off, g) && g.id in SIGNALS && g.unit == UnitOf(g.id)
    ensures SignalFits(g)
  {
    SignalByName(g.id);
    SignalNames(g.id);
  }

  lemma SignalsNeeded(s: PageSnapshot)
    requires Encodable(s)
    ensures |s.signals| <= 8 && forall i :: 0 <= i < |s.signals| ==> SignalFits(s.signals[i])
  {
    forall i | 0 <= i < |s.signals| ensures SignalFits(s.signals[i]) {
      SlotBytes(s, i);
      SlotNumber(s, i, 0);
      SlotNumber(s, i, 1);
      SignalNeeded(PageBytes(s), 792 + 160 * i, s.signals[i]);
    }
  }

  lemma CountersNeeded(s: PageSnapshot)
    requires Encodable(s)
    ensures |s.counters| <= 3 && forall i :: 0 <= i < |s.counters| ==> CounterFits(s.counters[i])
  {
    CountersBytes(s);
    forall i | 0 <= i < |s.counters| ensures CounterFits(s.counters[i]) {
      assert CounterAbi(PageBytes(s), 2144 + 56 * i, s.counters[i]);
    }
  }

  lemma EncodableFits(s: PageSnapshot)
    requires Encodable(s)
    ensures SnapshotFits(s)
  {
    HeadNeeded(s);
    ActionCarries(s);
    BytesAreAbi(s);
    ActionNeeded(PageBytes(s), s);
    DarwinNeeded(PageBytes(s), s.darwin);
    LinuxNeeded(PageBytes(s), s.linux);
    CapacityNeeded(PageBytes(s), s.capacity);
    SignalsNeeded(s);
    CountersNeeded(s);
  }

  // ----- what fits encodes -----

  lemma SignalSlotFits(g: BudgetSignal, f: nat)
    requires SignalFits(g) && f < 20
    ensures SignalSlotWord(g, f).Some?
  {
    SignalNames(g.id);
    SignalByName(g.id);
    if f == 17 {
      TrendNames(g.trend);
    } else if f == 18 {
      ResourceNames(g.limitingResource);
    } else if f == 19 {
      SignalNames(g.sharedWith);
    } else if 2 <= f {
      assert Fits(SignalValues(g)[f - 2]);
    }
  }

  lemma CounterSlotFits(c: PageBandCounters, f: nat)
    requires CounterFits(c) && f < 7
    ensures CounterSlotWord(c, f).Some?
  {
    BandNames(c.band);
  }

  lemma ActionWordFits(s: PageSnapshot, i: nat)
    requires ActionFits(s) && i < 9
    ensures ActionWord(s, i).Some?
  {
    SignalNames(s.admitReasonSignal);
    SignalNames(s.recommendation.basis);
    KillModeNames(s.killMode.mode);
    KillReasonNames(s.killMode.reason);
  }

  lemma PsiFits(l: Option<LinuxSignals>, r: nat, ln: nat, v: nat)
    requires LinuxFits(l)
    ensures Fits(PsiValue(l, r, ln, v))
  {
    assert ResourceFits(PsiResourceOf(l, r));
    assert LineFits(PsiLineOf(l, r, ln));
  }

  lemma BlocksFit(s: PageSnapshot, id: FieldId)
    requires SnapshotFits(s) && ValidId(id)
    requires id.CapacityField? || id.AppendedField? || id.DarwinField? || id.PsiField? || id.MemoryEventField?
    ensures Carries(id, s)
  {
    match id
    case CapacityField(i) => assert Fits(CapacityValues(s.capacity)[i]);
    case DarwinField(i) => assert Fits(DarwinValues(s.darwin)[i]);
    case PsiField(r, l, v) => PsiFits(s.linux, r, l, v);
    case MemoryEventField(i) => assert Fits(MemoryEventValues(s.linux)[i]);
    case _ =>
  }

  lemma FieldFits(s: PageSnapshot, id: FieldId)
    requires SnapshotFits(s) && ValidId(id)
    ensures Carries(id, s)
  {
    match id
    case PlatformField => PlatformNames(s.platform);
    case LevelField => LevelNames(s.level);
    case CapacityField(_) => BlocksFit(s, id);
    case AppendedField(_) => BlocksFit(s, id);
    case DarwinField(_) => BlocksFit(s, id);
    case PsiField(_, _, _) => BlocksFit(s, id);
    case MemoryEventField(_) => BlocksFit(s, id);
    case SignalField(slot, f) => if slot < |s.signals| { SignalSlotFits(s.signals[slot], f); }
    case CounterField(slot, f) => if slot < |s.counters| { CounterSlotFits(s.counters[slot], f); }
    case ActionField(i) => ActionWordFits(s, i);
    case _ =>
  }

  /** EncodePage accepts exactly the snapshots that fit. */
  lemma EncodableExactly(s: PageSnapshot)
    ensures Encodable(s) <==> SnapshotFits(s)
  {
    if SnapshotFits(s) {
      PlatformNames(s.platform);
      LevelNames(s.level);
      forall id | ValidId(id) ensures Carries(id, s) {
        FieldFits(s, id);
      }
    }
    if Encodable(s) {
      EncodableFits(s);
    }
  }
}
