/** What a reader of a page gets back, field by field: every value as it was given, with sub-seconds
dropped, "unknown" read as unset, and a block that sets nothing read as a missing one. */
module Readback {
  import opened Vocabulary
  import opened Snapshot
  import opened PageFields
  import opened PageDecode
  import opened PageCodec

  /** The page does not tell "unknown" from unset. */
  predicate WordRead(d: string, v: string) {
    d == if v == "unknown" then "" else v
  }

  predicate SignalRead(d: BudgetSignal, g: BudgetSignal) {
    && d.id == g.id && d.unit == g.unit && d.value == g.value
    && d.warnThreshold == g.warnThreshold && d.admitStopThreshold == g.admitStopThreshold
    && d.criticalThreshold == g.criticalThreshold && d.evictSoftThreshold == g.evictSoftThreshold
    && d.evictHardThreshold == g.evictHardThreshold
    && d.warnRelease == g.warnRelease && d.admitStopRelease == g.admitStopRelease
    && d.criticalRelease == g.criticalRelease && d.evictSoftRelease == g.evictSoftRelease
    && d.evictHardRelease == g.evictHardRelease
    && d.graceSeconds == g.graceSeconds && d.minReclaimBytes == g.minReclaimBytes
    && d.windowSeconds == g.windowSeconds && d.etaToNextRungSeconds == g.etaToNextRungSeconds
    && WordRead(d.trend, g.trend) && WordRead(d.limitingResource, g.limitingResource) && d.sharedWith == g.sharedWith
  }

  predicate SignalsRead(d: seq<BudgetSignal>, gs: seq<BudgetSignal>) {
    |d| == |gs| && forall i :: 0 <= i < |gs| ==> SignalRead(d[i], gs[i])
  }

  predicate KillModeRead(d: KillMode, k: KillMode) {
    d.mode == k.mode && d.armed == k.armed && d.armingEpisodes == k.armingEpisodes && WordRead(d.reason, k.reason)
  }

  predicate TimeRead(d: Time, t: Time) {
    d.sec == t.sec && d.nsec == 0
  }

  /** The int64 minimum is the sentinel: a deadline at that second reads as none. */
  predicate DeadlineRead(d: Option<Time>, t: Option<Time>) {
    if t.None? || t.value.sec == -0x8000_0000_0000_0000 then d == None else d.Some? && TimeRead(d.value, t.value)
  }

  predicate CompressorRead(d: Option<Compressor>, c: Option<Compressor>) {
    if c.None? || c == Some(Compressor(None, None, None)) then d == None else d == c
  }

  predicate DarwinRead(d: Option<DarwinSignals>, x: Option<DarwinSignals>) {
    if x.None? then d == None
    else && d.Some? && d.value.vmPressureLevel == x.value.vmPressureLevel
         && d.value.memorystatusLevelPermille == x.value.memorystatusLevelPermille
         && CompressorRead(d.value.compressor, x.value.compressor)
         && d.value.swapinsTotal == x.value.swapinsTotal && d.value.swapoutsTotal == x.value.swapoutsTotal
  }

  predicate NoLine(l: Option<PsiLine>) {
    l.None? || l == Some(PsiLine(None, None, None))
  }

  predicate LineRead(d: Option<PsiLine>, l: Option<PsiLine>) {
    if NoLine(l) then d == None else d == l
  }

  predicate NoResource(r: Option<PsiResource>) {
    r.None? || (NoLine(r.value.some) && NoLine(r.value.full))
  }

  predicate ResourceRead(d: Option<PsiResource>, r: Option<PsiResource>) {
    if NoResource(r) then d == None
    else d.Some? && LineRead(d.value.some, r.value.some) && LineRead(d.value.full, r.value.full)
  }

  predicate NoPsi(p: Option<LinuxPsi>) {
    p.None? || (NoResource(p.value.cpu) && NoResource(p.value.memory) && NoResource(p.value.io))
  }

  predicate PsiRead(d: Option<LinuxPsi>, p: Option<LinuxPsi>) {
    if NoPsi(p) then d == None
    else && d.Some? && ResourceRead(d.value.cpu, p.value.cpu) && ResourceRead(d.value.memory, p.value.memory)
         && ResourceRead(d.value.io, p.value.io)
  }

  predicate NoEvents(e: Option<MemoryEvents>) {
    e.None? || e == Some(MemoryEvents(None, None, None, None))
  }

  predicate EventsRead(d: Option<MemoryEvents>, e: Option<MemoryEvents>) {
    if NoEvents(e) then d == None else d == e
  }

  /** A Linux block that sets nothing is kept on a linux node only. */
  predicate LinuxRead(d: Option<LinuxSignals>, l: Option<LinuxSignals>, platform: string) {
    if l.None? || (platform != "linux" && NoPsi(l.value.psi) && NoEvents(l.value.memoryEvents)) then d == None
    else d.Some? && PsiRead(d.value.psi, l.value.psi) && EventsRead(d.value.memoryEvents, l.value.memoryEvents)
  }

  predicate HeadRead(d: PageSnapshot, s: PageSnapshot) {
    && d.generation == s.generation && d.writerPeriodSeconds == s.writerPeriodSeconds && d.nodeName == s.nodeName
    && TimeRead(d.observedAt, s.observedAt) && d.platform == s.platform && d.capacity == s.capacity && d.level == s.level
  }

  predicate ActionRead(d: PageSnapshot, s: PageSnapshot) {
    && d.admit == s.admit && d.admitReasonSignal == s.admitReasonSignal && DeadlineRead(d.evictDeadline, s.evictDeadline)
    && KillModeRead(d.killMode, s.killMode) && d.recommendation == s.recommendation && d.counters == s.counters
  }

  predicate SnapshotRead(d: PageSnapshot, s: PageSnapshot) {
    && HeadRead(d, s) && DarwinRead(d.darwin, s.darwin) && LinuxRead(d.linux, s.linux, s.platform)
    && SignalsRead(d.signals, s.signals) && ActionRead(d, s)
  }

  lemma ResourceNormal(r: Option<PsiResource>)
    ensures ResourceRead(NormalResource(r), r) && (NormalResource(r).None? <==> NoResource(r))
  {
  }

  lemma PsiNormal(p: Option<LinuxPsi>)
    ensures PsiRead(NormalPsi(p), p) && (NormalPsi(p).None? <==> NoPsi(p))
  {
    if p.Some? {
      ResourceNormal(p.value.cpu);
      ResourceNormal(p.value.memory);
      ResourceNormal(p.value.io);
    }
  }

  lemma LinuxNormal(l: Option<LinuxSignals>, platform: string)
    ensures LinuxRead(NormalLinuxBlock(l, platform), l, platform)
  {
    if l.Some? {
      PsiNormal(l.value.psi);
    }
  }

  lemma SignalNormal(g: BudgetSignal)
    ensures SignalRead(NormalSignal(g), g)
  {
  }

  lemma SignalsNormal(gs: seq<BudgetSignal>)
    ensures SignalsRead(NormalSignals(gs), gs)
  {
    forall i | 0 <= i < |gs| ensures SignalRead(NormalSignals(gs)[i], gs[i]) {
      SignalNormal(gs[i]);
    }
  }

  lemma DarwinNormal(x: Option<DarwinSignals>)
    ensures DarwinRead(if x.None? then None else Some(NormalDarwin(x.value)), x)
  {
  }

  lemma RecoveredFields(s: PageSnapshot)
    ensures var d := Recovered(s);
            && HeadRead(d, s) && ActionRead(d, s)
            && d.darwin == (if s.darwin.None? then None else Some(NormalDarwin(s.darwin.value)))
            && d.linux == NormalLinuxBlock(s.linux, s.platform) && d.signals == NormalSignals(s.signals)
  {
  }

  lemma RecoveredRead(s: PageSnapshot)
    ensures SnapshotRead(Recovered(s), s)
  {
    RecoveredFields(s);
    SignalsNormal(s.signals);
    DarwinNormal(s.darwin);
    LinuxNormal(s.linux, s.platform);
  }

  /** Every encodable snapshot is read back field by field. */
  lemma PageRead(s: PageSnapshot)
    requires Encodable(s)
    ensures DecodePage(PageBytes(s)).Ok? && SnapshotRead(DecodePage(PageBytes(s)).value, s)
  {
    PageRoundTrip(s);
    RecoveredRead(s);
  }
}
