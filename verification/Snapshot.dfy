/** The snapshot one page publication carries, and the key PageNotifyDue compares. */
module Snapshot {
  import opened Vocabulary

  /** A metav1.Time: whole Unix seconds and the sub-second part. */
  datatype Time = Time(sec: I64, nsec: nat) {
    /** Go's zero time is the first instant of year 1. */
    predicate IsZero() {
      sec == -62135596800 && nsec == 0
    }
  }

  datatype Capacity = Capacity(
    cpuCapacityMilli: Option<I64>, cpuSystemReserveMilli: Option<I64>,
    memCapacityBytes: Option<I64>, memSystemReserveBytes: Option<I64>,
    memEvictionReserveBytes: Option<I64>, memAllocatableBytes: Option<I64>,
    swapTotalBytes: Option<I64>, swapUsedBytes: Option<I64>,
    cpuPerformanceCores: Option<I64>, cpuEfficiencyCores: Option<I64>,
    gpuPresent: Option<bool>, gpuCount: Option<I64>)

  datatype Compressor = Compressor(bytesUsed: Option<I64>, bytesStored: Option<I64>, segmentLimitBytes: Option<I64>)

  datatype DarwinSignals = DarwinSignals(
    vmPressureLevel: Option<I64>, memorystatusLevelPermille: Option<I64>, compressor: Option<Compressor>,
    swapinsTotal: Option<I64>, swapoutsTotal: Option<I64>)

  datatype PsiLine = PsiLine(avg10Permille: Option<I64>, avg60Permille: Option<I64>, totalUs: Option<I64>)
  datatype PsiResource = PsiResource(some: Option<PsiLine>, full: Option<PsiLine>)
  datatype LinuxPsi = LinuxPsi(cpu: Option<PsiResource>, memory: Option<PsiResource>, io: Option<PsiResource>)
  datatype MemoryEvents = MemoryEvents(high: Option<I64>, max: Option<I64>, oom: Option<I64>, oomKill: Option<I64>)
  datatype LinuxSignals = LinuxSignals(psi: Option<LinuxPsi>, memoryEvents: Option<MemoryEvents>)

  datatype BudgetSignal = BudgetSignal(
    id: string, unit: string, value: Option<I64>,
    warnThreshold: Option<I64>, admitStopThreshold: Option<I64>, criticalThreshold: Option<I64>,
    evictSoftThreshold: Option<I64>, evictHardThreshold: Option<I64>,
    warnRelease: Option<I64>, admitStopRelease: Option<I64>, criticalRelease: Option<I64>,
    evictSoftRelease: Option<I64>, evictHardRelease: Option<I64>,
    graceSeconds: Option<I64>, minReclaimBytes: Option<I64>, windowSeconds: Option<I64>,
    etaToNextRungSeconds: Option<I64>,
    trend: string, limitingResource: string, sharedWith: string)
  {
    function Rungs(): (r: seq<Option<I64>>)
      ensures |r| == 5
    {
      [warnThreshold, admitStopThreshold, criticalThreshold, evictSoftThreshold, evictHardThreshold]
    }

    function Releases(): (r: seq<Option<I64>>)
      ensures |r| == 5
    {
      [warnRelease, admitStopRelease, criticalRelease, evictSoftRelease, evictHardRelease]
    }
  }

  datatype KillMode = KillMode(mode: string, armed: bool, armingEpisodes: I32, reason: string)
  datatype Recommendation = Recommendation(safeAdditionalBytes: Option<I64>, basis: string)

  datatype PageBandCounters = PageBandCounters(
    band: string, evictionsTotal: I64, oomKillsTotal: I64, kernelKillsTotal: I64,
    restartsTotal: I64, memHighEventsTotal: I64, tier1RefusedTotal: I64)

  type Byte = x: int | 0 <= x < 256

  datatype PageSnapshot = PageSnapshot(
    generation: I64, writerPeriodSeconds: I64, nodeName: seq<Byte>, observedAt: Time, platform: string,
    capacity: Capacity, level: string, darwin: Option<DarwinSignals>, linux: Option<LinuxSignals>,
    signals: seq<BudgetSignal>, admit: bool, admitReasonSignal: string, evictDeadline: Option<Time>,
    killMode: KillMode, recommendation: Recommendation, counters: seq<PageBandCounters>)

  // ----- the notify key -----

  /** What a change of is announced: level, admission, generation, and the thresholds slot by slot. */
  datatype NotifyKey = NotifyKey(level: string, admit: bool, generation: I64, ladder: seq<seq<I64>>)

  function OrAbsent(v: Option<I64>): I64 {
    if v.Some? then v.value else PAGE_ABSENT
  }

  /** Threshold j of slot i: None for an unset threshold and for every threshold of an empty slot. */
  function ThresholdAt(s: PageSnapshot, i: nat, j: nat): Option<I64>
    requires j < 10
  {
    if i < |s.signals| then (s.signals[i].Rungs() + s.signals[i].Releases())[j] else None
  }

  function NotifyKeyOf(s: PageSnapshot): NotifyKey {
    NotifyKey(s.level, s.admit, s.generation,
      seq(MAX_SIGNALS, i requires 0 <= i => seq(10, j requires 0 <= j < 10 => OrAbsent(ThresholdAt(s, i, j)))))
  }

  predicate NotifyDue(prev: Option<PageSnapshot>, next: PageSnapshot) {
    prev.None? || NotifyKeyOf(prev.value) != NotifyKeyOf(next)
  }

  /** notifyKeyOf as written: the ladder is first all absent, then filled slot by slot. */
  method ComputeNotifyKey(s: PageSnapshot) returns (k: NotifyKey)
    ensures k == NotifyKeyOf(s) && KeyHolds(k, s)
  {
    var ladder: seq<seq<I64>> := [];
    for i := 0 to MAX_SIGNALS
      invariant |ladder| == i
      invariant forall x :: 0 <= x < i ==> ladder[x] == NotifyKeyOf(s).ladder[x]
    {
      var row: seq<I64> := seq(10, _ => PAGE_ABSENT);
      if i < |s.signals| {
        var ps := s.signals[i].Rungs() + s.signals[i].Releases();
        for j := 0 to 10
          invariant |row| == 10
          invariant forall y :: 0 <= y < 10 ==> row[y] == if y < j then OrAbsent(ps[y]) else PAGE_ABSENT
        {
          if ps[j].Some? {
            row := row[j := ps[j].value];
          }
        }
      }
      assert row == NotifyKeyOf(s).ladder[i];
      ladder := ladder + [row];
    }
    k := NotifyKey(s.level, s.admit, s.generation, ladder);
    assert k.ladder == NotifyKeyOf(s).ladder;
    KeyOfHolds(s);
  }

  // ----- the key over a signal's own fields -----

  /** The key holds a threshold as itself, an unset one as the int64 minimum. */
  predicate Holds(x: int, v: Option<I64>) {
    x == if v.Some? then v.value else -0x8000_0000_0000_0000
  }

  /** Five rungs, then the five releases. */
  predicate RowHolds(row: seq<I64>, g: BudgetSignal) {
    && |row| == 10
    && Holds(row[0], g.warnThreshold) && Holds(row[1], g.admitStopThreshold) && Holds(row[2], g.criticalThreshold)
    && Holds(row[3], g.evictSoftThreshold) && Holds(row[4], g.evictHardThreshold)
    && Holds(row[5], g.warnRelease) && Holds(row[6], g.admitStopRelease) && Holds(row[7], g.criticalRelease)
    && Holds(row[8], g.evictSoftRelease) && Holds(row[9], g.evictHardRelease)
  }

  predicate RowEmpty(row: seq<I64>) {
    |row| == 10 && forall j :: 0 <= j < 10 ==> Holds(row[j], None)
  }

  predicate KeyHolds(k: NotifyKey, s: PageSnapshot) {
    && k.level == s.level && k.admit == s.admit && k.generation == s.generation && |k.ladder| == 8
    && forall i :: 0 <= i < 8 ==> if i < |s.signals| then RowHolds(k.ladder[i], s.signals[i]) else RowEmpty(k.ladder[i])
  }

  lemma KeyOfHolds(s: PageSnapshot)
    ensures KeyHolds(NotifyKeyOf(s), s)
  {
    var k := NotifyKeyOf(s);
    forall i | 0 <= i < 8
      ensures if i < |s.signals| then RowHolds(k.ladder[i], s.signals[i]) else RowEmpty(k.ladder[i])
    {
      if i < |s.signals| {
        RowOfHolds(k.ladder[i], s, i);
      }
    }
  }

  lemma RowOfHolds(row: seq<I64>, s: PageSnapshot, i: nat)
    requires i < |s.signals| && |row| == 10 && forall j :: 0 <= j < 10 ==> row[j] == OrAbsent(ThresholdAt(s, i, j))
    ensures RowHolds(row, s.signals[i])
  {
  }

  /** The key takes a threshold of the int64 minimum for an unset one. */
  predicate Unset(v: Option<I64>) {
    v.None? || v.value == -0x8000_0000_0000_0000
  }

  predicate Same(v: Option<I64>, w: Option<I64>) {
    v == w || (Unset(v) && Unset(w))
  }

  predicate SameThresholds(g: BudgetSignal, h: BudgetSignal) {
    && Same(g.warnThreshold, h.warnThreshold) && Same(g.admitStopThreshold, h.admitStopThreshold)
    && Same(g.criticalThreshold, h.criticalThreshold) && Same(g.evictSoftThreshold, h.evictSoftThreshold)
    && Same(g.evictHardThreshold, h.evictHardThreshold)
    && Same(g.warnRelease, h.warnRelease) && Same(g.admitStopRelease, h.admitStopRelease)
    && Same(g.criticalRelease, h.criticalRelease) && Same(g.evictSoftRelease, h.evictSoftRelease)
    && Same(g.evictHardRelease, h.evictHardRelease)
  }

  predicate SetsNone(g: BudgetSignal) {
    && Unset(g.warnThreshold) && Unset(g.admitStopThreshold) && Unset(g.criticalThreshold)
    && Unset(g.evictSoftThreshold) && Unset(g.evictHardThreshold)
    && Unset(g.warnRelease) && Unset(g.admitStopRelease) && Unset(g.criticalRelease)
    && Unset(g.evictSoftRelease) && Unset(g.evictHardRelease)
  }

  /** A threshold of a filled slot changed, or a slot with a set threshold appeared or vanished. */
  predicate SlotChanged(prev: PageSnapshot, next: PageSnapshot, i: nat) {
    if i < |prev.signals| && i < |next.signals| then !SameThresholds(prev.signals[i], next.signals[i])
    else if i < |prev.signals| then !SetsNone(prev.signals[i])
    else i < |next.signals| && !SetsNone(next.signals[i])
  }

  lemma RowsEqual(a: seq<I64>, b: seq<I64>)
    requires |a| == |b| == 10
    ensures a == b <==>
            a[0] == b[0] && a[1] == b[1] && a[2] == b[2] && a[3] == b[3] && a[4] == b[4] &&
            a[5] == b[5] && a[6] == b[6] && a[7] == b[7] && a[8] == b[8] && a[9] == b[9]
  {
  }

  lemma Compared(x: int, y: int, v: Option<I64>, w: Option<I64>)
    requires Holds(x, v) && Holds(y, w)
    ensures x == y <==> Same(v, w)
  {
  }

  /** Two filled rows. */
  lemma FilledRows(a: seq<I64>, b: seq<I64>, g: BudgetSignal, h: BudgetSignal)
    requires RowHolds(a, g) && RowHolds(b, h)
    ensures a == b <==> SameThresholds(g, h)
  {
    RowsEqual(a, b);
    Compared(a[0], b[0], g.warnThreshold, h.warnThreshold);
    Compared(a[1], b[1], g.admitStopThreshold, h.admitStopThreshold);
    Compared(a[2], b[2], g.criticalThreshold, h.criticalThreshold);
    Compared(a[3], b[3], g.evictSoftThreshold, h.evictSoftThreshold);
    Compared(a[4], b[4], g.evictHardThreshold, h.evictHardThreshold);
    Compared(a[5], b[5], g.warnRelease, h.warnRelease);
    Compared(a[6], b[6], g.admitStopRelease, h.admitStopRelease);
    Compared(a[7], b[7], g.criticalRelease, h.criticalRelease);
    Compared(a[8], b[8], g.evictSoftRelease, h.evictSoftRelease);
    Compared(a[9], b[9], g.evictHardRelease, h.evictHardRelease);
  }

  /** A filled row and an empty one. */
  lemma FilledEmptyRows(a: seq<I64>, b: seq<I64>, g: BudgetSignal)
    requires RowHolds(a, g) && RowEmpty(b)
    ensures a == b <==> SetsNone(g)
  {
    RowsEqual(a, b);
    assert forall j :: 0 <= j < 10 ==> Holds(b[j], None);
  }

  /** A slot's row of the key moves exactly when the slot changed. */
  lemma RowMoves(a: seq<I64>, b: seq<I64>, prev: PageSnapshot, next: PageSnapshot, i: nat)
    requires if i < |prev.signals| then RowHolds(a, prev.signals[i]) else RowEmpty(a)
    requires if i < |next.signals| then RowHolds(b, next.signals[i]) else RowEmpty(b)
    ensures a != b <==> SlotChanged(prev, next, i)
  {
    if i < |prev.signals| && i < |next.signals| {
      FilledRows(a, b, prev.signals[i], next.signals[i]);
    } else if i < |prev.signals| {
      FilledEmptyRows(a, b, prev.signals[i]);
    } else if i < |next.signals| {
      FilledEmptyRows(b, a, next.signals[i]);
    }
  }

  /** The key misses nothing and nothing else moves it: a notification is due exactly on a change of
  level, of admit, of the generation, or of the thresholds of one of the eight slots. */
  lemma NotifyDueExactly(prev: PageSnapshot, next: PageSnapshot)
    ensures NotifyDue(Some(prev), next) <==>
            || prev.level != next.level
            || prev.admit != next.admit
            || prev.generation != next.generation
            || exists i :: 0 <= i < 8 && SlotChanged(prev, next, i)
    ensures NotifyDue(None, next)
  {
    KeyOfHolds(prev);
    KeyOfHolds(next);
    var a, b := NotifyKeyOf(prev).ladder, NotifyKeyOf(next).ladder;
    forall i | 0 <= i < 8 ensures a[i] != b[i] <==> SlotChanged(prev, next, i) {
      RowMoves(a[i], b[i], prev, next, i);
    }
    assert a == b <==> forall i :: 0 <= i < 8 ==> a[i] == b[i];
  }
}
