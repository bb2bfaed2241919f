/** The getter of every field: the word it holds for a snapshot, or None when the snapshot holds a
value the field cannot carry; and the reader's view of the same words. */
module PageFields {
  import opened Vocabulary
  import opened PageWords
  import opened Snapshot
  import opened PageLayout

  const PAGE_ABSENT_WORD: Word := 0x8000_0000_0000_0000

  /** uint64(v) of an int64, and back. */
  function U64Of(v: I64): Word {
    if v < 0 then v + WORD_LIMIT else v
  }

  function I64Of(w: Word): I64 {
    if w > I64_MAX then w - WORD_LIMIT else w
  }

  lemma SignedRoundTrip(v: I64)
    ensures I64Of(U64Of(v)) == v
    ensures U64Of(v) == PAGE_ABSENT_WORD <==> v == PAGE_ABSENT
  {
  }

  /** An optional i64: nil is the sentinel, and a present sentinel cannot be carried. */
  function I64Word(p: Option<I64>): Option<Word> {
    if p.None? then Some(PAGE_ABSENT_WORD)
    else if p.value == PAGE_ABSENT then None
    else Some(U64Of(p.value))
  }

  function BoolWord(b: bool): Word {
    if b then 1 else 0
  }

  function CodeWord(table: seq<string>, v: string, unknown: string): Option<Word>
    requires |table| < 100
  {
    var c := PageCode(table, v, unknown);
    if c.Some? then Some(c.value) else None
  }

  /** An optional signal reference: empty, or a known signal. */
  function SignalWord(v: string): Option<Word> {
    if v == "" || SignalCode(v) != 0 then Some(SignalCode(v)) else None
  }

  function CapacityValues(c: Capacity): (vs: seq<Option<I64>>)
    ensures |vs| == 8
  {
    [ c.cpuCapacityMilli, c.cpuSystemReserveMilli, c.memCapacityBytes, c.memSystemReserveBytes,
      c.memEvictionReserveBytes, c.memAllocatableBytes, c.swapTotalBytes, c.swapUsedBytes ]
  }

  function DarwinValues(d: Option<DarwinSignals>): (vs: seq<Option<I64>>)
    ensures |vs| == 7
  {
    if d.None? then seq(7, _ => None)
    else
      var c := if d.value.compressor.None? then Compressor(None, None, None) else d.value.compressor.value;
      [ d.value.vmPressureLevel, d.value.memorystatusLevelPermille, c.bytesUsed, c.bytesStored,
        c.segmentLimitBytes, d.value.swapinsTotal, d.value.swapoutsTotal ]
  }

  function PsiResourceOf(l: Option<LinuxSignals>, r: nat): Option<PsiResource> {
    if l.None? || l.value.psi.None? then None
    else if r == 0 then l.value.psi.value.cpu
    else if r == 1 then l.value.psi.value.memory
    else l.value.psi.value.io
  }

  function PsiLineOf(l: Option<LinuxSignals>, r: nat, ln: nat): Option<PsiLine> {
    var res := PsiResourceOf(l, r);
    if res.None? then None else if ln == 0 then res.value.some else res.value.full
  }

  function PsiValue(l: Option<LinuxSignals>, r: nat, ln: nat, v: nat): Option<I64> {
    var line := PsiLineOf(l, r, ln);
    if line.None? then None
    else if v == 0 then line.value.avg10Permille
    else if v == 1 then line.value.avg60Permille
    else line.value.totalUs
  }

  function MemoryEventValues(l: Option<LinuxSignals>): (vs: seq<Option<I64>>)
    ensures |vs| == 4
  {
    if l.None? || l.value.memoryEvents.None? then [None, None, None, None]
    else
      var e := l.value.memoryEvents.value;
      [e.high, e.max, e.oom, e.oomKill]
  }

  function SignalValues(g: BudgetSignal): (vs: seq<Option<I64>>)
    ensures |vs| == 15
  {
    [ g.value, g.warnThreshold, g.admitStopThreshold, g.criticalThreshold, g.evictSoftThreshold,
      g.evictHardThreshold, g.warnRelease, g.admitStopRelease, g.criticalRelease, g.evictSoftRelease,
      g.evictHardRelease, g.graceSeconds, g.minReclaimBytes, g.windowSeconds, g.etaToNextRungSeconds ]
  }

  /** The twenty words of a filled signal slot. */
  function SignalSlotWord(g: BudgetSignal, f: nat): Option<Word>
    requires f < 20
  {
    if f == 0 then (if SignalCode(g.id) != 0 then Some(SignalCode(g.id)) else None)
    else if f == 1 then
      (if g.unit in UNITS && g.unit != "" && g.unit == UnitOf(g.id) then CodeWord(UNITS, g.unit, "") else None)
    else if f < 17 then I64Word(SignalValues(g)[f - 2])
    else if f == 17 then CodeWord(TRENDS, g.trend, UNKNOWN)
    else if f == 18 then CodeWord(RESOURCES, g.limitingResource, UNKNOWN)
    else SignalWord(g.sharedWith)
  }

  function CounterValues(c: PageBandCounters): (vs: seq<I64>)
    ensures |vs| == 6
  {
    [c.evictionsTotal, c.oomKillsTotal, c.kernelKillsTotal, c.restartsTotal, c.memHighEventsTotal, c.tier1RefusedTotal]
  }

  /** The seven words of a filled counter slot. */
  function CounterSlotWord(c: PageBandCounters, f: nat): Option<Word>
    requires f < 7
  {
    if f == 0 then (if c.band in BANDS && c.band != "" then CodeWord(BANDS, c.band, "") else None)
    else if CounterValues(c)[f - 1] >= 0 then Some(CounterValues(c)[f - 1]) else None
  }

  function ActionWord(s: PageSnapshot, i: nat): Option<Word>
    requires i < 9
  {
    if i == 0 then Some(BoolWord(s.admit))
    else if i == 1 then SignalWord(s.admitReasonSignal)
    else if i == 2 then
      (if s.evictDeadline.None? then Some(PAGE_ABSENT_WORD)
       else if s.evictDeadline.value.IsZero() then None
       else Some(U64Of(s.evictDeadline.value.sec)))
    else if i == 3 then CodeWord(KILL_MODES, s.killMode.mode, "")
    else if i == 4 then Some(BoolWord(s.killMode.armed))
    else if i == 5 then (if s.killMode.armingEpisodes >= 0 then Some(s.killMode.armingEpisodes) else None)
    else if i == 6 then CodeWord(KILL_REASONS, s.killMode.reason, UNKNOWN)
    else if i == 7 then I64Word(s.recommendation.safeAdditionalBytes)
    else SignalWord(s.recommendation.basis)
  }

  function AppendedWord(c: Capacity, i: nat): Option<Word>
    requires i < 4
  {
    if i == 0 then I64Word(c.cpuPerformanceCores)
    else if i == 1 then I64Word(c.cpuEfficiencyCores)
    else if i == 2 then (if c.gpuPresent.None? then Some(PAGE_ABSENT_WORD) else Some(BoolWord(c.gpuPresent.value)))
    else I64Word(c.gpuCount)
  }

  /** The magic, the node name and bodySize have no getter; the encoder writes them itself. */
  predicate HasGetter(id: FieldId) {
    !id.Magic? && !id.NodeName? && !id.BodySizeField?
  }

  function Get(id: FieldId, s: PageSnapshot): Option<Word>
    requires ValidId(id) && HasGetter(id)
  {
    match id
    case AbiMajor => Some(PAGE_ABI_MAJOR)
    case AbiMinor => Some(ABI_MINOR)
    case HeaderSizeField => Some(PAGE_HEADER_SIZE)
    case SeqField => Some(0)
    case EpochField => Some(0)
    case Generation => Some(U64Of(s.generation))
    case WriterPeriod => Some(U64Of(s.writerPeriodSeconds))
    case ObservedAt => if s.observedAt.IsZero() then None else Some(U64Of(s.observedAt.sec))
    case PlatformField => CodeWord(PLATFORMS, s.platform, "")
    case NodeNameLen => if |s.nodeName| < WORD_LIMIT then Some(|s.nodeName|) else None
    case CapacityField(i) => I64Word(CapacityValues(s.capacity)[i])
    case LevelField => CodeWord(LEVELS, s.level, "")
    case DarwinField(i) => I64Word(DarwinValues(s.darwin)[i])
    case PsiField(r, l, v) => I64Word(PsiValue(s.linux, r, l, v))
    case MemoryEventField(i) => I64Word(MemoryEventValues(s.linux)[i])
    case SignalField(slot, f) => if slot < |s.signals| then SignalSlotWord(s.signals[slot], f) else Some(0)
    case ActionField(i) => ActionWord(s, i)
    case CounterField(slot, f) => if slot < |s.counters| then CounterSlotWord(s.counters[slot], f) else Some(0)
    case AppendedField(i) => AppendedWord(s.capacity, i)
  }

  datatype PageError =
    | BufferTooShort
    | NodeNameTooLong | NodeNameEmpty | BadWriterPeriod | UnknownPlatform | UnknownLevel
    | TooManySignals | TooManyCounters | DarwinBlockMissing | LinuxBlockMismatch
    | CannotCarry(id: FieldId)
    | WriterNotResumed

  /** checkPageSnapshot: what the layout as a whole can carry, in the order it is checked. */
  function CheckSnapshot(s: PageSnapshot): Option<PageError> {
    if |s.nodeName| > MAX_NODE_NAME_BYTES then Some(NodeNameTooLong)
    else if s.nodeName == [] then Some(NodeNameEmpty)
    else if s.writerPeriodSeconds <= 0 then Some(BadWriterPeriod)
    else if s.platform !in PLATFORMS then Some(UnknownPlatform)
    else if s.level !in LEVELS then Some(UnknownLevel)
    else if |s.signals| > MAX_SIGNALS then Some(TooManySignals)
    else if |s.counters| > MAX_COUNTERS then Some(TooManyCounters)
    else if s.platform == DARWIN && s.darwin.None? then Some(DarwinBlockMissing)
    else if s.platform == LINUX && (s.linux.None? || s.darwin.Some?) then Some(LinuxBlockMismatch)
    else None
  }

  predicate Carries(id: FieldId, s: PageSnapshot)
    requires ValidId(id)
  {
    HasGetter(id) ==> Get(id, s).Some?
  }

  /** The snapshots the page can carry. */
  ghost predicate Encodable(s: PageSnapshot) {
    CheckSnapshot(s).None? && forall id {:trigger Carries(id, s)} :: ValidId(id) ==> Carries(id, s)
  }
}
