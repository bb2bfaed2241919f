/** A reader driven by the same fields and code tables, and what a snapshot comes back as. */
module PageDecode {
  import opened Vocabulary
  import opened PageWords
  import opened Snapshot
  import opened PageLayout
  import opened PageFields

  datatype Result<+T> = Ok(value: T) | Err(error: ReadError)
  datatype ReadError = AbiMismatch | Truncated | TornPage | Corrupt

  /** The words a reader sees, by field. */
  type Words = FieldId -> Word

  function OptOf(w: Word): Option<I64> {
    if w == PAGE_ABSENT_WORD then None else Some(I64Of(w))
  }

  function Opt(g: Words, id: FieldId): Option<I64> {
    OptOf(g(id))
  }

  function Code(g: Words, id: FieldId, table: seq<string>, unknown: string): string {
    var v := CodeValue(table, g(id), unknown);
    if v.Some? then v.value else ""
  }

  predicate Known(g: Words, id: FieldId, table: seq<string>) {
    g(id) <= |table|
  }

  function DecodeCapacity(g: Words): Capacity {
    Capacity(Opt(g, CapacityField(0)), Opt(g, CapacityField(1)), Opt(g, CapacityField(2)), Opt(g, CapacityField(3)),
      Opt(g, CapacityField(4)), Opt(g, CapacityField(5)), Opt(g, CapacityField(6)), Opt(g, CapacityField(7)),
      Opt(g, AppendedField(0)), Opt(g, AppendedField(1)),
      (if g(AppendedField(2)) == PAGE_ABSENT_WORD then None else Some(g(AppendedField(2)) == 1)),
      Opt(g, AppendedField(3)))
  }

  function DecodeDarwin(g: Words): DarwinSignals {
    var c := Compressor(Opt(g, DarwinField(2)), Opt(g, DarwinField(3)), Opt(g, DarwinField(4)));
    DarwinSignals(Opt(g, DarwinField(0)), Opt(g, DarwinField(1)),
      if c == Compressor(None, None, None) then None else Some(c),
      Opt(g, DarwinField(5)), Opt(g, DarwinField(6)))
  }

  function DecodePsiLine(g: Words, r: nat, l: nat): Option<PsiLine> {
    FoldLine(PsiLine(Opt(g, PsiField(r, l, 0)), Opt(g, PsiField(r, l, 1)), Opt(g, PsiField(r, l, 2))))
  }

  function DecodePsiResource(g: Words, r: nat): Option<PsiResource> {
    FoldResource(PsiResource(DecodePsiLine(g, r, 0), DecodePsiLine(g, r, 1)))
  }

  function FoldLine(l: PsiLine): Option<PsiLine> {
    if l == PsiLine(None, None, None) then None else Some(l)
  }

  function FoldResource(r: PsiResource): Option<PsiResource> {
    if r == PsiResource(None, None) then None else Some(r)
  }

  function FoldPsi(p: LinuxPsi): Option<LinuxPsi> {
    if p == LinuxPsi(None, None, None) then None else Some(p)
  }

  function FoldEvents(e: MemoryEvents): Option<MemoryEvents> {
    if e == MemoryEvents(None, None, None, None) then None else Some(e)
  }

  function DecodeLinux(g: Words): LinuxSignals {
    LinuxSignals(
      FoldPsi(LinuxPsi(DecodePsiResource(g, 0), DecodePsiResource(g, 1), DecodePsiResource(g, 2))),
      FoldEvents(MemoryEvents(Opt(g, MemoryEventField(0)), Opt(g, MemoryEventField(1)),
                              Opt(g, MemoryEventField(2)), Opt(g, MemoryEventField(3)))))
  }

  function SlotOpt(g: Words, i: nat, f: nat): Option<I64> {
    Opt(g, SignalField(i, f))
  }

  function DecodeSignal(g: Words, i: nat): BudgetSignal {
    BudgetSignal(
      Code(g, SignalField(i, 0), SIGNALS, ""), Code(g, SignalField(i, 1), UNITS, ""), SlotOpt(g, i, 2),
      SlotOpt(g, i, 3), SlotOpt(g, i, 4), SlotOpt(g, i, 5), SlotOpt(g, i, 6), SlotOpt(g, i, 7),
      SlotOpt(g, i, 8), SlotOpt(g, i, 9), SlotOpt(g, i, 10), SlotOpt(g, i, 11), SlotOpt(g, i, 12),
      SlotOpt(g, i, 13), SlotOpt(g, i, 14), SlotOpt(g, i, 15), SlotOpt(g, i, 16),
      Code(g, SignalField(i, 17), TRENDS, UNKNOWN), Code(g, SignalField(i, 18), RESOURCES, UNKNOWN),
      Code(g, SignalField(i, 19), SIGNALS, ""))
  }

  /** The filled slots from i on, in order; an empty slot is skipped. */
  function Collect<T>(filled: nat -> bool, item: nat -> T, i: nat, n: nat): seq<T>
    requires i <= n
    decreases n - i
  {
    if i == n then []
    else (if filled(i) then [item(i)] else []) + Collect(filled, item, i + 1, n)
  }

  /** A slot whose id code is 0 is empty. */
  function SignalFilled(g: Words): nat -> bool {
    (i: nat) => g(SignalField(i, 0)) != 0
  }

  function SignalItem(g: Words): nat -> BudgetSignal {
    (i: nat) => DecodeSignal(g, i)
  }

  function DecodeSignals(g: Words): seq<BudgetSignal> {
    Collect(SignalFilled(g), SignalItem(g), 0, MAX_SIGNALS)
  }

  function DecodeCounter(g: Words, i: nat): PageBandCounters {
    PageBandCounters(Code(g, CounterField(i, 0), BANDS, ""),
      I64Of(g(CounterField(i, 1))), I64Of(g(CounterField(i, 2))), I64Of(g(CounterField(i, 3))),
      I64Of(g(CounterField(i, 4))), I64Of(g(CounterField(i, 5))), I64Of(g(CounterField(i, 6))))
  }

  function CounterFilled(g: Words): nat -> bool {
    (i: nat) => g(CounterField(i, 0)) != 0
  }

  function CounterItem(g: Words): nat -> PageBandCounters {
    (i: nat) => DecodeCounter(g, i)
  }

  function DecodeCounters(g: Words): seq<PageBandCounters> {
    Collect(CounterFilled(g), CounterItem(g), 0, MAX_COUNTERS)
  }

  /** int32(v) keeps the low 32 bits. */
  function I32Of(v: I64): I32 {
    var x := v % HALF_LIMIT;
    if x > 0x7FFF_FFFF then x - HALF_LIMIT else x
  }

  function DecodeDeadline(g: Words): Option<Time> {
    var v := Opt(g, ActionField(2));
    if v.None? then None else Some(Time(v.value, 0))
  }

  function DecodeDarwinBlock(g: Words, platform: string): Option<DarwinSignals> {
    if platform == DARWIN then Some(DecodeDarwin(g)) else None
  }

  function DecodeLinuxBlock(g: Words, platform: string): Option<LinuxSignals> {
    var l := DecodeLinux(g);
    if platform == LINUX || l != LinuxSignals(None, None) then Some(l) else None
  }

  function DecodeBody(g: Words, name: seq<Byte>): PageSnapshot {
    var platform := Code(g, PlatformField, PLATFORMS, "");
    PageSnapshot(
      I64Of(g(Generation)), I64Of(g(WriterPeriod)), name, Time(I64Of(g(ObservedAt)), 0), platform,
      DecodeCapacity(g), Code(g, LevelField, LEVELS, ""),
      DecodeDarwinBlock(g, platform),
      DecodeLinuxBlock(g, platform),
      DecodeSignals(g), g(ActionField(0)) == 1, Code(g, ActionField(1), SIGNALS, ""), DecodeDeadline(g),
      KillMode(Code(g, ActionField(3), KILL_MODES, ""), g(ActionField(4)) == 1, I32Of(I64Of(g(ActionField(5)))),
               Code(g, ActionField(6), KILL_REASONS, UNKNOWN)),
      Recommendation(Opt(g, ActionField(7)), Code(g, ActionField(8), SIGNALS, "")),
      DecodeCounters(g))
  }

  /** Every structural code is one the tables hold. */
  predicate CodesKnown(g: Words) {
    && Known(g, PlatformField, PLATFORMS) && Known(g, LevelField, LEVELS)
    && Known(g, ActionField(1), SIGNALS) && Known(g, ActionField(3), KILL_MODES) && Known(g, ActionField(8), SIGNALS)
    && (forall i :: 0 <= i < MAX_SIGNALS && g(SignalField(i, 0)) != 0 ==>
          Known(g, SignalField(i, 0), SIGNALS) && Known(g, SignalField(i, 1), UNITS) && Known(g, SignalField(i, 19), SIGNALS))
    && (forall i :: 0 <= i < MAX_COUNTERS && g(CounterField(i, 0)) != 0 ==> Known(g, CounterField(i, 0), BANDS))
  }

  // ----- what a snapshot comes back as -----

  function NormalTime(t: Time): Time {
    Time(t.sec, 0)
  }

  function NormalDarwin(d: DarwinSignals): DarwinSignals {
    if d.compressor == Some(Compressor(None, None, None)) then d.(compressor := None) else d
  }

  function NormalLine(l: Option<PsiLine>): Option<PsiLine> {
    if l.None? then None else FoldLine(l.value)
  }

  function NormalResource(r: Option<PsiResource>): Option<PsiResource> {
    if r.None? then None
    else FoldResource(PsiResource(NormalLine(r.value.some), NormalLine(r.value.full)))
  }

  function NormalPsi(p: Option<LinuxPsi>): Option<LinuxPsi> {
    if p.None? then None
    else FoldPsi(LinuxPsi(NormalResource(p.value.cpu), NormalResource(p.value.memory), NormalResource(p.value.io)))
  }

  function NormalLinux(l: LinuxSignals): LinuxSignals {
    LinuxSignals(NormalPsi(l.psi), if l.memoryEvents.None? then None else FoldEvents(l.memoryEvents.value))
  }

  function NormalLinuxBlock(l: Option<LinuxSignals>, platform: string): Option<LinuxSignals> {
    if l.None? then None
    else if platform == LINUX || NormalLinux(l.value) != LinuxSignals(None, None) then Some(NormalLinux(l.value))
    else None
  }

  function NormalSignal(g: BudgetSignal): BudgetSignal {
    g.(trend := FoldUnknown(g.trend), limitingResource := FoldUnknown(g.limitingResource))
  }

  function NormalSignals(gs: seq<BudgetSignal>): seq<BudgetSignal> {
    seq(|gs|, i requires 0 <= i < |gs| => NormalSignal(gs[i]))
  }

  /** Sub-seconds dropped, unknown folded into unset, empty sub-blocks folded into absent. */
  function Normalised(s: PageSnapshot): PageSnapshot {
    s.(observedAt := NormalTime(s.observedAt),
       darwin := if s.darwin.None? then None else Some(NormalDarwin(s.darwin.value)),
       linux := NormalLinuxBlock(s.linux, s.platform),
       signals := NormalSignals(s.signals),
       evictDeadline := if s.evictDeadline.None? then None else Some(NormalTime(s.evictDeadline.value)),
       killMode := s.killMode.(reason := FoldUnknown(s.killMode.reason)))
  }

  // ----- the words of a snapshot decode to it -----

  predicate Shown(g: Words, s: PageSnapshot, id: FieldId)
    requires ValidId(id) && HasGetter(id)
  {
    Get(id, s).Some? && g(id) == Get(id, s).value
  }

  /** The fields outside the body, which a decoder of the body does not look at. */
  predicate InHeader(id: FieldId) {
    id == AbiMajor || id == AbiMinor || id == HeaderSizeField || id == SeqField || id == EpochField
  }

  /** g shows the body words of s. */
  ghost predicate Shows(g: Words, s: PageSnapshot) {
    && CheckSnapshot(s).None?
    && forall id {:trigger Shown(g, s, id)} :: ValidId(id) && HasGetter(id) && !InHeader(id) ==> Shown(g, s, id)
  }

  lemma OptRoundTrip(p: Option<I64>)
    requires I64Word(p).Some?
    ensures OptOf(I64Word(p).value) == p
  {
  }

  lemma OptShown(g: Words, id: FieldId, p: Option<I64>)
    requires I64Word(p).Some? && g(id) == I64Word(p).value
    ensures Opt(g, id) == p
  {
    OptRoundTrip(p);
  }

  lemma CapacityShown(g: Words, s: PageSnapshot)
    requires Shows(g, s)
    ensures DecodeCapacity(g) == s.capacity
  {
    var vs := CapacityValues(s.capacity);
    forall i | 0 <= i < 8 ensures Opt(g, CapacityField(i)) == vs[i] {
      CapacityFieldShown(g, s, i);
    }
    CoresShown(g, s);
    GpuShown(g, s);
  }

  lemma CapacityFieldShown(g: Words, s: PageSnapshot, i: nat)
    requires Shows(g, s) && i < 8
    ensures Opt(g, CapacityField(i)) == CapacityValues(s.capacity)[i]
  {
    assert Shown(g, s, CapacityField(i));
    OptShown(g, CapacityField(i), CapacityValues(s.capacity)[i]);
  }

  lemma CoresShown(g: Words, s: PageSnapshot)
    requires Shows(g, s)
    ensures Opt(g, AppendedField(0)) == s.capacity.cpuPerformanceCores
    ensures Opt(g, AppendedField(1)) == s.capacity.cpuEfficiencyCores
  {
    assert Shown(g, s, AppendedField(0)) && Shown(g, s, AppendedField(1));
    OptShown(g, AppendedField(0), s.capacity.cpuPerformanceCores);
    OptShown(g, AppendedField(1), s.capacity.cpuEfficiencyCores);
  }

  lemma GpuShown(g: Words, s: PageSnapshot)
    requires Shows(g, s)
    ensures DecodeCapacity(g).gpuPresent == s.capacity.gpuPresent
    ensures Opt(g, AppendedField(3)) == s.capacity.gpuCount
  {
    assert Shown(g, s, AppendedField(2)) && Shown(g, s, AppendedField(3));
    OptShown(g, AppendedField(3), s.capacity.gpuCount);
  }

  lemma DarwinShown(g: Words, s: PageSnapshot)
    requires Shows(g, s) && s.darwin.Some?
    ensures DecodeDarwin(g) == NormalDarwin(s.darwin.value)
  {
    var vs := DarwinValues(s.darwin);
    forall i | 0 <= i < 7 ensures Opt(g, DarwinField(i)) == vs[i] {
      assert Shown(g, s, DarwinField(i));
      OptShown(g, DarwinField(i), vs[i]);
    }
  }

  lemma PsiLineShown(g: Words, s: PageSnapshot, r: nat, l: nat)
    requires Shows(g, s) && r < 3 && l < 2
    ensures DecodePsiLine(g, r, l) == NormalLine(PsiLineOf(s.linux, r, l))
  {
    forall v | 0 <= v < 3 ensures Opt(g, PsiField(r, l, v)) == PsiValue(s.linux, r, l, v) {
      assert Shown(g, s, PsiField(r, l, v));
      OptShown(g, PsiField(r, l, v), PsiValue(s.linux, r, l, v));
    }
  }

  lemma PsiResourceShown(g: Words, s: PageSnapshot, r: nat)
    requires Shows(g, s) && r < 3
    ensures DecodePsiResource(g, r) == NormalResource(PsiResourceOf(s.linux, r))
  {
    PsiLineShown(g, s, r, 0);
    PsiLineShown(g, s, r, 1);
  }

  lemma LinuxShown(g: Words, s: PageSnapshot)
    requires Shows(g, s)
    ensures DecodeLinux(g) == if s.linux.None? then LinuxSignals(None, None) else NormalLinux(s.linux.value)
  {
    PsiResourceShown(g, s, 0);
    PsiResourceShown(g, s, 1);
    PsiResourceShown(g, s, 2);
    var vs := MemoryEventValues(s.linux);
    forall i | 0 <= i < 4 ensures Opt(g, MemoryEventField(i)) == vs[i] {
      assert Shown(g, s, MemoryEventField(i));
      OptShown(g, MemoryEventField(i), vs[i]);
    }
  }

  lemma CodeShown(g: Words, id: FieldId, table: seq<string>, v: string, unknown: string)
    requires |table| < 100 && CodeWord(table, v, unknown).Some? && g(id) == CodeWord(table, v, unknown).value
    requires unknown == "" || unknown == UNKNOWN
    ensures Code(g, id, table, unknown) == if unknown == "" then v else FoldUnknown(v)
    ensures Known(g, id, table)
  {
    CodeRoundTrip(table, v, unknown);
  }

  lemma SignalRefShown(g: Words, id: FieldId, v: string)
    requires SignalWord(v).Some? && g(id) == SignalWord(v).value
    ensures Code(g, id, SIGNALS, "") == v
    ensures Known(g, id, SIGNALS)
  {
    SignalCodeRoundTrip(v);
  }

  lemma SlotIdShown(g: Words, s: PageSnapshot, i: nat)
    requires Shows(g, s) && i < |s.signals| <= MAX_SIGNALS
    ensures g(SignalField(i, 0)) != 0 && Known(g, SignalField(i, 0), SIGNALS)
    ensures Code(g, SignalField(i, 0), SIGNALS, "") == s.signals[i].id
  {
    assert Shown(g, s, SignalField(i, 0));
    SignalRefShown(g, SignalField(i, 0), s.signals[i].id);
  }

  lemma SlotUnitShown(g: Words, s: PageSnapshot, i: nat)
    requires Shows(g, s) && i < |s.signals| <= MAX_SIGNALS
    ensures Known(g, SignalField(i, 1), UNITS) && Code(g, SignalField(i, 1), UNITS, "") == s.signals[i].unit
  {
    assert Shown(g, s, SignalField(i, 1));
    CodeShown(g, SignalField(i, 1), UNITS, s.signals[i].unit, "");
  }

  lemma SlotSharedShown(g: Words, s: PageSnapshot, i: nat)
    requires Shows(g, s) && i < |s.signals| <= MAX_SIGNALS
    ensures Known(g, SignalField(i, 19), SIGNALS) && Code(g, SignalField(i, 19), SIGNALS, "") == s.signals[i].sharedWith
  {
    assert Shown(g, s, SignalField(i, 19));
    SignalRefShown(g, SignalField(i, 19), s.signals[i].sharedWith);
  }

  lemma SlotCodesShown(g: Words, s: PageSnapshot, i: nat)
    requires Shows(g, s) && i < |s.signals| <= MAX_SIGNALS
    ensures g(SignalField(i, 0)) != 0
    ensures Known(g, SignalField(i, 0), SIGNALS) && Known(g, SignalField(i, 1), UNITS) && Known(g, SignalField(i, 19), SIGNALS)
    ensures Code(g, SignalField(i, 0), SIGNALS, "") == s.signals[i].id
    ensures Code(g, SignalField(i, 1), UNITS, "") == s.signals[i].unit
    ensures Code(g, SignalField(i, 19), SIGNALS, "") == s.signals[i].sharedWith
  {
    SlotIdShown(g, s, i);
    SlotUnitShown(g, s, i);
    SlotSharedShown(g, s, i);
  }

  lemma SlotOpenCodesShown(g: Words, s: PageSnapshot, i: nat)
    requires Shows(g, s) && i < |s.signals| <= MAX_SIGNALS
    ensures Code(g, SignalField(i, 17), TRENDS, UNKNOWN) == FoldUnknown(s.signals[i].trend)
    ensures Code(g, SignalField(i, 18), RESOURCES, UNKNOWN) == FoldUnknown(s.signals[i].limitingResource)
  {
    var sig := s.signals[i];
    assert Shown(g, s, SignalField(i, 17));
    CodeShown(g, SignalField(i, 17), TRENDS, sig.trend, UNKNOWN);
    assert Shown(g, s, SignalField(i, 18));
    CodeShown(g, SignalField(i, 18), RESOURCES, sig.limitingResource, UNKNOWN);
  }

  lemma SlotValueShown(g: Words, s: PageSnapshot, i: nat, f: nat)
    requires Shows(g, s) && i < |s.signals| <= MAX_SIGNALS && 2 <= f < 17
    ensures SlotOpt(g, i, f) == SignalValues(s.signals[i])[f - 2]
  {
    assert Shown(g, s, SignalField(i, f));
    OptShown(g, SignalField(i, f), SignalValues(s.signals[i])[f - 2]);
  }

  lemma SignalShown(g: Words, s: PageSnapshot, i: nat)
    requires Shows(g, s) && i < |s.signals| <= MAX_SIGNALS
    ensures DecodeSignal(g, i) == NormalSignal(s.signals[i])
  {
    SlotCodesShown(g, s, i);
    SlotOpenCodesShown(g, s, i);
    forall f | 2 <= f < 17 ensures SlotOpt(g, i, f) == SignalValues(s.signals[i])[f - 2] {
      SlotValueShown(g, s, i, f);
    }
  }

  lemma {:induction false} CollectPrefix<T>(filled: nat -> bool, item: nat -> T, i: nat, n: nat, xs: seq<T>)
    requires i <= n && |xs| <= n
    requires forall k :: 0 <= k < n ==> filled(k) == (k < |xs|)
    requires forall k :: 0 <= k < |xs| ==> item(k) == xs[k]
    ensures Collect(filled, item, i, n) == if i <= |xs| then xs[i..] else []
    decreases n - i
  {
    if i < n {
      CollectPrefix(filled, item, i + 1, n, xs);
      if i < |xs| {
        assert xs[i..] == [xs[i]] + xs[i + 1..];
      }
    }
  }

  lemma SlotFilled(g: Words, s: PageSnapshot, i: nat)
    requires Shows(g, s) && i < MAX_SIGNALS && |s.signals| <= MAX_SIGNALS
    ensures g(SignalField(i, 0)) != 0 <==> i < |s.signals|
  {
    if i < |s.signals| {
      SlotCodesShown(g, s, i);
    } else {
      assert Shown(g, s, SignalField(i, 0));
    }
  }

  lemma SignalsShown(g: Words, s: PageSnapshot)
    requires Shows(g, s) && |s.signals| <= MAX_SIGNALS
    ensures DecodeSignals(g) == NormalSignals(s.signals)
  {
    var filled, item := SignalFilled(g), SignalItem(g);
    forall k | 0 <= k < MAX_SIGNALS ensures filled(k) == (k < |s.signals|) {
      SlotFilled(g, s, k);
    }
    var xs := NormalSignals(s.signals);
    forall k | 0 <= k < |xs| ensures item(k) == xs[k] {
      SignalShown(g, s, k);
    }
    CollectPrefix(filled, item, 0, MAX_SIGNALS, xs);
    assert xs[0..] == xs;
  }

  lemma CounterShown(g: Words, s: PageSnapshot, i: nat)
    requires Shows(g, s) && i < |s.counters| <= MAX_COUNTERS
    ensures DecodeCounter(g, i) == s.counters[i]
    ensures g(CounterField(i, 0)) != 0 && Known(g, CounterField(i, 0), BANDS)
  {
    var c := s.counters[i];
    forall f | 1 <= f < 7 ensures I64Of(g(CounterField(i, f))) == CounterValues(c)[f - 1] {
      assert Shown(g, s, CounterField(i, f));
    }
    assert Shown(g, s, CounterField(i, 0));
    CodeShown(g, CounterField(i, 0), BANDS, c.band, "");
  }

  lemma CountersShown(g: Words, s: PageSnapshot)
    requires Shows(g, s) && |s.counters| <= MAX_COUNTERS
    ensures DecodeCounters(g) == s.counters
  {
    var filled, item := CounterFilled(g), CounterItem(g);
    forall k | 0 <= k < MAX_COUNTERS ensures filled(k) == (k < |s.counters|) {
      if k < |s.counters| {
        CounterShown(g, s, k);
      } else {
        assert Shown(g, s, CounterField(k, 0));
      }
    }
    forall k | 0 <= k < |s.counters| ensures item(k) == s.counters[k] {
      CounterShown(g, s, k);
    }
    CollectPrefix(filled, item, 0, MAX_COUNTERS, s.counters);
    assert s.counters[0..] == s.counters;
  }

  lemma ActionCodesShown(g: Words, s: PageSnapshot)
    requires Shows(g, s)
    ensures Code(g, ActionField(1), SIGNALS, "") == s.admitReasonSignal && Known(g, ActionField(1), SIGNALS)
    ensures Code(g, ActionField(3), KILL_MODES, "") == s.killMode.mode && Known(g, ActionField(3), KILL_MODES)
    ensures Code(g, ActionField(6), KILL_REASONS, UNKNOWN) == FoldUnknown(s.killMode.reason)
    ensures Code(g, ActionField(8), SIGNALS, "") == s.recommendation.basis && Known(g, ActionField(8), SIGNALS)
  {
    AdmitReasonShown(g, s);
    BasisShown(g, s);
    KillModeShown(g, s);
  }

  lemma AdmitReasonShown(g: Words, s: PageSnapshot)
    requires Shows(g, s)
    ensures Code(g, ActionField(1), SIGNALS, "") == s.admitReasonSignal && Known(g, ActionField(1), SIGNALS)
  {
    assert Shown(g, s, ActionField(1));
    SignalRefShown(g, ActionField(1), s.admitReasonSignal);
  }

  lemma BasisShown(g: Words, s: PageSnapshot)
    requires Shows(g, s)
    ensures Code(g, ActionField(8), SIGNALS, "") == s.recommendation.basis && Known(g, ActionField(8), SIGNALS)
  {
    assert Shown(g, s, ActionField(8));
    SignalRefShown(g, ActionField(8), s.recommendation.basis);
  }

  lemma KillModeShown(g: Words, s: PageSnapshot)
    requires Shows(g, s)
    ensures Code(g, ActionField(3), KILL_MODES, "") == s.killMode.mode && Known(g, ActionField(3), KILL_MODES)
    ensures Code(g, ActionField(6), KILL_REASONS, UNKNOWN) == FoldUnknown(s.killMode.reason)
  {
    assert Shown(g, s, ActionField(3)) && Shown(g, s, ActionField(6));
    CodeShown(g, ActionField(3), KILL_MODES, s.killMode.mode, "");
    CodeShown(g, ActionField(6), KILL_REASONS, s.killMode.reason, UNKNOWN);
  }

  lemma ActionValuesShown(g: Words, s: PageSnapshot)
    requires Shows(g, s)
    ensures (g(ActionField(0)) == 1) == s.admit && (g(ActionField(4)) == 1) == s.killMode.armed
    ensures I32Of(I64Of(g(ActionField(5)))) == s.killMode.armingEpisodes
    ensures Opt(g, ActionField(7)) == s.recommendation.safeAdditionalBytes
  {
    assert Shown(g, s, ActionField(7));
    OptShown(g, ActionField(7), s.recommendation.safeAdditionalBytes);
    assert Shown(g, s, ActionField(0)) && Shown(g, s, ActionField(4)) && Shown(g, s, ActionField(5));
  }

  /** The deadline survives unless it is the one second the page reserves for "absent": that getter
  refuses the zero time but not the sentinel. */
  predicate DeadlineIsSentinel(s: PageSnapshot) {
    s.evictDeadline.Some? && s.evictDeadline.value.sec == PAGE_ABSENT
  }

  /** What a reader gets back. */
  function Recovered(s: PageSnapshot): PageSnapshot {
    if DeadlineIsSentinel(s) then Normalised(s).(evictDeadline := None) else Normalised(s)
  }

  lemma DeadlineShown(g: Words, s: PageSnapshot)
    requires Shows(g, s)
    ensures DecodeDeadline(g) == Recovered(s).evictDeadline
  {
    assert Shown(g, s, ActionField(2));
    if s.evictDeadline.Some? {
      SignedRoundTrip(s.evictDeadline.value.sec);
    }
  }

  lemma IdentityShown(g: Words, s: PageSnapshot)
    requires Shows(g, s)
    ensures I64Of(g(Generation)) == s.generation && I64Of(g(WriterPeriod)) == s.writerPeriodSeconds
    ensures I64Of(g(ObservedAt)) == s.observedAt.sec && g(NodeNameLen) == |s.nodeName|
  {
    assert Shown(g, s, Generation) && Shown(g, s, WriterPeriod) && Shown(g, s, ObservedAt) && Shown(g, s, NodeNameLen);
    SignedRoundTrip(s.generation);
    SignedRoundTrip(s.writerPeriodSeconds);
    SignedRoundTrip(s.observedAt.sec);
  }

  lemma IdentityCodesShown(g: Words, s: PageSnapshot)
    requires Shows(g, s)
    ensures Code(g, PlatformField, PLATFORMS, "") == s.platform && Known(g, PlatformField, PLATFORMS)
    ensures Code(g, LevelField, LEVELS, "") == s.level && Known(g, LevelField, LEVELS)
  {
    assert Shown(g, s, PlatformField) && Shown(g, s, LevelField);
    CodeShown(g, PlatformField, PLATFORMS, s.platform, "");
    CodeShown(g, LevelField, LEVELS, s.level, "");
  }

  lemma HeadShown(g: Words, s: PageSnapshot)
    requires Shows(g, s)
    ensures var d, n := DecodeBody(g, s.nodeName), Normalised(s);
            && d.generation == n.generation && d.writerPeriodSeconds == n.writerPeriodSeconds
            && d.nodeName == n.nodeName && d.observedAt == n.observedAt && d.platform == n.platform
            && d.capacity == n.capacity && d.level == n.level
  {
    IdentityShown(g, s);
    IdentityCodesShown(g, s);
    CapacityShown(g, s);
  }

  lemma LinuxBlockShown(g: Words, s: PageSnapshot)
    requires Shows(g, s)
    ensures DecodeLinuxBlock(g, s.platform) == NormalLinuxBlock(s.linux, s.platform)
  {
    LinuxShown(g, s);
  }

  lemma DarwinBlockShown(g: Words, s: PageSnapshot)
    requires Shows(g, s)
    ensures DecodeDarwinBlock(g, s.platform) == if s.darwin.None? then None else Some(NormalDarwin(s.darwin.value))
  {
    if s.darwin.Some? {
      DarwinShown(g, s);
    }
  }

  lemma BlocksShown(g: Words, s: PageSnapshot)
    requires Shows(g, s)
    ensures var d, n := DecodeBody(g, s.nodeName), Normalised(s);
            d.darwin == n.darwin && d.linux == n.linux
  {
    IdentityCodesShown(g, s);
    LinuxBlockShown(g, s);
    DarwinBlockShown(g, s);
  }

  lemma RecordsShown(g: Words, s: PageSnapshot)
    requires Shows(g, s)
    ensures var d, n := DecodeBody(g, s.nodeName), Normalised(s);
            && d.signals == n.signals && d.admit == n.admit && d.admitReasonSignal == n.admitReasonSignal
            && d.killMode == n.killMode && d.recommendation == n.recommendation && d.counters == n.counters
            && d.evictDeadline == DecodeDeadline(g)
  {
    SignalsShown(g, s);
    CountersShown(g, s);
    ActionCodesShown(g, s);
    ActionValuesShown(g, s);
  }

  lemma BodyShown(g: Words, s: PageSnapshot)
    requires Shows(g, s)
    ensures DecodeBody(g, s.nodeName) == Recovered(s)
  {
    HeadShown(g, s);
    BlocksShown(g, s);
    RecordsShown(g, s);
    DeadlineShown(g, s);
  }

  lemma CodesShown(g: Words, s: PageSnapshot)
    requires Shows(g, s)
    ensures CodesKnown(g)
  {
    IdentityCodesShown(g, s);
    ActionCodesShown(g, s);
    forall i | 0 <= i < MAX_SIGNALS && g(SignalField(i, 0)) != 0
      ensures Known(g, SignalField(i, 0), SIGNALS) && Known(g, SignalField(i, 1), UNITS) && Known(g, SignalField(i, 19), SIGNALS)
    {
      assert Shown(g, s, SignalField(i, 0));
      SlotCodesShown(g, s, i);
    }
    forall i | 0 <= i < MAX_COUNTERS && g(CounterField(i, 0)) != 0 ensures Known(g, CounterField(i, 0), BANDS) {
      assert Shown(g, s, CounterField(i, 0));
      CounterShown(g, s, i);
    }
  }
}
