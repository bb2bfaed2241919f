/** Every valid observation is publishable: no getter of the page refuses what the validator accepts. */
module Publishable {
  import opened Vocabulary
  import opened PageWords
  import opened Snapshot
  import opened PageLayout
  import opened PageFields
  import opened PageDecode
  import opened PageCodec
  import opened Observation
  import opened Readback

  lemma Carried(v: Option<I64>)
    requires NonNegative(v) || Permille(v)
    ensures I64Word(v).Some?
  {
  }

  lemma CapacityCarried(c: Capacity, i: nat)
    requires ValidCapacity(c)
    ensures i < 8 ==> I64Word(CapacityValues(c)[i]).Some?
    ensures i < 4 ==> AppendedWord(c, i).Some?
  {
    if i < 8 {
      assert NonNegative(CapacityValues(c)[i]);
    }
  }

  lemma DarwinCarried(d: Option<DarwinSignals>, i: nat)
    requires i < 7 && (d.Some? ==> ValidDarwin(d.value))
    ensures I64Word(DarwinValues(d)[i]).Some?
  {
    Carried(DarwinValues(d)[i]);
  }

  lemma PsiCarried(l: Option<LinuxSignals>, r: nat, ln: nat, v: nat)
    requires l.Some? ==> ValidLinux(l.value)
    ensures I64Word(PsiValue(l, r, ln, v)).Some?
  {
    assert ValidResource(PsiResourceOf(l, r));
    assert ValidLine(PsiLineOf(l, r, ln));
    Carried(PsiValue(l, r, ln, v));
  }

  lemma EventCarried(l: Option<LinuxSignals>, i: nat)
    requires i < 4 && (l.Some? ==> ValidLinux(l.value))
    ensures I64Word(MemoryEventValues(l)[i]).Some?
  {
    Carried(MemoryEventValues(l)[i]);
  }

  lemma SignalValueCarried(g: BudgetSignal, i: nat)
    requires ValidSignal(g) && i < 15
    ensures I64Word(SignalValues(g)[i]).Some?
  {
    if 1 <= i < 6 {
      assert NonNegative(g.Rungs()[i - 1]);
    } else if 6 <= i < 11 {
      assert NonNegative(g.Releases()[i - 6]);
    }
    Carried(SignalValues(g)[i]);
  }

  lemma SignalSlotCarried(g: BudgetSignal, f: nat)
    requires ValidSignal(g) && f < 20
    ensures SignalSlotWord(g, f).Some?
  {
    if 2 <= f < 17 {
      SignalValueCarried(g, f - 2);
    } else {
      SignalCodeCarried(g, f);
    }
  }

  lemma SignalCodeCarried(g: BudgetSignal, f: nat)
    requires ValidSignal(g) && (f < 2 || 17 <= f < 20)
    ensures SignalSlotWord(g, f).Some?
  {
    if f == 1 {
      SignalByName(g.id);
    }
  }

  lemma CounterSlotCarried(c: BandCounters, f: nat)
    requires ValidCounters(c) && f < 7
    ensures CounterSlotWord(c.totals, f).Some?
  {
  }

  lemma ActionCarried(s: PageSnapshot, i: nat)
    requires i < 9 && NonNegative(s.recommendation.safeAdditionalBytes) && ValidKillMode(s.killMode)
    requires s.recommendation.basis != "" ==> s.recommendation.basis in SIGNALS
    requires s.admitReasonSignal != "" ==> s.admitReasonSignal in SIGNALS
    requires s.evictDeadline.Some? ==> !s.evictDeadline.value.IsZero()
    ensures ActionWord(s, i).Some?
  {
    Carried(s.recommendation.safeAdditionalBytes);
  }

  lemma FieldCarried(name: seq<Byte>, period: I64, o: NodeBudgetObservation, id: FieldId)
    requires ValidObservation(o) && |name| <= MAX_NODE_NAME_BYTES && ValidId(id)
    ensures Carries(id, SnapshotOf(name, period, o))
  {
    var s := SnapshotOf(name, period, o);
    match id
    case CapacityField(i) => CapacityCarried(o.capacity, i);
    case AppendedField(i) => CapacityCarried(o.capacity, i);
    case DarwinField(i) => DarwinCarried(o.darwin, i);
    case PsiField(r, l, v) => PsiCarried(o.linux, r, l, v);
    case MemoryEventField(i) => EventCarried(o.linux, i);
    case SignalField(slot, f) => if slot < |s.signals| { SignalSlotCarried(s.signals[slot], f); }
    case CounterField(slot, f) => if slot < |s.counters| { CounterSlotCarried(o.counters[slot], f); }
    case ActionField(i) => ActionCarried(s, i);
    case _ =>
  }

  /** A valid observation of a node whose name fits, with a period of at least a second, always encodes. */
  lemma ValidIsEncodable(name: seq<Byte>, period: I64, o: NodeBudgetObservation)
    requires ValidObservation(o) && 1 <= |name| <= 253 && period >= 1
    ensures Encodable(SnapshotOf(name, period, o))
  {
    var s := SnapshotOf(name, period, o);
    forall id | ValidId(id) ensures Carries(id, s) {
      FieldCarried(name, period, o, id);
    }
  }

  /** The snapshot a reader holds, over the observation's own fields. */
  predicate HeadMirrors(d: PageSnapshot, name: seq<Byte>, period: I64, o: NodeBudgetObservation) {
    && d.generation == o.producerGeneration && d.nodeName == name && d.writerPeriodSeconds == period
    && TimeRead(d.observedAt, o.observedAt) && d.platform == o.platform && d.capacity == o.capacity && d.level == o.level
  }

  predicate ActionMirrors(d: PageSnapshot, o: NodeBudgetObservation) {
    && d.admit == o.admit && d.admitReasonSignal == o.admitReasonSignal && DeadlineRead(d.evictDeadline, o.evictDeadline)
    && KillModeRead(d.killMode, o.killMode) && d.recommendation == o.recommendation
    && |d.counters| == |o.counters| && forall i :: 0 <= i < |o.counters| ==> d.counters[i] == o.counters[i].totals
  }

  predicate Mirrors(d: PageSnapshot, name: seq<Byte>, period: I64, o: NodeBudgetObservation) {
    && HeadMirrors(d, name, period, o) && ActionMirrors(d, o) && SignalsRead(d.signals, o.signals)
    && DarwinRead(d.darwin, o.darwin) && LinuxRead(d.linux, o.linux, o.platform)
  }

  lemma ReadMirrors(d: PageSnapshot, name: seq<Byte>, period: I64, o: NodeBudgetObservation)
    requires SnapshotRead(d, SnapshotOf(name, period, o))
    ensures Mirrors(d, name, period, o)
  {
  }

  /** So a valid observation reaches a reader whole, but for a deadline at the sentinel second. */
  lemma ValidReachesReader(name: seq<Byte>, period: I64, o: NodeBudgetObservation)
    requires ValidObservation(o) && 1 <= |name| <= 253 && period >= 1
    ensures Encodable(SnapshotOf(name, period, o))
    ensures DecodePage(PageBytes(SnapshotOf(name, period, o))) == Ok(Recovered(SnapshotOf(name, period, o)))
    ensures var r := DecodePage(PageBytes(SnapshotOf(name, period, o)));
            r.Ok? && Mirrors(r.value, name, period, o)
  {
    ValidIsEncodable(name, period, o);
    PageRoundTrip(SnapshotOf(name, period, o));
    PageRead(SnapshotOf(name, period, o));
    ReadMirrors(DecodePage(PageBytes(SnapshotOf(name, period, o))).value, name, period, o);
  }

  /** The whole way from an observation to the bytes a reader maps. */
  method EncodeObservation(dst: array<Byte>, name: seq<Byte>, period: I64, o: NodeBudgetObservation)
    returns (e: Option<PageError>)
    modifies dst
    ensures dst.Length >= 4096 && ValidObservation(o) && 1 <= |name| <= 253 && period >= 1 ==>
            && e.None? && DecodePage(dst[..4096]).Ok? && Mirrors(DecodePage(dst[..4096]).value, name, period, o)
    ensures e.Some? ==> dst[..] == old(dst[..])
  {
    var s := NewPageSnapshot(name, period, o);
    e := EncodePage(dst, s);
    if dst.Length >= 4096 && ValidObservation(o) && 1 <= |name| <= 253 && period >= 1 {
      ValidReachesReader(name, period, o);
      assert dst[..4096] == PageBytes(s);
    }
  }
}
