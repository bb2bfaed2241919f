/** The bytes a reader in another language finds: every field at its literal offset, every code as its
literal number, as the frozen layout files of ABI major 1 list them. Nothing here goes through the
layout table, the code tables or the getters of the model. */
module PageAbi {
  import opened Vocabulary
  import opened PageWords
  import opened Snapshot
  import opened PageLayout
  import opened PageFields
  import opened PageDecode
  import opened PageCodec
  import opened PageWriting

  // ----- numbers in a page -----

  /** The u64 at a byte offset. */
  function U64At(b: seq<Byte>, off: nat): nat
    requires off + 8 <= |b|
  {
    FromLittleEndian(b[off..off + 8])
  }

  /** The i64 at a byte offset, in two's complement. */
  predicate I64At(b: seq<Byte>, off: nat, v: int)
    requires off + 8 <= |b|
  {
    U64At(b, off) == if v < 0 then v + 0x1_0000_0000_0000_0000 else v
  }

  /** The optional i64 at a byte offset: absent is the int64 minimum. */
  predicate OptAt(b: seq<Byte>, off: nat, v: Option<I64>)
    requires off + 8 <= |b|
  {
    if v.None? then U64At(b, off) == 0x8000_0000_0000_0000
    else I64At(b, off, v.value) && v.value != -0x8000_0000_0000_0000
  }

  /** Least significant byte first. */
  lemma U64Means(b: seq<Byte>, off: nat)
    requires off + 8 <= |b|
    ensures U64At(b, off) ==
            b[off] as int + 0x100 * b[off + 1] as int + 0x1_0000 * b[off + 2] as int + 0x100_0000 * b[off + 3] as int
            + 0x1_0000_0000 * b[off + 4] as int + 0x100_0000_0000 * b[off + 5] as int
            + 0x1_0000_0000_0000 * b[off + 6] as int + 0x100_0000_0000_0000 * b[off + 7] as int
  {
    var w, x, y, z := [b[off], b[off + 1]], [b[off + 2], b[off + 3]], [b[off + 4], b[off + 5]], [b[off + 6], b[off + 7]];
    assert b[off..off + 8] == w + (x + (y + z));
    FromLittleEndianConcat(w, x + (y + z));
    FromLittleEndianConcat(x, y + z);
    FromLittleEndianConcat(y, z);
    Pair(b[off], b[off + 1]);
    Pair(b[off + 2], b[off + 3]);
    Pair(b[off + 4], b[off + 5]);
    Pair(b[off + 6], b[off + 7]);
    Powers();
  }

  lemma BodyRowShape(id: FieldId)
    requires ValidId(id) && HasGetter(id) && !InHeader(id)
    ensures RowAt(Rank(id)).size == 8 && RowOffset(Rank(id)) + 8 <= BODY_END
  {
    RowInPage(Rank(id));
    if Rank(id) >= 13 {
      WordShape(Rank(id));
    }
  }

  /** The number at the offset of a body field is what its getter gives. */
  lemma NumberAt(s: PageSnapshot, id: FieldId, off: nat)
    requires Encodable(s) && ValidId(id) && HasGetter(id) && !InHeader(id) && off == RowOffset(Rank(id))
    ensures off + 8 <= PAGE_SIZE && Get(id, s).Some? && U64At(PageBytes(s), off) == Get(id, s).value
  {
    BodyRowShape(id);
    FieldRecovered(s, id);
  }

  lemma OptNumberAt(s: PageSnapshot, id: FieldId, off: nat, v: Option<I64>)
    requires Encodable(s) && ValidId(id) && HasGetter(id) && !InHeader(id) && off == RowOffset(Rank(id))
    requires Get(id, s) == I64Word(v)
    ensures off + 8 <= PAGE_SIZE && OptAt(PageBytes(s), off, v)
  {
    NumberAt(s, id, off);
  }

  // ----- the codes -----

  predicate SignalNo(n: nat, v: string) {
    && n <= 7 && (n == 0 <==> v == "")
    && (n == 1 <==> v == "memory.available") && (n == 2 <==> v == "memory.compressor")
    && (n == 3 <==> v == "memory.swap") && (n == 4 <==> v == "swapfs.available")
    && (n == 5 <==> v == "nodefs.available") && (n == 6 <==> v == "imagefs.available")
    && (n == 7 <==> v == "pid.available")
  }

  predicate UnitNo(n: nat, v: string) {
    1 <= n <= 3 && (n == 1 <==> v == "bytes") && (n == 2 <==> v == "permille") && (n == 3 <==> v == "count")
  }

  predicate LevelNo(n: nat, v: string) {
    && 1 <= n <= 4 && (n == 1 <==> v == "ok") && (n == 2 <==> v == "warn") && (n == 3 <==> v == "critical")
    && (n == 4 <==> v == "evicting")
  }

  predicate BandNo(n: nat, v: string) {
    1 <= n <= 3 && (n == 1 <==> v == "critical") && (n == 2 <==> v == "standard") && (n == 3 <==> v == "batch")
  }

  predicate PlatformNo(n: nat, v: string) {
    1 <= n <= 2 && (n == 1 <==> v == "darwin") && (n == 2 <==> v == "linux")
  }

  predicate KillModeNo(n: nat, v: string) {
    n <= 3 && (n == 0 <==> v == "") && (n == 1 <==> v == "auto") && (n == 2 <==> v == "on") && (n == 3 <==> v == "off")
  }

  predicate TrendNo(n: nat, v: string) {
    && n <= 3 && (n == 0 <==> v == "" || v == "unknown")
    && (n == 1 <==> v == "falling") && (n == 2 <==> v == "steady") && (n == 3 <==> v == "rising")
  }

  predicate ResourceNo(n: nat, v: string) {
    && n <= 6 && (n == 0 <==> v == "" || v == "unknown")
    && (n == 1 <==> v == "memory") && (n == 2 <==> v == "swapfs") && (n == 3 <==> v == "nodefs")
    && (n == 4 <==> v == "imagefs") && (n == 5 <==> v == "pid") && (n == 6 <==> v == "cpu")
  }

  predicate KillReasonNo(n: nat, v: string) {
    && n <= 5 && (n == 0 <==> v == "" || v == "unknown")
    && (n == 1 <==> v == "cold-start") && (n == 2 <==> v == "observing") && (n == 3 <==> v == "armed")
    && (n == 4 <==> v == "policy-off") && (n == 5 <==> v == "disarm-file")
  }

  /** A code past 0 is the position of its value. */
  lemma CodeIsPosition(table: seq<string>, v: string, unknown: string)
    requires PageCode(table, v, unknown).Some?
    ensures var c := PageCode(table, v, unknown).value;
            && c <= |table| && (c == 0 <==> v == "" || (unknown != "" && v == unknown))
            && (c > 0 ==> table[c - 1] == v)
  {
  }

  lemma SignalNumbers(v: string)
    requires v == "" || SignalCode(v) != 0
    ensures SignalNo(SignalCode(v), v)
  {
    assert SignalCode(v) > 0 ==> SIGNALS[SignalCode(v) - 1] == v;
  }

  lemma UnitNumbers(v: string)
    requires v in UNITS && PageCode(UNITS, v, "").Some?
    ensures UnitNo(PageCode(UNITS, v, "").value, v)
  {
    CodeIsPosition(UNITS, v, "");
  }

  lemma LevelNumbers(v: string)
    requires v in LEVELS && PageCode(LEVELS, v, "").Some?
    ensures LevelNo(PageCode(LEVELS, v, "").value, v)
  {
    CodeIsPosition(LEVELS, v, "");
  }

  lemma BandNumbers(v: string)
    requires v in BANDS && PageCode(BANDS, v, "").Some?
    ensures BandNo(PageCode(BANDS, v, "").value, v)
  {
    CodeIsPosition(BANDS, v, "");
  }

  lemma PlatformNumbers(v: string)
    requires v in PLATFORMS && PageCode(PLATFORMS, v, "").Some?
    ensures PlatformNo(PageCode(PLATFORMS, v, "").value, v)
  {
    CodeIsPosition(PLATFORMS, v, "");
  }

  lemma KillModeNumbers(v: string)
    requires PageCode(KILL_MODES, v, "").Some?
    ensures KillModeNo(PageCode(KILL_MODES, v, "").value, v)
  {
    CodeIsPosition(KILL_MODES, v, "");
  }

  lemma TrendNumbers(v: string)
    requires PageCode(TRENDS, v, UNKNOWN).Some?
    ensures TrendNo(PageCode(TRENDS, v, UNKNOWN).value, v)
  {
    CodeIsPosition(TRENDS, v, UNKNOWN);
  }

  lemma ResourceNumbers(v: string)
    requires PageCode(RESOURCES, v, UNKNOWN).Some?
    ensures ResourceNo(PageCode(RESOURCES, v, UNKNOWN).value, v)
  {
    CodeIsPosition(RESOURCES, v, UNKNOWN);
  }

  lemma KillReasonNumbers(v: string)
    requires PageCode(KILL_REASONS, v, UNKNOWN).Some?
    ensures KillReasonNo(PageCode(KILL_REASONS, v, UNKNOWN).value, v)
  {
    CodeIsPosition(KILL_REASONS, v, UNKNOWN);
  }

  // ----- the values -----

  /** A run of optional numbers, eight bytes each. */
  predicate OptsAt(b: seq<Byte>, off: nat, vs: seq<Option<I64>>)
    requires off + 8 * |vs| <= |b|
  {
    forall i :: 0 <= i < |vs| ==> OptAt(b, off + 8 * i, vs[i])
  }

  predicate CapacityAbi(b: seq<Byte>, c: Capacity)
    requires |b| >= 2344
  {
    && OptAt(b, 488, c.cpuCapacityMilli) && OptAt(b, 496, c.cpuSystemReserveMilli)
    && OptAt(b, 504, c.memCapacityBytes) && OptAt(b, 512, c.memSystemReserveBytes)
    && OptAt(b, 520, c.memEvictionReserveBytes) && OptAt(b, 528, c.memAllocatableBytes)
    && OptAt(b, 536, c.swapTotalBytes) && OptAt(b, 544, c.swapUsedBytes)
  }

  lemma CapacityListed(b: seq<Byte>, c: Capacity)
    requires |b| >= 2344 && OptsAt(b, 488, CapacityValues(c))
    ensures CapacityAbi(b, c)
  {
    var vs := CapacityValues(c);
    assert OptAt(b, 488 + 8 * 0, vs[0]) && OptAt(b, 488 + 8 * 1, vs[1]) && OptAt(b, 488 + 8 * 2, vs[2]);
    assert OptAt(b, 488 + 8 * 3, vs[3]) && OptAt(b, 488 + 8 * 4, vs[4]) && OptAt(b, 488 + 8 * 5, vs[5]);
    assert OptAt(b, 488 + 8 * 6, vs[6]) && OptAt(b, 488 + 8 * 7, vs[7]);
  }

  lemma CapacityBytes(s: PageSnapshot)
    requires Encodable(s)
    ensures CapacityAbi(PageBytes(s), s.capacity)
  {
    forall i | 0 <= i < 8 ensures OptAt(PageBytes(s), 488 + 8 * i, CapacityValues(s.capacity)[i]) {
      OptNumberAt(s, CapacityField(i), 488 + 8 * i, CapacityValues(s.capacity)[i]);
    }
    CapacityListed(PageBytes(s), s.capacity);
  }

  predicate IdentityAbi(b: seq<Byte>, s: PageSnapshot)
    requires |b| >= 2344
  {
    && I64At(b, 192, s.generation) && I64At(b, 200, s.writerPeriodSeconds) && I64At(b, 208, s.observedAt.sec)
    && PlatformNo(U64At(b, 216), s.platform)
    && U64At(b, 224) == |s.nodeName| <= 253 && s.nodeName <= b[232..488]
    && LevelNo(U64At(b, 552), s.level)
  }

  lemma IdentityNumbers(s: PageSnapshot)
    requires Encodable(s)
    ensures var b := PageBytes(s);
            && I64At(b, 192, s.generation) && I64At(b, 200, s.writerPeriodSeconds) && I64At(b, 208, s.observedAt.sec)
            && U64At(b, 224) == |s.nodeName|
  {
    NumberAt(s, Generation, 192);
    NumberAt(s, WriterPeriod, 200);
    NumberAt(s, ObservedAt, 208);
    NumberAt(s, NodeNameLen, 224);
  }

  lemma IdentityCodes(s: PageSnapshot)
    requires Encodable(s)
    ensures PlatformNo(U64At(PageBytes(s), 216), s.platform) && LevelNo(U64At(PageBytes(s), 552), s.level)
  {
    NumberAt(s, PlatformField, 216);
    PlatformNumbers(s.platform);
    NumberAt(s, LevelField, 552);
    LevelNumbers(s.level);
  }

  lemma IdentityBytes(s: PageSnapshot)
    requires Encodable(s)
    ensures IdentityAbi(PageBytes(s), s)
  {
    IdentityNumbers(s);
    IdentityCodes(s);
    NameRecovered(PageBytes(s), s);
  }

  /** The cores and the GPU, appended by minor 1. */
  predicate AppendedAbi(b: seq<Byte>, c: Capacity)
    requires |b| >= 2344
  {
    && OptAt(b, 2312, c.cpuPerformanceCores) && OptAt(b, 2320, c.cpuEfficiencyCores)
    && U64At(b, 2328) == (if c.gpuPresent.None? then 0x8000_0000_0000_0000 else if c.gpuPresent.value then 1 else 0)
    && OptAt(b, 2336, c.gpuCount)
  }

  lemma AppendedNumber(s: PageSnapshot, i: nat)
    requires Encodable(s) && i < 4
    ensures AppendedWord(s.capacity, i).Some? && U64At(PageBytes(s), 2312 + 8 * i) == AppendedWord(s.capacity, i).value
  {
    NumberAt(s, AppendedField(i), 2312 + 8 * i);
  }

  lemma AppendedBytes(s: PageSnapshot)
    requires Encodable(s)
    ensures AppendedAbi(PageBytes(s), s.capacity)
  {
    AppendedNumber(s, 0);
    AppendedNumber(s, 1);
    AppendedNumber(s, 2);
    AppendedNumber(s, 3);
  }

  // ----- the platform blocks -----

  predicate DarwinAbi(b: seq<Byte>, d: Option<DarwinSignals>)
    requires |b| >= 2344
  {
    && OptAt(b, 560, if d.None? then None else d.value.vmPressureLevel)
    && OptAt(b, 568, if d.None? then None else d.value.memorystatusLevelPermille)
    && OptAt(b, 576, if d.None? || d.value.compressor.None? then None else d.value.compressor.value.bytesUsed)
    && OptAt(b, 584, if d.None? || d.value.compressor.None? then None else d.value.compressor.value.bytesStored)
    && OptAt(b, 592, if d.None? || d.value.compressor.None? then None else d.value.compressor.value.segmentLimitBytes)
    && OptAt(b, 600, if d.None? then None else d.value.swapinsTotal)
    && OptAt(b, 608, if d.None? then None else d.value.swapoutsTotal)
  }

  lemma DarwinListed(b: seq<Byte>, d: Option<DarwinSignals>)
    requires |b| >= 2344 && OptsAt(b, 560, DarwinValues(d))
    ensures DarwinAbi(b, d)
  {
    var vs := DarwinValues(d);
    assert OptAt(b, 560 + 8 * 0, vs[0]) && OptAt(b, 560 + 8 * 1, vs[1]) && OptAt(b, 560 + 8 * 2, vs[2]);
    assert OptAt(b, 560 + 8 * 3, vs[3]) && OptAt(b, 560 + 8 * 4, vs[4]) && OptAt(b, 560 + 8 * 5, vs[5]);
    assert OptAt(b, 560 + 8 * 6, vs[6]);
  }

  lemma DarwinNumber(s: PageSnapshot, i: nat)
    requires Encodable(s) && i < 7
    ensures OptAt(PageBytes(s), 560 + 8 * i, DarwinValues(s.darwin)[i])
  {
    OptNumberAt(s, DarwinField(i), 560 + 8 * i, DarwinValues(s.darwin)[i]);
  }

  lemma DarwinBytes(s: PageSnapshot)
    requires Encodable(s)
    ensures DarwinAbi(PageBytes(s), s.darwin)
  {
    forall i | 0 <= i < 7 ensures OptAt(PageBytes(s), 560 + 8 * i, DarwinValues(s.darwin)[i]) {
      DarwinNumber(s, i);
    }
    DarwinListed(PageBytes(s), s.darwin);
  }

  /** Three numbers of a pressure line. */
  predicate LineAbi(b: seq<Byte>, off: nat, l: Option<PsiLine>)
    requires off + 24 <= |b|
  {
    && OptAt(b, off, if l.None? then None else l.value.avg10Permille)
    && OptAt(b, off + 8, if l.None? then None else l.value.avg60Permille)
    && OptAt(b, off + 16, if l.None? then None else l.value.totalUs)
  }

  predicate ResourceAbi(b: seq<Byte>, off: nat, r: Option<PsiResource>)
    requires off + 48 <= |b|
  {
    && LineAbi(b, off, if r.None? then None else r.value.some)
    && LineAbi(b, off + 24, if r.None? then None else r.value.full)
  }

  predicate LinuxAbi(b: seq<Byte>, l: Option<LinuxSignals>)
    requires |b| >= 2344
  {
    && ResourceAbi(b, 616, if l.None? || l.value.psi.None? then None else l.value.psi.value.cpu)
    && ResourceAbi(b, 664, if l.None? || l.value.psi.None? then None else l.value.psi.value.memory)
    && ResourceAbi(b, 712, if l.None? || l.value.psi.None? then None else l.value.psi.value.io)
    && OptAt(b, 760, if l.None? || l.value.memoryEvents.None? then None else l.value.memoryEvents.value.high)
    && OptAt(b, 768, if l.None? || l.value.memoryEvents.None? then None else l.value.memoryEvents.value.max)
    && OptAt(b, 776, if l.None? || l.value.memoryEvents.None? then None else l.value.memoryEvents.value.oom)
    && OptAt(b, 784, if l.None? || l.value.memoryEvents.None? then None else l.value.memoryEvents.value.oomKill)
  }

  lemma PsiOffset(r: nat, ln: nat, v: nat)
    requires r < 3 && ln < 2 && v < 3
    ensures ValidId(PsiField(r, ln, v)) && RowOffset(Rank(PsiField(r, ln, v))) == 616 + 48 * r + 24 * ln + 8 * v
  {
  }

  lemma PsiNumber(s: PageSnapshot, r: nat, ln: nat, v: nat)
    requires Encodable(s) && r < 3 && ln < 2 && v < 3
    ensures OptAt(PageBytes(s), 616 + 48 * r + 24 * ln + 8 * v, PsiValue(s.linux, r, ln, v))
  {
    PsiOffset(r, ln, v);
    OptNumberAt(s, PsiField(r, ln, v), 616 + 48 * r + 24 * ln + 8 * v, PsiValue(s.linux, r, ln, v));
  }

  lemma PsiLineBytes(s: PageSnapshot, r: nat, ln: nat)
    requires Encodable(s) && r < 3 && ln < 2
    ensures LineAbi(PageBytes(s), 616 + 48 * r + 24 * ln, PsiLineOf(s.linux, r, ln))
  {
    PsiNumber(s, r, ln, 0);
    PsiNumber(s, r, ln, 1);
    PsiNumber(s, r, ln, 2);
  }

  lemma PsiResourceBytes(s: PageSnapshot, r: nat)
    requires Encodable(s) && r < 3
    ensures ResourceAbi(PageBytes(s), 616 + 48 * r, PsiResourceOf(s.linux, r))
  {
    PsiLineBytes(s, r, 0);
    PsiLineBytes(s, r, 1);
  }

  lemma EventsListed(b: seq<Byte>, l: Option<LinuxSignals>)
    requires |b| >= 2344 && OptsAt(b, 760, MemoryEventValues(l))
    ensures OptAt(b, 760, if l.None? || l.value.memoryEvents.None? then None else l.value.memoryEvents.value.high)
    ensures OptAt(b, 768, if l.None? || l.value.memoryEvents.None? then None else l.value.memoryEvents.value.max)
    ensures OptAt(b, 776, if l.None? || l.value.memoryEvents.None? then None else l.value.memoryEvents.value.oom)
    ensures OptAt(b, 784, if l.None? || l.value.memoryEvents.None? then None else l.value.memoryEvents.value.oomKill)
  {
    var vs := MemoryEventValues(l);
    assert OptAt(b, 760 + 8 * 0, vs[0]) && OptAt(b, 760 + 8 * 1, vs[1]);
    assert OptAt(b, 760 + 8 * 2, vs[2]) && OptAt(b, 760 + 8 * 3, vs[3]);
  }

  lemma EventsBytes(s: PageSnapshot)
    requires Encodable(s)
    ensures OptsAt(PageBytes(s), 760, MemoryEventValues(s.linux))
  {
    forall i | 0 <= i < 4 ensures OptAt(PageBytes(s), 760 + 8 * i, MemoryEventValues(s.linux)[i]) {
      OptNumberAt(s, MemoryEventField(i), 760 + 8 * i, MemoryEventValues(s.linux)[i]);
    }
  }

  lemma LinuxListed(b: seq<Byte>, l: Option<LinuxSignals>)
    requires |b| >= 2344 && OptsAt(b, 760, MemoryEventValues(l))
    requires ResourceAbi(b, 616, PsiResourceOf(l, 0)) && ResourceAbi(b, 664, PsiResourceOf(l, 1))
    requires ResourceAbi(b, 712, PsiResourceOf(l, 2))
    ensures LinuxAbi(b, l)
  {
    EventsListed(b, l);
  }

  lemma LinuxBytes(s: PageSnapshot)
    requires Encodable(s)
    ensures LinuxAbi(PageBytes(s), s.linux)
  {
    PsiResourceBytes(s, 0);
    PsiResourceBytes(s, 1);
    PsiResourceBytes(s, 2);
    EventsBytes(s);
    LinuxListed(PageBytes(s), s.linux);
  }

  // ----- signals, action, counters -----

  predicate SignalAbi(b: seq<Byte>, off: nat, g: BudgetSignal)
    requires off + 160 <= |b|
  {
    && SignalNo(U64At(b, off), g.id) && UnitNo(U64At(b, off + 8), g.unit) && OptAt(b, off + 16, g.value)
    && OptAt(b, off + 24, g.warnThreshold) && OptAt(b, off + 32, g.admitStopThreshold)
    && OptAt(b, off + 40, g.criticalThreshold) && OptAt(b, off + 48, g.evictSoftThreshold)
    && OptAt(b, off + 56, g.evictHardThreshold)
    && OptAt(b, off + 64, g.warnRelease) && OptAt(b, off + 72, g.admitStopRelease)
    && OptAt(b, off + 80, g.criticalRelease) && OptAt(b, off + 88, g.evictSoftRelease)
    && OptAt(b, off + 96, g.evictHardRelease)
    && OptAt(b, off + 104, g.graceSeconds) && OptAt(b, off + 112, g.minReclaimBytes)
    && OptAt(b, off + 120, g.windowSeconds) && OptAt(b, off + 128, g.etaToNextRungSeconds)
    && TrendNo(U64At(b, off + 136), g.trend) && ResourceNo(U64At(b, off + 144), g.limitingResource)
    && SignalNo(U64At(b, off + 152), g.sharedWith)
  }

  /** n words of zero. */
  predicate ZeroAt(b: seq<Byte>, off: nat, n: nat)
    requires off + 8 * n <= |b|
  {
    forall f :: 0 <= f < n ==> U64At(b, off + 8 * f) == 0
  }

  predicate SignalsAbi(b: seq<Byte>, gs: seq<BudgetSignal>)
    requires |b| >= 2344
  {
    && |gs| <= 8
    && (forall i :: 0 <= i < |gs| ==> SignalAbi(b, 792 + 160 * i, gs[i]))
    && (forall i :: |gs| <= i < 8 ==> ZeroAt(b, 792 + 160 * i, 20))
  }

  lemma SignalListed(b: seq<Byte>, off: nat, g: BudgetSignal)
    requires off + 160 <= |b| && OptsAt(b, off + 16, SignalValues(g))
    requires SignalNo(U64At(b, off), g.id) && UnitNo(U64At(b, off + 8), g.unit)
    requires TrendNo(U64At(b, off + 136), g.trend) && ResourceNo(U64At(b, off + 144), g.limitingResource)
    requires SignalNo(U64At(b, off + 152), g.sharedWith)
    ensures SignalAbi(b, off, g)
  {
    var vs, o := SignalValues(g), off + 16;
    assert OptAt(b, o + 8 * 0, vs[0]) && OptAt(b, o + 8 * 1, vs[1]) && OptAt(b, o + 8 * 2, vs[2]);
    assert OptAt(b, o + 8 * 3, vs[3]) && OptAt(b, o + 8 * 4, vs[4]) && OptAt(b, o + 8 * 5, vs[5]);
    assert OptAt(b, o + 8 * 6, vs[6]) && OptAt(b, o + 8 * 7, vs[7]) && OptAt(b, o + 8 * 8, vs[8]);
    assert OptAt(b, o + 8 * 9, vs[9]) && OptAt(b, o + 8 * 10, vs[10]) && OptAt(b, o + 8 * 11, vs[11]);
    assert OptAt(b, o + 8 * 12, vs[12]) && OptAt(b, o + 8 * 13, vs[13]) && OptAt(b, o + 8 * 14, vs[14]);
  }

  lemma SlotNumber(s: PageSnapshot, i: nat, f: nat)
    requires Encodable(s) && i < |s.signals| <= 8 && f < 20
    ensures SignalSlotWord(s.signals[i], f).Some?
    ensures U64At(PageBytes(s), 792 + 160 * i + 8 * f) == SignalSlotWord(s.signals[i], f).value
  {
    NumberAt(s, SignalField(i, f), 792 + 160 * i + 8 * f);
  }

  lemma SlotIdBytes(s: PageSnapshot, i: nat)
    requires Encodable(s) && i < |s.signals| <= 8
    ensures SignalNo(U64At(PageBytes(s), 792 + 160 * i + 0), s.signals[i].id)
  {
    SlotNumber(s, i, 0);
    SignalNumbers(s.signals[i].id);
  }

  lemma SlotUnitBytes(s: PageSnapshot, i: nat)
    requires Encodable(s) && i < |s.signals| <= 8
    ensures UnitNo(U64At(PageBytes(s), 792 + 160 * i + 8), s.signals[i].unit)
  {
    SlotNumber(s, i, 1);
    UnitNumbers(s.signals[i].unit);
  }

  lemma SlotTrendBytes(s: PageSnapshot, i: nat)
    requires Encodable(s) && i < |s.signals| <= 8
    ensures TrendNo(U64At(PageBytes(s), 792 + 160 * i + 136), s.signals[i].trend)
  {
    SlotNumber(s, i, 17);
    TrendNumbers(s.signals[i].trend);
  }

  lemma SlotLimitBytes(s: PageSnapshot, i: nat)
    requires Encodable(s) && i < |s.signals| <= 8
    ensures ResourceNo(U64At(PageBytes(s), 792 + 160 * i + 144), s.signals[i].limitingResource)
  {
    SlotNumber(s, i, 18);
    ResourceNumbers(s.signals[i].limitingResource);
  }

  lemma SlotSharedBytes(s: PageSnapshot, i: nat)
    requires Encodable(s) && i < |s.signals| <= 8
    ensures SignalNo(U64At(PageBytes(s), 792 + 160 * i + 152), s.signals[i].sharedWith)
  {
    SlotNumber(s, i, 19);
    SignalNumbers(s.signals[i].sharedWith);
  }

  lemma SlotValueBytes(s: PageSnapshot, i: nat, f: nat)
    requires Encodable(s) && i < |s.signals| <= 8 && f < 15
    ensures OptAt(PageBytes(s), 792 + 160 * i + 16 + 8 * f, SignalValues(s.signals[i])[f])
  {
    SlotNumber(s, i, f + 2);
  }

  lemma SlotBytes(s: PageSnapshot, i: nat)
    requires Encodable(s) && i < |s.signals| <= 8
    ensures SignalAbi(PageBytes(s), 792 + 160 * i, s.signals[i])
  {
    forall f | 0 <= f < 15
      ensures OptAt(PageBytes(s), 792 + 160 * i + 16 + 8 * f, SignalValues(s.signals[i])[f])
    {
      SlotValueBytes(s, i, f);
    }
    SlotIdBytes(s, i);
    SlotUnitBytes(s, i);
    SlotTrendBytes(s, i);
    SlotLimitBytes(s, i);
    SlotSharedBytes(s, i);
    SignalListed(PageBytes(s), 792 + 160 * i, s.signals[i]);
  }

  lemma EmptySlotBytes(s: PageSnapshot, i: nat)
    requires Encodable(s) && |s.signals| <= i < 8
    ensures ZeroAt(PageBytes(s), 792 + 160 * i, 20)
  {
    forall f | 0 <= f < 20 ensures U64At(PageBytes(s), 792 + 160 * i + 8 * f) == 0 {
      NumberAt(s, SignalField(i, f), 792 + 160 * i + 8 * f);
    }
  }

  lemma SignalsBytes(s: PageSnapshot)
    requires Encodable(s)
    ensures SignalsAbi(PageBytes(s), s.signals)
  {
    forall i | 0 <= i < |s.signals| ensures SignalAbi(PageBytes(s), 792 + 160 * i, s.signals[i]) {
      SlotBytes(s, i);
    }
    forall i | |s.signals| <= i < 8 ensures ZeroAt(PageBytes(s), 792 + 160 * i, 20) {
      EmptySlotBytes(s, i);
    }
  }

  predicate ActionAbi(b: seq<Byte>, s: PageSnapshot)
    requires |b| >= 2344
  {
    && U64At(b, 2072) == (if s.admit then 1 else 0) && SignalNo(U64At(b, 2080), s.admitReasonSignal)
    && (if s.evictDeadline.None? then U64At(b, 2088) == 0x8000_0000_0000_0000 else I64At(b, 2088, s.evictDeadline.value.sec))
    && KillModeNo(U64At(b, 2096), s.killMode.mode) && U64At(b, 2104) == (if s.killMode.armed then 1 else 0)
    && I64At(b, 2112, s.killMode.armingEpisodes) && KillReasonNo(U64At(b, 2120), s.killMode.reason)
    && OptAt(b, 2128, s.recommendation.safeAdditionalBytes) && SignalNo(U64At(b, 2136), s.recommendation.basis)
  }

  lemma ActionNumber(s: PageSnapshot, i: nat)
    requires Encodable(s) && i < 9
    ensures ActionWord(s, i).Some? && U64At(PageBytes(s), 2072 + 8 * i) == ActionWord(s, i).value
  {
    NumberAt(s, ActionField(i), 2072 + 8 * i);
  }

  lemma ActionNumbers(s: PageSnapshot)
    requires Encodable(s)
    ensures var b := PageBytes(s);
            && U64At(b, 2072) == (if s.admit then 1 else 0) && U64At(b, 2104) == (if s.killMode.armed then 1 else 0)
            && (if s.evictDeadline.None? then U64At(b, 2088) == 0x8000_0000_0000_0000
                else I64At(b, 2088, s.evictDeadline.value.sec))
            && I64At(b, 2112, s.killMode.armingEpisodes) && OptAt(b, 2128, s.recommendation.safeAdditionalBytes)
  {
    ActionNumber(s, 0);
    ActionNumber(s, 2);
    ActionNumber(s, 4);
    ActionNumber(s, 5);
    ActionNumber(s, 7);
  }

  lemma ActionSignalCodes(s: PageSnapshot)
    requires Encodable(s)
    ensures SignalNo(U64At(PageBytes(s), 2080), s.admitReasonSignal)
    ensures SignalNo(U64At(PageBytes(s), 2136), s.recommendation.basis)
  {
    ActionNumber(s, 1);
    SignalNumbers(s.admitReasonSignal);
    ActionNumber(s, 8);
    SignalNumbers(s.recommendation.basis);
  }

  lemma KillModeCodes(s: PageSnapshot)
    requires Encodable(s)
    ensures KillModeNo(U64At(PageBytes(s), 2096), s.killMode.mode)
    ensures KillReasonNo(U64At(PageBytes(s), 2120), s.killMode.reason)
  {
    ActionNumber(s, 3);
    KillModeNumbers(s.killMode.mode);
    ActionNumber(s, 6);
    KillReasonNumbers(s.killMode.reason);
  }

  lemma ActionBytes(s: PageSnapshot)
    requires Encodable(s)
    ensures ActionAbi(PageBytes(s), s)
  {
    ActionNumbers(s);
    ActionSignalCodes(s);
    KillModeCodes(s);
  }

  predicate CounterAbi(b: seq<Byte>, off: nat, c: PageBandCounters)
    requires off + 56 <= |b|
  {
    && BandNo(U64At(b, off), c.band) && U64At(b, off + 8) == c.evictionsTotal && U64At(b, off + 16) == c.oomKillsTotal
    && U64At(b, off + 24) == c.kernelKillsTotal && U64At(b, off + 32) == c.restartsTotal
    && U64At(b, off + 40) == c.memHighEventsTotal && U64At(b, off + 48) == c.tier1RefusedTotal
  }

  predicate CountersAbi(b: seq<Byte>, cs: seq<PageBandCounters>)
    requires |b| >= 2344
  {
    && |cs| <= 3
    && (forall i :: 0 <= i < |cs| ==> CounterAbi(b, 2144 + 56 * i, cs[i]))
    && (forall i :: |cs| <= i < 3 ==> ZeroAt(b, 2144 + 56 * i, 7))
  }

  lemma CounterListed(b: seq<Byte>, off: nat, c: PageBandCounters)
    requires off + 56 <= |b| && BandNo(U64At(b, off), c.band)
    requires forall f :: 0 <= f < 6 ==> U64At(b, off + 8 + 8 * f) == CounterValues(c)[f]
    ensures CounterAbi(b, off, c)
  {
    var vs, o := CounterValues(c), off + 8;
    assert U64At(b, o + 8 * 0) == vs[0] && U64At(b, o + 8 * 1) == vs[1] && U64At(b, o + 8 * 2) == vs[2];
    assert U64At(b, o + 8 * 3) == vs[3] && U64At(b, o + 8 * 4) == vs[4] && U64At(b, o + 8 * 5) == vs[5];
  }

  lemma CounterOffset(i: nat, f: nat)
    requires i < 3 && f < 7
    ensures ValidId(CounterField(i, f)) && RowOffset(Rank(CounterField(i, f))) == 2144 + 56 * i + 8 * f
  {
  }

  lemma CounterGot(s: PageSnapshot, i: nat, f: nat)
    requires i < |s.counters| <= 3 && f < 7
    ensures ValidId(CounterField(i, f)) && Get(CounterField(i, f), s) == CounterSlotWord(s.counters[i], f)
  {
  }

  lemma CounterNumber(s: PageSnapshot, i: nat, f: nat)
    requires Encodable(s) && i < |s.counters| <= 3 && f < 7
    ensures CounterSlotWord(s.counters[i], f).Some?
    ensures U64At(PageBytes(s), 2144 + 56 * i + 8 * f) == CounterSlotWord(s.counters[i], f).value
  {
    CounterOffset(i, f);
    CounterGot(s, i, f);
    NumberAt(s, CounterField(i, f), 2144 + 56 * i + 8 * f);
  }

  lemma CounterBand(s: PageSnapshot, i: nat)
    requires Encodable(s) && i < |s.counters| <= 3
    ensures BandNo(U64At(PageBytes(s), 2144 + 56 * i), s.counters[i].band)
  {
    CounterNumber(s, i, 0);
    BandNumbers(s.counters[i].band);
  }

  lemma CounterBytes(s: PageSnapshot, i: nat)
    requires Encodable(s) && i < |s.counters| <= 3
    ensures CounterAbi(PageBytes(s), 2144 + 56 * i, s.counters[i])
  {
    var c, off := s.counters[i], 2144 + 56 * i;
    CounterBand(s, i);
    forall f | 0 <= f < 6 ensures U64At(PageBytes(s), off + 8 + 8 * f) == CounterValues(c)[f] {
      CounterNumber(s, i, f + 1);
    }
    CounterListed(PageBytes(s), off, c);
  }

  lemma CountersBytes(s: PageSnapshot)
    requires Encodable(s)
    ensures CountersAbi(PageBytes(s), s.counters)
  {
    forall i | 0 <= i < |s.counters| ensures CounterAbi(PageBytes(s), 2144 + 56 * i, s.counters[i]) {
      CounterBytes(s, i);
    }
    forall i | |s.counters| <= i < 3 ensures ZeroAt(PageBytes(s), 2144 + 56 * i, 7) {
      forall f | 0 <= f < 7 ensures U64At(PageBytes(s), 2144 + 56 * i + 8 * f) == 0 {
        NumberAt(s, CounterField(i, f), 2144 + 56 * i + 8 * f);
      }
    }
  }

  // ----- the header -----

  /** A writer takes a page as this ABI by its words exactly when the bytes say so. */
  lemma RecognisedBytes(page: Page, b: seq<Byte>)
    requires |b| == 4096 && page[0] == U64At(b, 0) && page[1] == U64At(b, 8)
    ensures Recognised(page) <==>
            && b[0..8] == [0x4B, 0x33, 0x53, 0x4D, 0x42, 0x44, 0x47, 0x54]
            && FromLittleEndian(b[8..10]) == 1 && FromLittleEndian(b[12..16]) == 192
  {
    MagicBytes(b[0..8]);
    VersionWord(page[1], b);
  }

  /** The page images a reader takes: this ABI, a body at least this minor's and within the image, and no
  write in hand. */
  lemma AcceptedHeader(b: seq<Byte>)
    ensures CheckHeader(b).None? <==>
            && |b| >= 2344 && b[0..8] == [0x4B, 0x33, 0x53, 0x4D, 0x42, 0x44, 0x47, 0x54]
            && FromLittleEndian(b[8..10]) == 1 && FromLittleEndian(b[12..16]) == 192
            && 2152 <= FromLittleEndian(b[16..20]) <= |b| - 192 && U64At(b, 64) % 2 == 0
  {
  }

  lemma FieldWordAt(b: seq<Byte>, id: FieldId, off: nat)
    requires |b| >= 2344 && ValidId(id) && HasGetter(id) && !InHeader(id) && off == RowOffset(Rank(id))
    ensures off + 8 <= 2344 && FieldWord(b, id) == U64At(b, off)
  {
    BodyRowShape(id);
    FromLittleEndianBound(b[off..off + 8]);
    Powers();
  }

  lemma FieldsChecked(g: Words, n: Word, gpu: Word)
    requires CheckFields(g).None? && n == g(NodeNameLen) && gpu == g(AppendedField(2))
    ensures n <= 253 && (gpu <= 1 || gpu == 0x8000_0000_0000_0000)
  {
  }

  /** A page that passes the field checks has a node name that fits and a GPU flag of 0, 1 or absent. */
  lemma AcceptedFields(b: seq<Byte>)
    requires |b| >= 2344 && CheckFields(ReadWords(b)).None?
    ensures U64At(b, 224) <= 253
    ensures U64At(b, 2328) <= 1 || U64At(b, 2328) == 0x8000_0000_0000_0000
  {
    FieldsChecked(ReadWords(b), FieldWord(b, NodeNameLen), FieldWord(b, AppendedField(2)));
    FieldWordAt(b, NodeNameLen, 224);
    FieldWordAt(b, AppendedField(2), 2328);
  }

  lemma MagicBytes(m: seq<Byte>)
    requires |m| == 8
    ensures FromLittleEndian(m) == 0x5447_4442_4D53_334B <==> m == [0x4B, 0x33, 0x53, 0x4D, 0x42, 0x44, 0x47, 0x54]
  {
    var magic: seq<Byte> := [0x4B, 0x33, 0x53, 0x4D, 0x42, 0x44, 0x47, 0x54];
    MagicNumber(magic);
    if FromLittleEndian(m) == FromLittleEndian(magic) {
      SameNumber(m, magic);
    }
  }

  lemma MagicNumber(magic: seq<Byte>)
    requires magic == [0x4B, 0x33, 0x53, 0x4D, 0x42, 0x44, 0x47, 0x54]
    ensures FromLittleEndian(magic) == 0x5447_4442_4D53_334B
  {
    U64Means(magic, 0);
    assert magic[0..8] == magic;
  }

  lemma {:induction false} SameNumber(a: seq<Byte>, b: seq<Byte>)
    requires |a| == |b| && FromLittleEndian(a) == FromLittleEndian(b)
    ensures a == b
  {
    if a != [] {
      var x, y := FromLittleEndian(a[1..]), FromLittleEndian(b[1..]);
      assert (a[0] + 256 * x) % 256 == a[0] && (b[0] + 256 * y) % 256 == b[0];
      SameNumber(a[1..], b[1..]);
      assert a == [a[0]] + a[1..] && b == [b[0]] + b[1..];
    }
  }

  /** The version word packs abiMajor, abiMinor and headerSize in bytes 8 to 15. */
  lemma VersionWord(w: Word, b: seq<Byte>)
    requires |b| >= 16 && w == U64At(b, 8)
    ensures Major(w) == FromLittleEndian(b[8..10]) && Minor(w) == FromLittleEndian(b[10..12])
    ensures HeaderSize(w) == FromLittleEndian(b[12..16])
  {
    assert b[8..16] == b[8..10] + (b[10..12] + b[12..16]);
    FromLittleEndianConcat(b[8..10], b[10..12] + b[12..16]);
    FromLittleEndianConcat(b[10..12], b[12..16]);
    FromLittleEndianBound(b[8..10]);
    FromLittleEndianBound(b[10..12]);
    Powers();
    Unpacked(FromLittleEndian(b[8..10]), FromLittleEndian(b[10..12]), FromLittleEndian(b[12..16]));
  }

  lemma Unpacked(x: nat, y: nat, z: nat)
    requires x < 0x1_0000 && y < 0x1_0000
    ensures var w := x + 0x1_0000 * (y + 0x1_0000 * z);
            w % 0x1_0000 == x && w / 0x1_0000 % 0x1_0000 == y && w / 0x1_0000_0000 == z
  {
    var w := x + 0x1_0000 * (y + 0x1_0000 * z);
    assert w / 0x1_0000 == y + 0x1_0000 * z;
  }

  predicate HeaderAbi(b: seq<Byte>)
    requires |b| >= 2344
  {
    && b[0..8] == [0x4B, 0x33, 0x53, 0x4D, 0x42, 0x44, 0x47, 0x54]
    && FromLittleEndian(b[8..10]) == 1 && FromLittleEndian(b[10..12]) == 1
    && FromLittleEndian(b[12..16]) == 192 && FromLittleEndian(b[16..20]) == 2152
    && U64At(b, 64) == 0 && U64At(b, 128) == 0
  }

  lemma HeaderLine(s: PageSnapshot)
    requires Encodable(s)
    ensures HeaderAbi(PageBytes(s))
  {
    HeaderBytes(s);
    FieldRecovered(s, EpochField);
  }

  /** The bytes between and after the fields. */
  predicate Reserved(s: PageSnapshot, k: nat) {
    || 20 <= k < 64 || 72 <= k < 128 || 136 <= k < 192 || 2344 <= k < 4096
    || 232 + |s.nodeName| <= k < 488
  }

  predicate ReservedAbi(b: seq<Byte>, s: PageSnapshot) {
    forall k :: 0 <= k < |b| && Reserved(s, k) ==> b[k] == 0
  }

  /** No row reaches into a gap of the layout. */
  lemma RowsLeaveGap(j: nat, k: nat)
    requires j < FIELDS && (20 <= k < 64 || 72 <= k < 128 || 136 <= k < 192 || 2344 <= k)
    ensures k < RowOffset(j) || RowOffset(j) + RowAt(j).size <= k
  {
    RowInPage(j);
    if j < 4 {
      RowsDisjoint(j, 4);
    } else if j < 7 {
      RankOfRow(j);
    }
  }

  lemma GapZero(s: PageSnapshot, k: nat)
    requires Encodable(s) && (20 <= k < 64 || 72 <= k < 128 || 136 <= k < 192 || 2344 <= k < 4096)
    ensures PageBytes(s)[k] == 0
  {
    EncodableCarries(s);
    ChunksFit(s, FIELDS);
    forall j | 0 <= j < FIELDS ensures k < RowOffset(j) || RowOffset(j) + RowAt(j).size <= k {
      RowsLeaveGap(j, k);
    }
    GapKept(Chunks(s, FIELDS), k);
  }

  lemma PaddingZero(s: PageSnapshot, k: nat)
    requires Encodable(s) && 232 + |s.nodeName| <= k < 488
    ensures PageBytes(s)[k] == 0
  {
    RowKept(s, 12);
    assert RowIdAt(12) == NodeName;
    assert PageBytes(s)[232..488][k - 232] == 0;
  }

  lemma ReservedBytes(s: PageSnapshot)
    requires Encodable(s)
    ensures ReservedAbi(PageBytes(s), s)
  {
    forall k | 0 <= k < 4096 && Reserved(s, k) ensures PageBytes(s)[k] == 0 {
      if 232 + |s.nodeName| <= k < 488 {
        PaddingZero(s, k);
      } else {
        GapZero(s, k);
      }
    }
  }

  /** Every field of the frozen layout stands at its offset with its value. */
  ghost predicate PageIs(b: seq<Byte>, s: PageSnapshot) {
    && |b| == 4096 && HeaderAbi(b) && IdentityAbi(b, s) && CapacityAbi(b, s.capacity) && DarwinAbi(b, s.darwin)
    && LinuxAbi(b, s.linux) && SignalsAbi(b, s.signals) && ActionAbi(b, s) && CountersAbi(b, s.counters)
    && AppendedAbi(b, s.capacity) && ReservedAbi(b, s)
  }

  lemma BytesAreAbi(s: PageSnapshot)
    requires Encodable(s)
    ensures PageIs(PageBytes(s), s)
  {
    HeaderLine(s);
    IdentityBytes(s);
    CapacityBytes(s);
    DarwinBytes(s);
    LinuxBytes(s);
    SignalsBytes(s);
    ActionBytes(s);
    CountersBytes(s);
    AppendedBytes(s);
    ReservedBytes(s);
  }
}
