/** The layout table: one ordered list of fields from which every offset derives. */
module PageLayout {
  import opened Vocabulary
  import opened PageWords

  datatype Kind = Bytes | U16 | U32 | U64 | I64Kind

  /** The fields of the page. An index counts within its group, in table order. */
  datatype FieldId =
    | Magic | AbiMajor | AbiMinor | HeaderSizeField | BodySizeField | SeqField | EpochField
    | Generation | WriterPeriod | ObservedAt | PlatformField | NodeNameLen | NodeName
    | CapacityField(i: nat)
    | LevelField
    | DarwinField(i: nat)
    | PsiField(r: nat, l: nat, v: nat)
    | MemoryEventField(i: nat)
    | SignalField(slot: nat, f: nat)
    | ActionField(i: nat)
    | CounterField(slot: nat, f: nat)
    | AppendedField(i: nat)

  /** A row of the table: its encoding, its size in bytes and an alignment stricter than the natural one, or 0. */
  datatype Field = Field(id: FieldId, kind: Kind, size: nat, align: nat)

  datatype Placed = Placed(field: Field, offset: nat)

  function Alignment(f: Field): (a: nat)
    ensures a > 0
  {
    if f.align != 0 then f.align
    else match f.kind
      case U16 => 2
      case U32 => 4
      case _ => 8
  }

  /** The least multiple of a that is not below off. */
  function AlignUp(off: nat, a: nat): nat
    requires a > 0
  {
    if off == 0 then 0
    else if off <= a then a
    else a + AlignUp(off - a, a)
  }

  /** The end of the first k fields. */
  function EndOf(specs: seq<Field>, k: nat): nat
    requires k <= |specs|
  {
    if k == 0 then 0
    else AlignUp(EndOf(specs, k - 1), Alignment(specs[k - 1])) + specs[k - 1].size
  }

  function OffsetOf(specs: seq<Field>, k: nat): nat
    requires k < |specs|
  {
    AlignUp(EndOf(specs, k), Alignment(specs[k]))
  }

  /** buildPageLayout: one pass that rounds the running offset up and adds the size. */
  method BuildPageLayout(specs: seq<Field>) returns (layout: seq<Placed>, end: nat)
    ensures |layout| == |specs| && end == EndOf(specs, |specs|)
    ensures forall k :: 0 <= k < |specs| ==> layout[k] == Placed(specs[k], OffsetOf(specs, k))
  {
    layout, end := [], 0;
    for i := 0 to |specs|
      invariant |layout| == i && end == EndOf(specs, i)
      invariant forall k :: 0 <= k < i ==> layout[k] == Placed(specs[k], OffsetOf(specs, k))
    {
      var f := specs[i];
      var a := f.align;
      if a == 0 {
        match f.kind {
          case U16 => a := 2;
          case U32 => a := 4;
          case _ => a := 8;
        }
      }
      RoundingIsAlignUp(end, a);
      end := (end + a - 1) / a * a;
      layout := layout + [Placed(f, end)];
      end := end + f.size;
    }
  }

  // ----- laws of any table -----

  lemma SmallQuotient(x: nat, a: nat)
    requires x < a
    ensures x / a == 0 && x % a == x
  {
  }

  lemma BoundedMultiple(d: int, a: int)
    requires a > 0 && -a < d * a < a
    ensures d == 0
  {
  }

  lemma QuotientStep(x: nat, a: nat)
    requires a > 0
    ensures (x + a) / a == x / a + 1
    ensures (x + a) % a == x % a
  {
    var q, d := x / a + 1, (x + a) / a;
    assert q * a == x / a * a + a;
    assert (d - q) * a == d * a - q * a == x % a - (x + a) % a;
    BoundedMultiple(d - q, a);
  }

  /** The source's rounding expression computes it. */
  lemma {:induction false} RoundingIsAlignUp(off: nat, a: nat)
    requires a > 0
    ensures (off + a - 1) / a * a == AlignUp(off, a)
    decreases off
  {
    if off == 0 {
      SmallQuotient(a - 1, a);
    } else {
      QuotientStep(off - 1, a);
      if off <= a {
        SmallQuotient(off - 1, a);
      } else {
        RoundingIsAlignUp(off - a, a);
        NextMultiple((off - 1) / a, a);
      }
    }
  }

  lemma NextMultiple(q: nat, a: nat)
    ensures (q + 1) * a == q * a + a
  {
  }

  lemma {:induction false} AlignUpLaws(off: nat, a: nat)
    requires a > 0
    ensures AlignUp(off, a) % a == 0
    ensures off <= AlignUp(off, a) < off + a
    decreases off
  {
    if off == 0 {
      SmallQuotient(0, a);
    } else if off <= a {
      SmallQuotient(0, a);
      QuotientStep(0, a);
    } else {
      AlignUpLaws(off - a, a);
      QuotientStep(AlignUp(off - a, a), a);
    }
  }

  lemma {:induction false} EndsMonotone(specs: seq<Field>, i: nat, j: nat)
    requires i <= j <= |specs|
    ensures EndOf(specs, i) <= EndOf(specs, j)
    decreases j
  {
    if i < j {
      EndsMonotone(specs, i, j - 1);
      AlignUpLaws(EndOf(specs, j - 1), Alignment(specs[j - 1]));
    }
  }

  /** Every field is aligned and no two fields share a byte; a later field lies entirely after. */
  lemma FieldsDisjoint(specs: seq<Field>, i: nat, j: nat)
    requires i <= j < |specs|
    ensures OffsetOf(specs, i) % Alignment(specs[i]) == 0 && OffsetOf(specs, j) % Alignment(specs[j]) == 0
    ensures i < j ==> OffsetOf(specs, i) + specs[i].size <= OffsetOf(specs, j)
    ensures OffsetOf(specs, j) + specs[j].size <= EndOf(specs, |specs|)
  {
    AlignUpLaws(EndOf(specs, i), Alignment(specs[i]));
    AlignUpLaws(EndOf(specs, j), Alignment(specs[j]));
    if i < j {
      EndsMonotone(specs, i + 1, j);
    }
    EndsMonotone(specs, j + 1, |specs|);
  }

  /** A minor only appends: the layout of an older table is a prefix of the layout of a longer one. */
  lemma {:induction false} AppendKeepsEnds(older: seq<Field>, more: seq<Field>, k: nat)
    requires k <= |older|
    ensures EndOf(older + more, k) == EndOf(older, k)
  {
    if k > 0 {
      AppendKeepsEnds(older, more, k - 1);
    }
  }

  lemma AppendKeepsOffsets(older: seq<Field>, more: seq<Field>, k: nat)
    requires k < |older|
    ensures OffsetOf(older + more, k) == OffsetOf(older, k)
    ensures EndOf(older, |older|) <= EndOf(older + more, |older + more|)
  {
    AppendKeepsEnds(older, more, k);
    AppendKeepsEnds(older, more, |older|);
    EndsMonotone(older + more, |older|, |older + more|);
  }

  // ----- the shipped table -----

  function WordField(id: FieldId): Field {
    Field(id, I64Kind, 8, 0)
  }

  function CodeField(id: FieldId): Field {
    Field(id, U64, 8, 0)
  }

  /** The header line, the seq and notifyEpoch lines, and the identity block. */
  function HeadSpecs(): (t: seq<Field>)
    ensures |t| == 13
  {
    [ Field(Magic, Bytes, 8, 0), Field(AbiMajor, U16, 2, 0), Field(AbiMinor, U16, 2, 0),
      Field(HeaderSizeField, U32, 4, 0), Field(BodySizeField, U32, 4, 0),
      Field(SeqField, U64, 8, 64), Field(EpochField, U64, 8, 64),
      Field(Generation, I64Kind, 8, 64), WordField(WriterPeriod), WordField(ObservedAt),
      CodeField(PlatformField), CodeField(NodeNameLen), Field(NodeName, Bytes, NODE_NAME_BYTES, 0) ]
  }

  function SignalSpec(slot: nat, f: nat): Field {
    if f < 2 || f >= 17 then CodeField(SignalField(slot, f)) else WordField(SignalField(slot, f))
  }

  /** admit, admitReasonSignal, evictDeadline, killMode (mode, armed, armingEpisodes, reason), then
  recommendation (safeAdditionalBytes, basis). */
  function ActionSpec(i: nat): Field {
    if i == 2 || i == 5 || i == 7 then WordField(ActionField(i)) else CodeField(ActionField(i))
  }

  function CounterSpec(slot: nat, f: nat): Field {
    if f == 0 then CodeField(CounterField(slot, f)) else WordField(CounterField(slot, f))
  }

  /** The table of minor 0. */
  function SpecsMinor0(): (t: seq<Field>)
    ensures |t| == 241
  {
    HeadSpecs()
    + seq(8, i requires 0 <= i => WordField(CapacityField(i)))
    + [CodeField(LevelField)]
    + seq(7, i requires 0 <= i => WordField(DarwinField(i)))
    + seq(18, k requires 0 <= k => WordField(PsiField(k / 6, k % 6 / 3, k % 3)))
    + seq(4, i requires 0 <= i => WordField(MemoryEventField(i)))
    + seq(160, k requires 0 <= k => SignalSpec(k / 20, k % 20))
    + seq(9, i requires 0 <= i => ActionSpec(i))
    + seq(21, k requires 0 <= k => CounterSpec(k / 7, k % 7))
  }

  /** Minor 1 appends the core split, the GPU presence and the GPU count. */
  function FieldSpecs(): (t: seq<Field>)
    ensures |t| == 245
  {
    SpecsMinor0() + seq(4, i requires 0 <= i => WordField(AppendedField(i)))
  }

  const FIELDS: nat := 245

  predicate ValidId(id: FieldId) {
    match id
    case CapacityField(i) => i < 8
    case DarwinField(i) => i < 7
    case PsiField(r, l, v) => r < 3 && l < 2 && v < 3
    case MemoryEventField(i) => i < 4
    case SignalField(slot, f) => slot < MAX_SIGNALS && f < 20
    case ActionField(i) => i < 9
    case CounterField(slot, f) => slot < MAX_COUNTERS && f < 7
    case AppendedField(i) => i < 4
    case _ => true
  }

  /** The position of a field in the table. */
  function Rank(id: FieldId): (k: nat)
    requires ValidId(id)
    ensures k < FIELDS
  {
    match id
    case Magic => 0
    case AbiMajor => 1
    case AbiMinor => 2
    case HeaderSizeField => 3
    case BodySizeField => 4
    case SeqField => 5
    case EpochField => 6
    case Generation => 7
    case WriterPeriod => 8
    case ObservedAt => 9
    case PlatformField => 10
    case NodeNameLen => 11
    case NodeName => 12
    case CapacityField(i) => 13 + i
    case LevelField => 21
    case DarwinField(i) => 22 + i
    case PsiField(r, l, v) => 29 + 6 * r + 3 * l + v
    case MemoryEventField(i) => 47 + i
    case SignalField(slot, f) => 51 + 20 * slot + f
    case ActionField(i) => 211 + i
    case CounterField(slot, f) => 220 + 7 * slot + f
    case AppendedField(i) => 241 + i
  }

  /** The row at each position of the word part of the table. */
  function WordSpecAt(k: nat): Field
    requires 13 <= k < FIELDS
  {
    if k < 21 then WordField(CapacityField(k - 13))
    else if k == 21 then CodeField(LevelField)
    else if k < 29 then WordField(DarwinField(k - 22))
    else if k < 47 then WordField(PsiField((k - 29) / 6, (k - 29) % 6 / 3, (k - 29) % 3))
    else if k < 51 then WordField(MemoryEventField(k - 47))
    else if k < 211 then SignalSpec((k - 51) / 20, (k - 51) % 20)
    else if k < 220 then ActionSpec(k - 211)
    else if k < 241 then CounterSpec((k - 220) / 7, (k - 220) % 7)
    else WordField(AppendedField(k - 241))
  }

  function RowAt(k: nat): Field
    requires k < FIELDS
  {
    if k < 13 then HeadSpecs()[k] else WordSpecAt(k)
  }

  ghost predicate IsTable(t: seq<Field>) {
    |t| == FIELDS && forall k :: 0 <= k < FIELDS ==> t[k] == RowAt(k)
  }

  lemma TableAt()
    ensures IsTable(FieldSpecs())
  {
  }

  lemma HeadRanks(k: nat)
    requires k < 13
    ensures ValidId(HeadSpecs()[k].id) && Rank(HeadSpecs()[k].id) == k
  {
    if k < 4 { } else if k < 8 { } else if k < 10 { } else { }
  }

  lemma PsiRanks(k: nat)
    requires 13 <= k < 47
    ensures ValidId(WordSpecAt(k).id) && Rank(WordSpecAt(k).id) == k
  {
  }

  lemma WordRanks(k: nat)
    requires 13 <= k < FIELDS
    ensures ValidId(WordSpecAt(k).id) && Rank(WordSpecAt(k).id) == k
  {
    if k < 47 {
      PsiRanks(k);
    } else if k < 211 {
      assert 20 * ((k - 51) / 20) + (k - 51) % 20 == k - 51;
    } else {
      assert 7 * ((k - 220) / 7) + (k - 220) % 7 == k - 220;
    }
  }

  lemma RankOfRow(k: nat)
    requires k < FIELDS
    ensures ValidId(RowAt(k).id) && Rank(RowAt(k).id) == k
  {
    if k < 13 { HeadRanks(k); } else { WordRanks(k); }
  }

  lemma RowOfRank(id: FieldId)
    requires ValidId(id)
    ensures RowAt(Rank(id)).id == id
  {
    match id
    case PsiField(r, l, v) => PsiRow(r, l, v);
    case SignalField(slot, f) => SignalRow(slot, f);
    case CounterField(slot, f) => CounterRow(slot, f);
    case CapacityField(i) =>
    case DarwinField(i) =>
    case MemoryEventField(i) =>
    case ActionField(i) =>
    case AppendedField(i) =>
    case _ => HeadRow(id);
  }

  lemma PsiRow(r: nat, l: nat, v: nat)
    requires r < 3 && l < 2 && v < 3
    ensures (6 * r + 3 * l + v) / 6 == r && (6 * r + 3 * l + v) % 6 / 3 == l && (6 * r + 3 * l + v) % 3 == v
  {
  }

  lemma SignalRow(slot: nat, f: nat)
    requires f < 20
    ensures (20 * slot + f) / 20 == slot && (20 * slot + f) % 20 == f
  {
  }

  lemma CounterRow(slot: nat, f: nat)
    requires f < 7
    ensures (7 * slot + f) / 7 == slot && (7 * slot + f) % 7 == f
  {
  }

  /** The rows of the head, the level and their ranks. */
  lemma HeadRow(id: FieldId)
    requires ValidId(id) && (Rank(id) < 13 || id == LevelField)
    ensures RowAt(Rank(id)).id == id
  {
  }

  /** Each field has one row, at its rank: a lookup by name cannot find another. */
  lemma RankIsPosition(id: FieldId, k: nat)
    requires ValidId(id) && k < FIELDS
    ensures FieldSpecs()[k].id == id <==> k == Rank(id)
    ensures ValidId(FieldSpecs()[k].id)
  {
    TableAt();
    RankOfRow(k);
    RowOfRank(id);
  }

  lemma {:induction false} Align8(off: nat)
    requires off % 8 == 0
    ensures AlignUp(off, 8) == off
  {
    if off > 8 {
      Align8(off - 8);
    }
  }

  /** The offsets of the shipped table: the words run on from the node name to the end of the body. */
  lemma {:induction false} WordOffsets(t: seq<Field>, k: nat)
    requires IsTable(t) && 13 <= k <= FIELDS
    ensures EndOf(t, k) == 488 + 8 * (k - 13)
  {
    if k == 13 {
      HeadOffsets(t);
    } else {
      WordOffsets(t, k - 1);
      WordShape(k - 1);
      Align8(488 + 8 * (k - 14));
    }
  }

  lemma WordShape(k: nat)
    requires 13 <= k < FIELDS
    ensures RowAt(k).size == 8 && Alignment(RowAt(k)) == 8
  {
  }

  lemma HeadEnd(t: seq<Field>, k: nat, end: nat, a: nat, off: nat)
    requires IsTable(t) && k < 13 && EndOf(t, k) == end
    requires a > 0 && Alignment(RowAt(k)) == a && AlignUp(end, a) == off
    ensures EndOf(t, k + 1) == off + RowAt(k).size
    ensures OffsetOf(t, k) == off
  {
  }

  lemma HeadOffsets(t: seq<Field>)
    requires IsTable(t)
    ensures OffsetOf(t, 0) == 0
    ensures OffsetOf(t, 1) == 8
    ensures OffsetOf(t, 2) == 10
    ensures OffsetOf(t, 3) == 12
    ensures OffsetOf(t, 4) == 16
    ensures OffsetOf(t, 5) == 8 * SEQ_WORD
    ensures OffsetOf(t, 6) == 8 * EPOCH_WORD
    ensures OffsetOf(t, 7) == PAGE_HEADER_SIZE
    ensures OffsetOf(t, 8) == 200
    ensures OffsetOf(t, 9) == 208
    ensures OffsetOf(t, 10) == 216
    ensures OffsetOf(t, 11) == 224
    ensures OffsetOf(t, 12) == 232
    ensures EndOf(t, 13) == 488
  {
    HeadEnd(t, 0, 0, 8, 0);
    HeadEnd(t, 1, 8, 2, 8);
    HeadEnd(t, 2, 10, 2, 10);
    HeadEnd(t, 3, 12, 4, 12);
    HeadEnd(t, 4, 16, 4, 16);
    HeadEnd(t, 5, 20, 64, 64);
    HeadEnd(t, 6, 72, 64, 128);
    HeadEnd(t, 7, 136, 64, 192);
    Align8(200);
    HeadEnd(t, 8, 200, 8, 200);
    Align8(208);
    HeadEnd(t, 9, 208, 8, 208);
    Align8(216);
    HeadEnd(t, 10, 216, 8, 216);
    Align8(224);
    HeadEnd(t, 11, 224, 8, 224);
    Align8(232);
    HeadEnd(t, 12, 232, 8, 232);
  }

  /** pageBodyEnd and pageBodySize of minor 1. */
  const BODY_END: nat := 2344
  const BODY_SIZE: nat := BODY_END - PAGE_HEADER_SIZE
  const ABI_MINOR: nat := 1

  /** The shipped body ends well inside the limit kept free for later minors, the seq and notifyEpoch
  words are alone on their lines below it, every body field is a whole number of words, and minor 0's
  layout is a prefix. */
  lemma ShippedLayout(k: nat)
    requires k < FIELDS
    ensures EndOf(FieldSpecs(), FIELDS) == BODY_END <= PAGE_BODY_LIMIT
    ensures k >= 7 ==> OffsetOf(FieldSpecs(), k) >= PAGE_HEADER_SIZE
    ensures k >= 7 ==> OffsetOf(FieldSpecs(), k) % 8 == 0 && FieldSpecs()[k].size % 8 == 0
    ensures k >= 13 ==> OffsetOf(FieldSpecs(), k) == 488 + 8 * (k - 13) && FieldSpecs()[k].size == 8
    ensures k < 241 ==> OffsetOf(FieldSpecs(), k) == OffsetOf(SpecsMinor0(), k)
  {
    TableAt();
    TableOffsets(FieldSpecs(), k);
    if k < 241 {
      AppendKeepsOffsets(SpecsMinor0(), seq(4, i requires 0 <= i => WordField(AppendedField(i))), k);
    }
  }

  lemma TableOffsets(t: seq<Field>, k: nat)
    requires IsTable(t) && k < FIELDS
    ensures EndOf(t, FIELDS) == BODY_END
    ensures k >= 7 ==> OffsetOf(t, k) >= PAGE_HEADER_SIZE && OffsetOf(t, k) % 8 == 0 && t[k].size % 8 == 0
    ensures k >= 13 ==> OffsetOf(t, k) == 488 + 8 * (k - 13) && t[k].size == 8
  {
    WordOffsets(t, FIELDS);
    HeadOffsets(t);
    if k >= 13 {
      WordOffsets(t, k);
      WordShape(k);
      Align8(488 + 8 * (k - 13));
    }
  }
}
