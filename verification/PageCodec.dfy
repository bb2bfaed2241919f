/** The page's bytes: the encoder over the layout table, and the round trip with a reader. */
module PageCodec {
  import opened Vocabulary
  import opened PageWords
  import opened Snapshot
  import opened PageLayout
  import opened PageFields
  import opened PageDecode

  // ----- little-endian integers -----

  function LittleEndian(v: nat, n: nat): (bs: seq<Byte>)
    ensures |bs| == n
  {
    if n == 0 then [] else [v % 256] + LittleEndian(v / 256, n - 1)
  }

  function FromLittleEndian(bs: seq<Byte>): nat {
    if bs == [] then 0 else bs[0] + 256 * FromLittleEndian(bs[1..])
  }

  function Power256(n: nat): nat {
    if n == 0 then 1 else 256 * Power256(n - 1)
  }

  lemma {:induction false} LittleEndianRoundTrip(v: nat, n: nat)
    requires v < Power256(n)
    ensures FromLittleEndian(LittleEndian(v, n)) == v
  {
    if n > 0 {
      assert LittleEndian(v, n)[1..] == LittleEndian(v / 256, n - 1);
      LittleEndianRoundTrip(v / 256, n - 1);
    }
  }

  lemma {:induction false} FromLittleEndianBound(bs: seq<Byte>)
    ensures FromLittleEndian(bs) < Power256(|bs|)
  {
    if bs != [] {
      FromLittleEndianBound(bs[1..]);
    }
  }

  lemma Powers()
    ensures Power256(2) == SHORT_LIMIT && Power256(4) == HALF_LIMIT && Power256(8) == WORD_LIMIT
  {
    assert Power256(4) == 256 * 256 * 256 * 256;
    assert Power256(8) == 256 * 256 * 256 * 256 * Power256(4);
  }

  /** The word at byte offset 8 * i. */
  function WordAt(b: seq<Byte>, i: nat): Word
    requires 8 * i + 8 <= |b|
  {
    FromLittleEndianBound(b[8 * i..8 * i + 8]);
    Powers();
    FromLittleEndian(b[8 * i..8 * i + 8])
  }

  // ----- the encoded page -----

  const MAGIC_BYTES: seq<Byte> := [0x4B, 0x33, 0x53, 0x4D, 0x42, 0x44, 0x47, 0x54]

  /** The bytes of row k of the table. */
  function FieldBytes(s: PageSnapshot, k: nat): (bs: seq<Byte>)
    requires k < FIELDS && Carries(RowIdAt(k), s) && |s.nodeName| <= NODE_NAME_BYTES
    ensures |bs| == RowAt(k).size
  {
    match RowIdAt(k)
    case Magic => RankOfRow(k); MAGIC_BYTES
    case NodeName => RankOfRow(k); s.nodeName + seq(NODE_NAME_BYTES - |s.nodeName|, _ => 0)
    case BodySizeField => RankOfRow(k); LittleEndian(BODY_SIZE, 4)
    case id => LittleEndian(Get(id, s).value, RowAt(k).size)
  }

  function RowIdAt(k: nat): (id: FieldId)
    requires k < FIELDS
    ensures ValidId(id)
  {
    RankOfRow(k);
    RowAt(k).id
  }

  /** The shipped offsets in closed form. */
  function RowOffset(k: nat): nat
    requires k < FIELDS
  {
    if k < 13 then [0, 8, 10, 12, 16, 64, 128, 192, 200, 208, 216, 224, 232][k] else 488 + 8 * (k - 13)
  }

  lemma RowOffsetIsLayout(k: nat)
    requires k < FIELDS
    ensures OffsetOf(FieldSpecs(), k) == RowOffset(k) && FieldSpecs()[k] == RowAt(k)
  {
    TableAt();
    TableOffset(FieldSpecs(), k);
  }

  lemma TableOffset(t: seq<Field>, k: nat)
    requires IsTable(t) && k < FIELDS
    ensures OffsetOf(t, k) == RowOffset(k)
  {
    HeadOffsets(t);
    TableOffsets(t, k);
    if k == 0 { } else if k == 1 { } else if k == 2 { } else if k == 3 { } else if k == 4 { } else if k == 5 { }
    else if k == 6 { } else if k == 7 { } else if k == 8 { } else if k == 9 { } else if k == 10 { } else if k == 11 { }
  }

  lemma RowsDisjoint(i: nat, j: nat)
    requires i < j < FIELDS
    ensures RowOffset(i) + RowAt(i).size <= RowOffset(j)
  {
    RowOffsetIsLayout(i);
    RowOffsetIsLayout(j);
    FieldsDisjoint(FieldSpecs(), i, j);
  }

  lemma RowInPage(k: nat)
    requires k < FIELDS
    ensures RowOffset(k) + RowAt(k).size <= BODY_END
  {
    if k < FIELDS - 1 {
      RowsDisjoint(k, FIELDS - 1);
    }
  }

  function Splice(p: seq<Byte>, off: nat, bs: seq<Byte>): (q: seq<Byte>)
    requires off + |bs| <= |p|
    ensures |q| == |p|
    ensures forall b :: 0 <= b < |p| ==> q[b] == if off <= b < off + |bs| then bs[b - off] else p[b]
  {
    p[..off] + bs + p[off + |bs|..]
  }

  /** A run of bytes at an offset; chunks fit when each lies after the one before and inside the page. */
  datatype Chunk = Chunk(off: nat, bytes: seq<Byte>)

  ghost predicate Fit(cs: seq<Chunk>) {
    && (forall i :: 0 <= i < |cs| ==> cs[i].off + |cs[i].bytes| <= PAGE_SIZE)
    && (forall i, j :: 0 <= i < j < |cs| ==> cs[i].off + |cs[i].bytes| <= cs[j].off)
  }

  /** Zero bytes with the chunks written over them in order. */
  ghost function Assemble(cs: seq<Chunk>): (p: seq<Byte>)
    requires Fit(cs)
    ensures |p| == PAGE_SIZE
  {
    if cs == [] then seq(PAGE_SIZE, _ => 0)
    else
      var c := cs[|cs| - 1];
      Splice(Assemble(cs[..|cs| - 1]), c.off, c.bytes)
  }

  /** Later chunks never overwrite an earlier one. */
  lemma {:induction false} ChunkKept(cs: seq<Chunk>, j: nat)
    requires Fit(cs) && j < |cs|
    ensures Assemble(cs)[cs[j].off..cs[j].off + |cs[j].bytes|] == cs[j].bytes
  {
    var n := |cs| - 1;
    if j < n {
      ChunkKept(cs[..n], j);
      var p, q, from, to := Assemble(cs), Assemble(cs[..n]), cs[j].off, cs[j].off + |cs[j].bytes|;
      assert forall b :: from <= b < to ==> p[b] == q[b];
      assert p[from..to] == q[from..to];
    }
  }

  /** Bytes no chunk covers stay zero. */
  lemma {:induction false} GapKept(cs: seq<Chunk>, b: nat)
    requires Fit(cs) && b < PAGE_SIZE
    requires forall j :: 0 <= j < |cs| ==> b < cs[j].off || cs[j].off + |cs[j].bytes| <= b
    ensures Assemble(cs)[b] == 0
  {
    if cs != [] {
      GapKept(cs[..|cs| - 1], b);
    }
  }

  ghost predicate CarriesUpTo(s: PageSnapshot, k: nat) {
    && k <= FIELDS && |s.nodeName| <= NODE_NAME_BYTES
    && forall j {:trigger RowIdAt(j)} :: 0 <= j < k ==> Carries(RowIdAt(j), s)
  }

  ghost function Chunks(s: PageSnapshot, k: nat): (cs: seq<Chunk>)
    requires CarriesUpTo(s, k)
    ensures |cs| == k
    ensures forall j :: 0 <= j < k ==> cs[j].off == RowOffset(j) && |cs[j].bytes| == RowAt(j).size
  {
    seq(k, j requires 0 <= j < k => assert Carries(RowIdAt(j), s); Chunk(RowOffset(j), FieldBytes(s, j)))
  }

  lemma ChunksFit(s: PageSnapshot, k: nat)
    requires CarriesUpTo(s, k)
    ensures Fit(Chunks(s, k))
  {
    forall i | 0 <= i < k ensures RowOffset(i) + RowAt(i).size <= PAGE_SIZE {
      RowInPage(i);
    }
    forall i, j | 0 <= i < j < k ensures RowOffset(i) + RowAt(i).size <= RowOffset(j) {
      RowsDisjoint(i, j);
    }
  }

  /** The page once the first k rows are written. */
  ghost function PageUpTo(s: PageSnapshot, k: nat): (p: seq<Byte>)
    requires CarriesUpTo(s, k)
    ensures |p| == PAGE_SIZE
  {
    ChunksFit(s, k);
    Assemble(Chunks(s, k))
  }

  lemma PageUpToStep(s: PageSnapshot, k: nat)
    requires CarriesUpTo(s, k + 1)
    ensures CarriesUpTo(s, k) && Carries(RowIdAt(k), s) && RowOffset(k) + RowAt(k).size <= PAGE_SIZE
    ensures PageUpTo(s, k + 1) == Splice(PageUpTo(s, k), RowOffset(k), FieldBytes(s, k))
  {
    RowInPage(k);
    ChunksFit(s, k + 1);
    assert Chunks(s, k + 1)[..k] == Chunks(s, k);
  }

  lemma EncodableCarries(s: PageSnapshot)
    requires Encodable(s)
    ensures CarriesUpTo(s, FIELDS)
  {
    forall j | 0 <= j < FIELDS ensures Carries(RowIdAt(j), s) {
    }
  }

  ghost function PageBytes(s: PageSnapshot): (p: seq<Byte>)
    requires Encodable(s)
    ensures |p| == PAGE_SIZE
  {
    EncodableCarries(s);
    PageUpTo(s, FIELDS)
  }

  lemma RowKept(s: PageSnapshot, j: nat)
    requires Encodable(s) && j < FIELDS
    ensures Carries(RowIdAt(j), s) && RowOffset(j) + RowAt(j).size <= PAGE_SIZE && |s.nodeName| <= NODE_NAME_BYTES
    ensures PageBytes(s)[RowOffset(j)..RowOffset(j) + RowAt(j).size] == FieldBytes(s, j)
  {
    EncodableCarries(s);
    RowInPage(j);
    assert Carries(RowIdAt(j), s);
    ChunksFit(s, FIELDS);
    ChunkKept(Chunks(s, FIELDS), j);
  }

  /** The value a reader finds at a field's offset. */
  function FieldValue(b: seq<Byte>, id: FieldId): nat
    requires ValidId(id) && |b| >= BODY_END
  {
    RowNumber(b, Rank(id))
  }

  function RowNumber(b: seq<Byte>, k: nat): nat
    requires k < FIELDS && |b| >= BODY_END
  {
    RowInPage(k);
    FromLittleEndian(b[RowOffset(k)..RowOffset(k) + RowAt(k).size])
  }

  lemma ValueFits(id: FieldId, s: PageSnapshot)
    requires ValidId(id) && HasGetter(id) && Get(id, s).Some?
    ensures Get(id, s).value < Power256(RowAt(Rank(id)).size)
  {
    Powers();
    RowOfRank(id);
    if Rank(id) >= 13 {
      WordShape(Rank(id));
    }
  }

  lemma GetterBytes(s: PageSnapshot, id: FieldId)
    requires Encodable(s) && ValidId(id) && HasGetter(id)
    ensures Get(id, s).Some? && Carries(RowIdAt(Rank(id)), s) && |s.nodeName| <= NODE_NAME_BYTES
    ensures FieldBytes(s, Rank(id)) == LittleEndian(Get(id, s).value, RowAt(Rank(id)).size)
  {
    assert Carries(id, s);
    RowOfRank(id);
  }

  lemma FieldRecovered(s: PageSnapshot, id: FieldId)
    requires Encodable(s) && ValidId(id) && HasGetter(id)
    ensures Get(id, s).Some? && FieldValue(PageBytes(s), id) == Get(id, s).value
  {
    GetterBytes(s, id);
    ValueFits(id, s);
    RowValue(s, Rank(id), Get(id, s).value);
  }

  /** A number written in a row's bytes is read back from the page. */
  lemma RowValue(s: PageSnapshot, k: nat, v: nat)
    requires Encodable(s) && k < FIELDS && Carries(RowIdAt(k), s) && |s.nodeName| <= NODE_NAME_BYTES
    requires v < Power256(RowAt(k).size) && FieldBytes(s, k) == LittleEndian(v, RowAt(k).size)
    ensures RowNumber(PageBytes(s), k) == v
  {
    RowInPage(k);
    RowKept(s, k);
    LittleEndianRoundTrip(v, RowAt(k).size);
  }

  // ----- the encoder -----

  /** copy and binary.LittleEndian.Put*: bytes into the page at an offset. */
  method PutBytes(page: array<Byte>, off: nat, bs: seq<Byte>)
    requires off + |bs| <= page.Length
    modifies page
    ensures page[..] == Splice(old(page[..]), off, bs)
  {
    for i := 0 to |bs|
      invariant forall b :: 0 <= b < page.Length ==>
                  page[b] == if off <= b < off + i then bs[b - off] else old(page[b])
    {
      page[off + i] := bs[i];
    }
    assert page[..] == Splice(old(page[..]), off, bs);
  }

  /** The page cannot carry this field's value and can carry every field before it in the table. */
  ghost predicate FirstRefused(s: PageSnapshot, id: FieldId)
    requires ValidId(id)
  {
    !Carries(id, s) && CarriesUpTo(s, Rank(id))
  }

  /** The pass over the layout: every row's bytes, or the first field that cannot carry its value. */
  method EncodeRows(page: array<Byte>, s: PageSnapshot) returns (e: Option<PageError>)
    requires CheckSnapshot(s).None? && page.Length == PAGE_SIZE && page[..] == Assemble([])
    modifies page
    ensures e.None? ==> CarriesUpTo(s, FIELDS) && page[..] == PageUpTo(s, FIELDS)
    ensures e.Some? ==> e.value.CannotCarry? && ValidId(e.value.id) && FirstRefused(s, e.value.id)
  {
    var layout, end := BuildPageLayout(FieldSpecs());
    for k := 0 to |layout|
      invariant CarriesUpTo(s, k) && page[..] == PageUpTo(s, k)
    {
      RowOffsetIsLayout(k);
      RowInPage(k);
      var id := layout[k].field.id;
      assert id == RowIdAt(k);
      if HasGetter(id) && Get(id, s).None? {
        RankOfRow(k);
        return Some(CannotCarry(id));
      }
      PutBytes(page, layout[k].offset, FieldBytes(s, k));
      PageUpToStep(s, k);
    }
    e := None;
  }

  /** EncodePage: dst is written only when every field carries its value. */
  method EncodePage(dst: array<Byte>, s: PageSnapshot) returns (e: Option<PageError>)
    modifies dst
    ensures e.None? <==> dst.Length >= PAGE_SIZE && Encodable(s)
    ensures e.None? ==> dst[..] == PageBytes(s) + old(dst[..])[PAGE_SIZE..]
    ensures e.Some? ==> dst[..] == old(dst[..])
    ensures e.Some? && e.value.CannotCarry? ==> ValidId(e.value.id) && FirstRefused(s, e.value.id)
  {
    if dst.Length < PAGE_SIZE {
      return Some(BufferTooShort);
    }
    e := CheckSnapshot(s);
    if e.Some? {
      return;
    }
    var page := new Byte[PAGE_SIZE](_ => 0);
    assert page[..] == Assemble([]);
    e := EncodeRows(page, s);
    if e.None? {
      AllRowsCarry(s);
      PutBytes(dst, 0, page[..]);
      assert dst[..] == page[..] + old(dst[..])[PAGE_SIZE..];
    }
  }

  lemma AllRowsCarry(s: PageSnapshot)
    requires CheckSnapshot(s).None? && CarriesUpTo(s, FIELDS)
    ensures Encodable(s)
  {
    forall id | ValidId(id) ensures Carries(id, s) {
      RowOfRank(id);
      assert RowIdAt(Rank(id)) == id;
    }
  }

  // ----- the reader of a static page -----

  function ReadWords(b: seq<Byte>): Words
    requires |b| >= BODY_END
  {
    (id: FieldId) => if ValidId(id) then FieldWord(b, id) else 0
  }

  function FieldWord(b: seq<Byte>, id: FieldId): Word
    requires ValidId(id) && |b| >= BODY_END
  {
    var v := FieldValue(b, id);
    if v < WORD_LIMIT then v else 0
  }

  /** The header checks, in the order the contract states them. */
  function CheckHeader(b: seq<Byte>): (e: Option<ReadError>)
    ensures e.None? ==> |b| >= BODY_END
  {
    if |b| < 8 * SEQ_WORD then Some(Truncated)
    else if b[..8] != MAGIC_BYTES then Some(AbiMismatch)
    else if FromLittleEndian(b[8..10]) != PAGE_ABI_MAJOR then Some(AbiMismatch)
    else if FromLittleEndian(b[12..16]) != PAGE_HEADER_SIZE then Some(AbiMismatch)
    else
      var body := FromLittleEndian(b[16..20]);
      if body < BODY_SIZE then Some(Truncated)
      else if |b| < PAGE_HEADER_SIZE + body then Some(Truncated)
      else if WordAt(b, SEQ_WORD) % 2 == 1 then Some(TornPage)
      else None
  }

  /** The checks on single fields: the name length, gpuPresent, and the structural codes. */
  function CheckFields(g: Words): (e: Option<ReadError>)
    ensures e.None? ==> g(NodeNameLen) <= MAX_NODE_NAME_BYTES
  {
    if g(NodeNameLen) > MAX_NODE_NAME_BYTES then Some(Corrupt)
    else if g(AppendedField(2)) !in [0, 1, PAGE_ABSENT_WORD] then Some(Corrupt)
    else if !CodesKnown(g) then Some(AbiMismatch)
    else None
  }

  function DecodePage(b: seq<Byte>): Result<PageSnapshot> {
    var e := CheckHeader(b);
    if e.Some? then Err(e.value) else DecodeWords(ReadWords(b), b[232..488])
  }

  /** The field checks and the body, from the field words and the name field. */
  function DecodeWords(g: Words, name: seq<Byte>): Result<PageSnapshot>
    requires |name| == NODE_NAME_BYTES
  {
    var e := CheckFields(g);
    if e.Some? then Err(e.value) else Ok(DecodeBody(g, name[..g(NodeNameLen)]))
  }

  /** A page image whose body bytes are those of the encoded snapshot. */
  ghost predicate SameBody(b: seq<Byte>, s: PageSnapshot)
    requires Encodable(s)
  {
    |b| >= BODY_END && SameBytes(b, PageBytes(s))
  }

  predicate SameBytes(b: seq<Byte>, p: seq<Byte>)
    requires |b| >= BODY_END && |p| >= BODY_END
  {
    forall i :: PAGE_HEADER_SIZE <= i < BODY_END ==> b[i] == p[i]
  }

  lemma SameSlice(b: seq<Byte>, p: seq<Byte>, lo: nat, hi: nat)
    requires |b| >= BODY_END && |p| >= BODY_END && PAGE_HEADER_SIZE <= lo <= hi <= BODY_END && SameBytes(b, p)
    ensures b[lo..hi] == p[lo..hi]
  {
  }

  lemma BodyRow(id: FieldId)
    requires ValidId(id) && HasGetter(id) && !InHeader(id)
    ensures RowOffset(Rank(id)) >= PAGE_HEADER_SIZE && RowOffset(Rank(id)) + RowAt(Rank(id)).size <= BODY_END
  {
    RowInPage(Rank(id));
  }

  lemma WordsShown(b: seq<Byte>, s: PageSnapshot)
    requires Encodable(s) && SameBody(b, s)
    ensures Shows(ReadWords(b), s)
  {
    forall id | ValidId(id) && HasGetter(id) && !InHeader(id) ensures Shown(ReadWords(b), s, id) {
      FieldRecovered(s, id);
      FieldSame(b, PageBytes(s), id);
      assert FieldWord(b, id) == Get(id, s).value;
    }
  }

  lemma FieldSame(b: seq<Byte>, p: seq<Byte>, id: FieldId)
    requires |b| >= BODY_END && |p| >= BODY_END && SameBytes(b, p)
    requires ValidId(id) && HasGetter(id) && !InHeader(id)
    ensures FieldValue(b, id) == FieldValue(p, id)
  {
    BodyRow(id);
    SameSlice(b, p, RowOffset(Rank(id)), RowOffset(Rank(id)) + RowAt(Rank(id)).size);
  }

  /** The header line of every encoded page is the one Resume formats. */
  lemma HeaderBytes(s: PageSnapshot)
    requires Encodable(s)
    ensures PageBytes(s)[..8] == MAGIC_BYTES
    ensures FromLittleEndian(PageBytes(s)[8..10]) == PAGE_ABI_MAJOR
    ensures FromLittleEndian(PageBytes(s)[10..12]) == ABI_MINOR
    ensures FromLittleEndian(PageBytes(s)[12..16]) == PAGE_HEADER_SIZE
    ensures FromLittleEndian(PageBytes(s)[16..20]) == BODY_SIZE
    ensures WordAt(PageBytes(s), SEQ_WORD) == 0
  {
    VersionBytes(s);
    OtherHeaderBytes(s);
    BodySizeBytes(s);
  }

  lemma VersionBytes(s: PageSnapshot)
    requires Encodable(s)
    ensures FromLittleEndian(PageBytes(s)[8..10]) == PAGE_ABI_MAJOR
    ensures FromLittleEndian(PageBytes(s)[10..12]) == ABI_MINOR
    ensures FromLittleEndian(PageBytes(s)[12..16]) == PAGE_HEADER_SIZE
  {
    FieldRecovered(s, AbiMajor);
    FieldRecovered(s, AbiMinor);
    FieldRecovered(s, HeaderSizeField);
  }

  lemma OtherHeaderBytes(s: PageSnapshot)
    requires Encodable(s)
    ensures PageBytes(s)[..8] == MAGIC_BYTES
    ensures WordAt(PageBytes(s), SEQ_WORD) == 0
  {
    RowKept(s, 0);
    FieldRecovered(s, SeqField);
  }

  lemma BodySizeBytes(s: PageSnapshot)
    requires Encodable(s)
    ensures FromLittleEndian(PageBytes(s)[16..20]) == BODY_SIZE
  {
    Powers();
    RowKept(s, 4);
    LittleEndianRoundTrip(BODY_SIZE, 4);
  }

  lemma NameRecovered(b: seq<Byte>, s: PageSnapshot)
    requires Encodable(s) && SameBody(b, s)
    ensures s.nodeName <= b[232..488]
  {
    RowKept(s, 12);
    SameSlice(b, PageBytes(s), 232, 488);
  }

  lemma FieldChecksPass(g: Words, s: PageSnapshot)
    requires Shows(g, s)
    ensures CheckFields(g).None? && g(NodeNameLen) == |s.nodeName|
  {
    IdentityShown(g, s);
    CodesShown(g, s);
    assert Shown(g, s, AppendedField(2));
  }

  lemma HeaderChecksPass(s: PageSnapshot)
    requires Encodable(s)
    ensures CheckHeader(PageBytes(s)).None?
  {
    HeaderBytes(s);
  }

  /** What a reader recovers from an encoded page is the normalised snapshot, for exactly the snapshots
  whose eviction deadline is not the sentinel second; that one is read back as no deadline. */
  lemma PageRoundTrip(s: PageSnapshot)
    requires Encodable(s)
    ensures DecodePage(PageBytes(s)) == Ok(Recovered(s))
    ensures DecodePage(PageBytes(s)) == Ok(Normalised(s)) <==> !DeadlineIsSentinel(s)
  {
    HeaderChecksPass(s);
    BodyDecodes(PageBytes(s), s);
  }

  /** Any page image that passes the header checks and holds the body of an encoded snapshot decodes to it. */
  lemma BodyDecodes(b: seq<Byte>, s: PageSnapshot)
    requires Encodable(s) && SameBody(b, s) && CheckHeader(b).None?
    ensures DecodePage(b) == Ok(Recovered(s))
  {
    WordsShown(b, s);
    NameRecovered(b, s);
    ShownDecodes(ReadWords(b), b[232..488], s);
  }

  lemma ShownDecodes(g: Words, name: seq<Byte>, s: PageSnapshot)
    requires Shows(g, s) && |name| == NODE_NAME_BYTES && s.nodeName <= name
    ensures DecodeWords(g, name) == Ok(Recovered(s))
  {
    FieldChecksPass(g, s);
    DecodeWordsParts(g, name, s.nodeName);
    BodyShown(g, s);
  }

  lemma DecodeWordsParts(g: Words, name: seq<Byte>, front: seq<Byte>)
    requires |name| == NODE_NAME_BYTES && front <= name && CheckFields(g).None? && g(NodeNameLen) == |front|
    ensures DecodeWords(g, name) == Ok(DecodeBody(g, front))
  {
    assert name[..|front|] == front;
  }

  /** The exception is real: every snapshot the page carries is also carried with that deadline. */
  lemma SentinelDeadlineLost(s: PageSnapshot)
    requires Encodable(s)
    ensures var s' := s.(evictDeadline := Some(Time(PAGE_ABSENT, 0)));
            Encodable(s') && DecodePage(PageBytes(s')) == Ok(Normalised(s').(evictDeadline := None))
  {
    var s' := s.(evictDeadline := Some(Time(PAGE_ABSENT, 0)));
    forall id | ValidId(id) ensures Carries(id, s') {
      assert Carries(id, s);
    }
    PageRoundTrip(s');
  }
}
