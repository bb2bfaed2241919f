/** PageWriter over a mapped page: the stores Resume and Publish make, word by word and in order. */
module PageWriting {
  import opened Vocabulary
  import opened PageWords
  import opened Snapshot
  import opened PageLayout
  import opened PageFields
  import opened PageCodec
  import Protocol = PageProtocol

  // ----- the header words -----

  lemma {:induction false} FromLittleEndianConcat(a: seq<Byte>, b: seq<Byte>)
    ensures FromLittleEndian(a + b) == FromLittleEndian(a) + Power256(|a|) * FromLittleEndian(b)
  {
    if a == [] {
      assert a + b == b;
    } else {
      FromLittleEndianConcat(a[1..], b);
      assert (a + b)[1..] == a[1..] + b;
      Regroup(a[0], FromLittleEndian(a[1..]), Power256(|a| - 1), FromLittleEndian(b));
    }
  }

  lemma Regroup(x: nat, u: nat, p: nat, y: nat)
    ensures x + 256 * (u + p * y) == (x + 256 * u) + (256 * p) * y
  {
    assert 256 * (p * y) == (256 * p) * y;
  }

  lemma {:induction false} FromZeros(bs: seq<Byte>)
    requires forall i :: 0 <= i < |bs| ==> bs[i] == 0
    ensures FromLittleEndian(bs) == 0
  {
    if bs != [] {
      FromZeros(bs[1..]);
    }
  }

  lemma GapBytes(s: PageSnapshot, from: nat, to: nat)
    requires Encodable(s) && 20 <= from <= to <= 64
    ensures FromLittleEndian(PageBytes(s)[from..to]) == 0
  {
    EncodableCarries(s);
    ChunksFit(s, FIELDS);
    var cs := Chunks(s, FIELDS);
    forall b | from <= b < to ensures PageBytes(s)[b] == 0 {
      forall j | 0 <= j < |cs| ensures b < cs[j].off || cs[j].off + |cs[j].bytes| <= b {
        if j < 4 { RowsDisjoint(j, 4); } else if j > 5 { RowsDisjoint(5, j); }
      }
      GapKept(cs, b);
    }
    FromZeros(PageBytes(s)[from..to]);
  }

  lemma MagicWord()
    ensures FromLittleEndian(MAGIC_BYTES) == MAGIC_WORD
  {
    var m := MAGIC_BYTES;
    assert m == [0x4B, 0x33] + ([0x53, 0x4D] + ([0x42, 0x44] + [0x47, 0x54]));
    FromLittleEndianConcat([0x4B, 0x33], [0x53, 0x4D] + ([0x42, 0x44] + [0x47, 0x54]));
    FromLittleEndianConcat([0x53, 0x4D], [0x42, 0x44] + [0x47, 0x54]);
    FromLittleEndianConcat([0x42, 0x44], [0x47, 0x54]);
    Pair(0x4B, 0x33);
    Pair(0x53, 0x4D);
    Pair(0x42, 0x44);
    Pair(0x47, 0x54);
    Powers();
  }

  lemma Pair(x: Byte, y: Byte)
    ensures FromLittleEndian([x, y]) == x + 256 * y
  {
    assert [x, y][1..] == [y] && [y][1..] == [];
    assert FromLittleEndian([y]) == y + 256 * FromLittleEndian([]);
  }

  lemma VersionWords(s: PageSnapshot)
    requires Encodable(s)
    ensures WordAt(PageBytes(s), 1) == PackMinorWord(ABI_MINOR)
    ensures WordAt(PageBytes(s), 2) == BODY_SIZE
  {
    var p := PageBytes(s);
    HeaderBytes(s);
    Powers();
    assert p[8..16] == p[8..10] + (p[10..12] + p[12..16]);
    FromLittleEndianConcat(p[8..10], p[10..12] + p[12..16]);
    FromLittleEndianConcat(p[10..12], p[12..16]);
    assert p[16..24] == p[16..20] + p[20..24];
    FromLittleEndianConcat(p[16..20], p[20..24]);
    GapBytes(s, 20, 24);
  }

  /** Every encoded page opens with the header line of this minor. */
  lemma HeaderWordsAre(s: PageSnapshot, i: nat)
    requires Encodable(s) && i < HEADER_WORDS
    ensures WordAt(PageBytes(s), i) == FreshHeader(ABI_MINOR, BODY_SIZE)[i]
  {
    if i == 0 {
      OpeningWord(s);
    } else if i < 3 {
      VersionWords(s);
    } else {
      SpareWord(s, i);
    }
  }

  lemma OpeningWord(s: PageSnapshot)
    requires Encodable(s)
    ensures WordAt(PageBytes(s), 0) == MAGIC_WORD
  {
    HeaderBytes(s);
    MagicWord();
  }

  lemma SpareWord(s: PageSnapshot, i: nat)
    requires Encodable(s) && 3 <= i < HEADER_WORDS
    ensures WordAt(PageBytes(s), i) == 0
  {
    GapBytes(s, 8 * i, 8 * i + 8);
  }

  /** The snapshot encodeHeader encodes for its header line alone. */
  const HEADER_SNAPSHOT: PageSnapshot := PageSnapshot(
    0, 1, [0x2D], Time(1, 0), LINUX,
    Capacity(None, None, None, None, None, None, None, None, None, None, None, None), "ok",
    None, Some(LinuxSignals(None, None)), [], false, "", None, KillMode("", false, 0, ""),
    Recommendation(None, ""), [])

  lemma HeaderSnapshotEncodable()
    ensures Encodable(HEADER_SNAPSHOT)
  {
    var s := HEADER_SNAPSHOT;
    assert s.platform == PLATFORMS[1] && s.level == LEVELS[0];
    forall id | ValidId(id) ensures Carries(id, s) {
    }
  }

  // ----- the writer -----

  /** n words of an encoded page from word i on. */
  function WordsOf(b: seq<Byte>, i: nat, n: nat): (ws: seq<Word>)
    requires 8 * (i + n) <= |b|
    ensures |ws| == n
    ensures forall k :: 0 <= k < n ==> ws[k] == WordAt(b, i + k)
  {
    seq<Word>(n, k requires 0 <= k < n => WordAt(b, i + k))
  }

  /** The body words of a publication. */
  ghost function Body(s: PageSnapshot): (body: seq<Word>)
    requires Encodable(s)
    ensures |body| == Protocol.BodyWords(BODY_SIZE)
  {
    WordsOf(PageBytes(s), BODY_WORD, BODY_SIZE / 8)
  }

  class PageWriter {
    const page: array<Word>
    var seqWord: Word
    var epoch: Word
    var resumed: bool
    var last: NotifyKey
    var hasLast: bool
    /** Every store made, in order. */
    ghost var trace: seq<Store>
    /** The snapshot last accepted since the last resume. */
    ghost var accepted: Option<PageSnapshot>

    ghost predicate Valid()
      reads this
    {
      && page.Length == PAGE_WORDS
      && hasLast == accepted.Some?
      && (hasLast ==> last == NotifyKeyOf(accepted.value))
    }

    /** The writer as the protocol sees it between two calls. */
    ghost function AsWriter(): Protocol.Writer
      reads this
    {
      Protocol.Writer(ABI_MINOR, seqWord, epoch, resumed, if hasLast then Some(last) else None, Protocol.Idle)
    }

    constructor (mapped: array<Word>)
      requires mapped.Length == PAGE_WORDS
      ensures Valid() && page == mapped && !resumed && trace == []
    {
      page := mapped;
      seqWord, epoch, resumed, hasLast := 0, 0, false, false;
      last := NotifyKey("", false, 0, []);
      trace, accepted := [], None;
    }

    /** The first k of the given stores have been made on the page as it was before, after made. */
    ghost predicate Did(before: Page, stores: seq<Store>, made: seq<Store>, k: nat)
      requires InPage(stores) && k <= |stores|
      reads this, page
    {
      page[..] == ApplyAll(before, stores[..k]) && trace == made + stores[..k]
    }

    /** One atomic store, the next of the given ones. */
    method StoreWord(i: nat, v: Word, ghost before: Page, ghost stores: seq<Store>, ghost made: seq<Store>, ghost k: nat)
      requires Valid() && InPage(stores) && k < |stores| && Did(before, stores, made, k) && stores[k] == Store(i, v)
      modifies page, this`trace
      ensures Did(before, stores, made, k + 1)
    {
      ApplyOneMore(before, stores, k);
      page[i] := v;
      trace := trace + [Store(i, v)];
      assert stores[..k + 1] == stores[..k] + [stores[k]];
    }

    /** Resume's loads: the seq and notifyEpoch to continue, and whether the body shrinks. */
    method LoadHeader() returns (shrinks: bool)
      requires Valid()
      modifies this`seqWord, this`epoch
      ensures seqWord == Protocol.Resumed(page[..], ABI_MINOR).seqWord
      ensures epoch == Protocol.Resumed(page[..], ABI_MINOR).epoch
      ensures shrinks == Shrinks(page[..], BODY_SIZE)
    {
      ghost var p: Page := page[..];
      seqWord, epoch := 0, 0;
      shrinks := false;
      if page[0] == MAGIC_WORD && Major(page[1]) == PAGE_ABI_MAJOR && HeaderSize(page[1]) == PAGE_HEADER_SIZE {
        assert Recognised(p);
        shrinks := BodySize(page[2]) > BODY_SIZE;
        seqWord := page[SEQ_WORD];
        epoch := page[EPOCH_WORD];
        if seqWord % 2 == 1 {
          seqWord := Wrap(seqWord + 1);
        }
      }
    }

    /** encodeHeader: the header line of an encoded page. */
    static method FormatHeader() returns (e: Option<PageError>, header: seq<Word>)
      ensures e.None? && header == FreshHeader(ABI_MINOR, BODY_SIZE)
    {
      var page := new Byte[PAGE_SIZE](_ => 0);
      e := EncodePage(page, HEADER_SNAPSHOT);
      HeaderSnapshotEncodable();
      assert page[..] == PageBytes(HEADER_SNAPSHOT);
      forall i | 0 <= i < HEADER_WORDS
        ensures WordAt(page[..], i) == FreshHeader(ABI_MINOR, BODY_SIZE)[i]
      {
        HeaderWordsAre(HEADER_SNAPSHOT, i);
      }
      header := WordsOf(page[..], 0, HEADER_WORDS);
    }

    /** The body words of a snapshot, or why the page cannot carry it. */
    static method EncodeBody(s: PageSnapshot) returns (e: Option<PageError>, body: seq<Word>)
      ensures e.None? <==> Encodable(s)
      ensures e.None? ==> body == Body(s)
    {
      var scratch := new Byte[PAGE_SIZE](_ => 0);
      e := EncodePage(scratch, s);
      body := [];
      if e.None? {
        assert scratch[..] == PageBytes(s);
        body := WordsOf(scratch[..], BODY_WORD, BODY_SIZE / 8);
      }
    }

    /** The order of the header stores, built from the top word down. */
    static method HeaderOrder(shrinks: bool) returns (order: seq<nat>)
      ensures order == ResumeOrder(shrinks)
    {
      order := [];
      for off := HEADER_WORDS downto 1
        invariant order == [7, 6, 5, 4, 3][..if off > 3 then 8 - off else 5]
      {
        if off != 1 && off != 2 {
          order := order + [off];
        }
      }
      order := order + (if shrinks then [1, 2] else [2, 1]) + [0];
    }

    method StoreHeader(header: seq<Word>, order: seq<nat>, ghost before: Page)
      requires Valid() && page[..] == before && order == ResumeOrder(Shrinks(before, BODY_SIZE))
      requires header == FreshHeader(ABI_MINOR, BODY_SIZE)
      modifies page, this`trace
      ensures page[..] == ApplyAll(before, ResumeStores(before, ABI_MINOR, BODY_SIZE))
      ensures trace == old(trace) + ResumeStores(before, ABI_MINOR, BODY_SIZE)
    {
      ghost var stores := ResumeStores(before, ABI_MINOR, BODY_SIZE);
      for k := 0 to |order|
        invariant Did(before, stores, old(trace), k)
      {
        StoreWord(order[k], header[order[k]], before, stores, old(trace), k);
      }
      assert stores[..|order|] == stores;
    }

    /** Resume never fails and makes exactly the protocol's header stores. */
    method Resume() returns (e: Option<PageError>)
      requires Valid()
      modifies this, page
      ensures Valid() && e.None?
      ensures page[..] == ApplyAll(old(page[..]), ResumeStores(old(page[..]), ABI_MINOR, BODY_SIZE))
      ensures trace == old(trace) + ResumeStores(old(page[..]), ABI_MINOR, BODY_SIZE)
      ensures AsWriter() == Protocol.Resumed(old(page[..]), ABI_MINOR).(resumed := true, act := Protocol.Idle)
    {
      ghost var before: Page := page[..];
      var shrinks := LoadHeader();
      var header;
      e, header := FormatHeader();
      var order := HeaderOrder(shrinks);
      StoreHeader(header, order, before);
      resumed, hasLast := true, false;
      accepted := None;
    }

    /** Publish makes exactly the protocol's stores for an encodable snapshot and none for another;
    notifyEpoch moves exactly when PageNotifyDue says so of the previous accepted snapshot. */
    method Publish(s: PageSnapshot) returns (e: Option<PageError>)
      requires Valid()
      modifies this, page
      ensures Valid()
      ensures e.None? <==> old(resumed) && Encodable(s)
      ensures e.Some? ==> page[..] == old(page[..]) && trace == old(trace) && AsWriter() == old(AsWriter())
      ensures e.None? ==>
                var due := NotifyDue(old(accepted), s);
                var stores := PublishStores(old(seqWord), old(epoch), Body(s), due);
                && page[..] == ApplyAll(old(page[..]), stores) && trace == old(trace) + stores
                && accepted == Some(s)
                && AsWriter() == old(AsWriter()).(seqWord := Wrap(old(seqWord) + 2),
                                                  epoch := if due then Wrap(old(epoch) + 1) else old(epoch),
                                                  last := Some(NotifyKeyOf(s)))
    {
      if !resumed {
        return Some(WriterNotResumed);
      }
      var body;
      e, body := EncodeBody(s);
      if e.Some? {
        return;
      }
      PublishWords(s, body);
    }

    /** The stores of an encoded snapshot, and what the writer remembers of it. */
    method PublishWords(s: PageSnapshot, body: seq<Word>)
      requires Valid() && |body| == BODY_SIZE / 8
      modifies this, page
      ensures Valid() && accepted == Some(s)
      ensures page[..] == ApplyAll(old(page[..]), PublishStores(old(seqWord), old(epoch), body, NotifyDue(old(accepted), s)))
      ensures trace == old(trace) + PublishStores(old(seqWord), old(epoch), body, NotifyDue(old(accepted), s))
      ensures AsWriter() == old(AsWriter()).(
                seqWord := Wrap(old(seqWord) + 2),
                epoch := if NotifyDue(old(accepted), s) then Wrap(old(epoch) + 1) else old(epoch),
                last := Some(NotifyKeyOf(s)))
    {
      var key := ComputeNotifyKey(s);
      StoreAll(body, !hasLast || key != last);
      last, hasLast := key, true;
      accepted := Some(s);
    }

    method StoreAll(body: seq<Word>, due: bool)
      requires Valid() && |body| == BODY_SIZE / 8
      modifies page, this`trace, this`seqWord, this`epoch
      ensures page[..] == ApplyAll(old(page[..]), PublishStores(old(seqWord), old(epoch), body, due))
      ensures trace == old(trace) + PublishStores(old(seqWord), old(epoch), body, due)
      ensures seqWord == Wrap(old(seqWord) + 2) && epoch == if due then Wrap(old(epoch) + 1) else old(epoch)
    {
      ghost var before: Page, made := page[..], trace;
      ghost var stores := PublishStores(seqWord, epoch, body, due);
      assert stores[..0] == [] && made + [] == made;
      assert Did(before, stores, made, 0);
      StoreWord(SEQ_WORD, Wrap(seqWord + 1), before, stores, made, 0);
      StoreBody(body, before, stores, made);
      StoreTail(due, before, stores, made);
      assert stores[..|stores|] == stores;
    }

    /** The loop over the body: each word from the header's end to the body's end is stored once. */
    method StoreBody(body: seq<Word>, ghost before: Page, ghost stores: seq<Store>, ghost made: seq<Store>)
      requires Valid() && |body| == BODY_SIZE / 8 && InPage(stores) && |stores| >= |body| + 2
      requires forall i :: 0 <= i < |body| ==> stores[i + 1] == Store(BODY_WORD + i, body[i])
      requires Did(before, stores, made, 1)
      modifies page, this`trace
      ensures Did(before, stores, made, |body| + 1)
    {
      var off := PAGE_HEADER_SIZE;
      while off < BODY_END
        invariant PAGE_HEADER_SIZE <= off <= BODY_END && off % 8 == 0
        invariant Did(before, stores, made, off / 8 - BODY_WORD + 1)
      {
        var i := off / 8 - BODY_WORD;
        assert stores[i + 1] == Store(BODY_WORD + i, body[i]);
        StoreWord(off / 8, body[i], before, stores, made, i + 1);
        off := off + 8;
      }
    }

    /** The even seq, then notifyEpoch when due. */
    method StoreTail(due: bool, ghost before: Page, ghost stores: seq<Store>, ghost made: seq<Store>)
      requires Valid() && InPage(stores) && |stores| == BODY_SIZE / 8 + (if due then 3 else 2)
      requires stores[BODY_SIZE / 8 + 1] == Store(SEQ_WORD, Wrap(seqWord + 2))
      requires due ==> stores[BODY_SIZE / 8 + 2] == Store(EPOCH_WORD, Wrap(epoch + 1))
      requires Did(before, stores, made, BODY_SIZE / 8 + 1)
      modifies page, this`trace, this`seqWord, this`epoch
      ensures Did(before, stores, made, |stores|)
      ensures seqWord == Wrap(old(seqWord) + 2) && epoch == if due then Wrap(old(epoch) + 1) else old(epoch)
    {
      seqWord := Wrap(seqWord + 2);
      StoreWord(SEQ_WORD, seqWord, before, stores, made, BODY_SIZE / 8 + 1);
      if due {
        epoch := Wrap(epoch + 1);
        StoreWord(EPOCH_WORD, epoch, before, stores, made, BODY_SIZE / 8 + 2);
      }
    }
  }

  // ----- the protocol's steps are these stores -----

  /** While an activity runs uninterrupted, the page after its first k stores is the stores applied in
  order: a call of the class is the protocol's run of it. */
  lemma {:induction false} UninterruptedStores(sizes: Protocol.Sizes, run: seq<Protocol.State>, events: seq<Protocol.Event>, i: nat, k: nat)
    requires Protocol.Run(sizes, run, events) && i + k < |run|
    requires run[i].writer.Some? && Protocol.WriterFits(sizes, run[i].writer.value) && Protocol.Done(run[i].writer.value) == 0
    requires forall j :: i <= j < i + k ==> events[j] == Protocol.DoStore
    ensures k <= |Protocol.Stores(sizes, run[i].writer.value)|
    ensures run[i + k].page == ApplyAll(run[i].page, Protocol.Stores(sizes, run[i].writer.value)[..k])
    ensures run[i + k].writer.Some? && Protocol.WriterFits(sizes, run[i + k].writer.value)
    ensures Protocol.Stores(sizes, run[i + k].writer.value) == Protocol.Stores(sizes, run[i].writer.value)
    ensures Protocol.Done(run[i + k].writer.value) == k
  {
    if k > 0 {
      UninterruptedStores(sizes, run, events, i, k - 1);
      var s := run[i + k - 1];
      assert events[i + k - 1] == Protocol.DoStore;
      assert Protocol.Enabled(sizes, s, Protocol.DoStore) && run[i + k - 1 + 1] == Protocol.Next(sizes, s, Protocol.DoStore);
      ApplyOneMore(run[i].page, Protocol.Stores(sizes, run[i].writer.value), k - 1);
    }
  }
}
