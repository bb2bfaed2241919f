/** A reader of the live page: the words of a stable read decode to the snapshot that was published. */
module LiveReader {
  import opened Vocabulary
  import opened PageWords
  import opened Snapshot
  import opened PageLayout
  import opened PageFields
  import opened PageDecode
  import opened PageCodec
  import opened PageWriting
  import opened PageProtocol
  import opened Readback
  import Seqlock = SeqlockSafety

  /** The bytes of words loaded one by one. */
  function BytesOf(ws: seq<Word>): (bs: seq<Byte>)
    ensures |bs| == 8 * |ws|
  {
    if ws == [] then [] else BytesOf(ws[..|ws| - 1]) + LittleEndian(ws[|ws| - 1], 8)
  }

  lemma LowByte(b: Byte, v: nat)
    ensures (b + 256 * v) % 256 == b && (b + 256 * v) / 256 == v
  {
  }

  lemma {:induction false} BytesBack(bs: seq<Byte>)
    ensures LittleEndian(FromLittleEndian(bs), |bs|) == bs
  {
    if bs != [] {
      BytesBack(bs[1..]);
      LowByte(bs[0], FromLittleEndian(bs[1..]));
      assert bs == [bs[0]] + bs[1..];
    }
  }

  /** Loading words and writing them out again gives the bytes of the page. */
  lemma {:induction false} BytesOfWords(b: seq<Byte>, i: nat, n: nat)
    requires 8 * (i + n) <= |b|
    ensures BytesOf(WordsOf(b, i, n)) == b[8 * i..8 * (i + n)]
  {
    if n > 0 {
      var last := i + n - 1;
      BytesOfWords(b, i, n - 1);
      assert WordsOf(b, i, n)[..n - 1] == WordsOf(b, i, n - 1);
      BytesBack(b[8 * last..8 * last + 8]);
      Adjoin(b, 8 * i, 8 * last, 8 * last + 8);
    }
  }

  lemma Adjoin(b: seq<Byte>, lo: nat, mid: nat, hi: nat)
    requires lo <= mid <= hi <= |b|
    ensures b[lo..mid] + b[mid..hi] == b[lo..hi]
  {
  }

  /** The body words a stable read copied. */
  ghost function Copy(run: seq<State>, at: seq<nat>): (ws: seq<Word>)
    requires |at| <= PAGE_WORDS - BODY_WORD && forall w :: 0 <= w < |at| ==> at[w] < |run|
    ensures |ws| == |at|
  {
    seq<Word>(|at|, w requires 0 <= w < |at| => run[at[w]].page[BODY_WORD + w])
  }

  /** Whatever header line the reader took, if its checks pass, the words of a stable read decode to the
  snapshot last published. */
  lemma ReaderDecodes(sizes: Sizes, run: seq<State>, events: seq<Event>, i: nat, at: seq<nat>, k: nat,
                      header: seq<Byte>, s: PageSnapshot)
    requires Run(sizes, run, events) && Seqlock.SeqStart(run[0].page) && Seqlock.StableRead(run, i, at, k)
    requires |at| == BODY_SIZE / 8 && |header| == PAGE_HEADER_SIZE
    requires Encodable(s) && run[i].log != [] && Last(run[i]).body == Body(s)
    requires CheckHeader(header + BytesOf(Copy(run, at))).None?
    ensures DecodePage(header + BytesOf(Copy(run, at))) == Ok(Recovered(s))
  {
    Seqlock.SeqlockSafety(sizes, run, events, i, at, k);
    assert Copy(run, at) == Body(s);
    ImageOfBody(header, s);
    BodyDecodes(header + BytesOf(Body(s)), s);
  }

  lemma ImageOfBody(header: seq<Byte>, s: PageSnapshot)
    requires |header| == PAGE_HEADER_SIZE && Encodable(s)
    ensures SameBody(header + BytesOf(Body(s)), s)
  {
    BytesOfWords(PageBytes(s), BODY_WORD, BODY_SIZE / 8);
    ImageOf(header, BytesOf(Body(s)), PageBytes(s));
  }

  lemma ImageOf(header: seq<Byte>, bs: seq<Byte>, p: seq<Byte>)
    requires |header| == PAGE_HEADER_SIZE && |p| >= BODY_END && bs == p[PAGE_HEADER_SIZE..BODY_END]
    ensures |header + bs| >= BODY_END && SameBytes(header + bs, p)
  {
    assert forall i :: PAGE_HEADER_SIZE <= i < BODY_END ==> (header + bs)[i] == bs[i - PAGE_HEADER_SIZE];
  }

  /** Every publication of the run carries the body of an encodable snapshot. */
  ghost predicate PublishesSnapshots(events: seq<Event>) {
    forall j :: 0 <= j < |events| && events[j].StartPublish? ==> IsBody(events[j].pub.body)
  }

  ghost predicate IsBody(body: seq<Word>) {
    exists s :: Encodable(s) && body == Body(s)
  }

  /** In a run of writers of this minor, a stable read past the initial body is a published snapshot. */
  lemma ReaderGetsSnapshot(sizes: Sizes, run: seq<State>, events: seq<Event>, i: nat, at: seq<nat>, k: nat, header: seq<Byte>)
    returns (s: PageSnapshot)
    requires Run(sizes, run, events) && Seqlock.SeqStart(run[0].page) && Seqlock.StableRead(run, i, at, k)
    requires |at| == BODY_SIZE / 8 && |header| == PAGE_HEADER_SIZE && PublishesSnapshots(events)
    requires CheckHeader(header + BytesOf(Copy(run, at))).None?
    requires run[i].log != [] && Last(run[i]) !in run[0].log
    ensures Encodable(s) && Last(run[i]).body == Body(s) && Seqlock.Announced(events, i, Last(run[i]))
    ensures DecodePage(header + BytesOf(Copy(run, at))) == Ok(Recovered(s)) && SnapshotRead(Recovered(s), s)
  {
    Seqlock.SeqlockSafety(sizes, run, events, i, at, k);
    assert IsBody(Last(run[i]).body);
    s :| Encodable(s) && Last(run[i]).body == Body(s);
    ReaderDecodes(sizes, run, events, i, at, k, header, s);
    RecoveredRead(s);
  }
}
