/** The header a reader can find is valid at every point of every run, and what a reader that loads
its two version words separately can make of it. */
module HeaderValidity {
  import opened Vocabulary
  import opened PageWords
  import opened PageProtocol

  /** A header taken as this ABI declares at least the body of its own minor. */
  ghost predicate HeaderOk(sizes: Sizes, page: Page) {
    Recognised(page) ==> BodySize(page[2]) >= sizes(Minor(page[1]))
  }

  ghost predicate KnownMinor(sizes: Sizes, minor: nat) {
    minor < SHORT_LIMIT && sizes(minor) <= PAGE_BODY_LIMIT - PAGE_HEADER_SIZE
  }

  /** The store, counted from 0, that writes header word i. */
  function StoredAt(shrinks: bool, i: nat): nat
    requires i < HEADER_WORDS
  {
    if i >= 3 then 7 - i
    else if i == 0 then 7
    else if (i == 1) == shrinks then 5
    else 6
  }

  lemma OrderPositions(shrinks: bool, i: nat, k: nat)
    requires i < HEADER_WORDS && k < HEADER_WORDS
    ensures ResumeOrder(shrinks)[k] == i <==> k == StoredAt(shrinks, i)
  {
  }

  /** The page after the first k stores of a resume. */
  ghost function MidResume(sizes: Sizes, base: Page, minor: nat, k: nat): Page
    requires KnownMinor(sizes, minor) && k <= HEADER_WORDS
  {
    ApplyAll(base, ResumeStores(base, minor, sizes(minor))[..k])
  }

  /** Each header word changes at most once in a resume, at its own store; nothing else changes. */
  lemma {:induction false} MidResumeWords(sizes: Sizes, base: Page, minor: nat, k: nat, i: nat)
    requires KnownMinor(sizes, minor) && k <= HEADER_WORDS && i < PAGE_WORDS
    ensures MidResume(sizes, base, minor, k)[i] ==
            if i < HEADER_WORDS && StoredAt(Shrinks(base, sizes(minor)), i) < k
            then FreshHeader(minor, sizes(minor))[i] else base[i]
  {
    if k > 0 {
      var stores := ResumeStores(base, minor, sizes(minor));
      ApplyOneMore(base, stores, k - 1);
      MidResumeWords(sizes, base, minor, k - 1, i);
      if i < HEADER_WORDS {
        OrderPositions(Shrinks(base, sizes(minor)), i, k - 1);
      }
    }
  }

  lemma MidResumeRecognised(sizes: Sizes, base: Page, minor: nat, k: nat)
    requires KnownMinor(sizes, minor) && k <= HEADER_WORDS
    ensures Recognised(base) || k == HEADER_WORDS ==> Recognised(MidResume(sizes, base, minor, k))
  {
    MidResumeWords(sizes, base, minor, k, 0);
    MidResumeWords(sizes, base, minor, k, 1);
    PackedFields(minor);
  }

  /** Every intermediate header of a resume over a valid one is valid: the store order's purpose. */
  lemma MidResumeValid(sizes: Sizes, base: Page, minor: nat, k: nat)
    requires KnownMinor(sizes, minor) && k <= HEADER_WORDS && HeaderOk(sizes, base)
    ensures HeaderOk(sizes, MidResume(sizes, base, minor, k))
  {
    MidResumeWords(sizes, base, minor, k, 0);
    MidResumeWords(sizes, base, minor, k, 1);
    MidResumeWords(sizes, base, minor, k, 2);
    PackedFields(minor);
  }

  // ----- whole runs -----

  /** While a writer resumes, the page is the one it found plus the stores it has made. */
  ghost predicate ResumeInv(sizes: Sizes, s: State) {
    s.writer.Some? && s.writer.value.act.Resuming? ==>
      var w := s.writer.value;
      && KnownMinor(sizes, w.minor) && w.act.done <= HEADER_WORDS
      && s.page == MidResume(sizes, w.act.base, w.minor, w.act.done)
  }

  lemma ResumeStep(sizes: Sizes, s: State, e: Event)
    requires Enabled(sizes, s, e) && ResumeInv(sizes, s)
    ensures ResumeInv(sizes, Next(sizes, s, e))
  {
    if e.DoStore? {
      var w := s.writer.value;
      if w.act.Resuming? {
        ApplyOneMore(w.act.base, Stores(sizes, w), w.act.done);
      }
    }
  }

  lemma {:induction false} ResumeInvAt(sizes: Sizes, run: seq<State>, events: seq<Event>, i: nat)
    requires Run(sizes, run, events) && i < |run|
    ensures ResumeInv(sizes, run[i])
  {
    if i > 0 {
      ResumeInvAt(sizes, run, events, i - 1);
      ResumeStep(sizes, run[i - 1], events[i - 1]);
    }
  }

  ghost predicate HeaderInv(sizes: Sizes, s: State) {
    && HeaderOk(sizes, s.page)
    && ResumeInv(sizes, s)
    && (s.writer.Some? && s.writer.value.act.Resuming? ==> HeaderOk(sizes, s.writer.value.act.base))
  }

  lemma HeaderStep(sizes: Sizes, s: State, e: Event)
    requires Enabled(sizes, s, e) && HeaderInv(sizes, s)
    ensures HeaderInv(sizes, Next(sizes, s, e))
  {
    ResumeStep(sizes, s, e);
    if e.DoStore? && s.writer.value.act.Resuming? {
      var w := s.writer.value;
      MidResumeValid(sizes, w.act.base, w.minor, w.act.done + 1);
    }
  }

  lemma {:induction false} HeaderInvAt(sizes: Sizes, run: seq<State>, events: seq<Event>, i: nat)
    requires Run(sizes, run, events) && i < |run| && HeaderOk(sizes, run[0].page)
    ensures HeaderInv(sizes, run[i])
  {
    if i > 0 {
      HeaderInvAt(sizes, run, events, i - 1);
      HeaderStep(sizes, run[i - 1], events[i - 1]);
    }
  }

  /** With writers of any minors resuming in any order and dying after any store, a page whose first
  header was unrecognised or valid never shows a recognised header with too small a body. */
  lemma HeaderAlwaysValid(sizes: Sizes, run: seq<State>, events: seq<Event>, i: nat)
    requires Run(sizes, run, events) && i < |run|
    requires Recognised(run[0].page) ==> BodySize(run[0].page[2]) >= sizes(Minor(run[0].page[1]))
    ensures Recognised(run[i].page) ==> BodySize(run[i].page[2]) >= sizes(Minor(run[i].page[1]))
  {
    HeaderInvAt(sizes, run, events, i);
  }

  /** A recognised page stays recognised: no crash or resume ever hides it from its readers. */
  lemma {:induction false} StaysRecognised(sizes: Sizes, run: seq<State>, events: seq<Event>, i: nat, j: nat)
    requires Run(sizes, run, events) && i <= j < |run| && Recognised(run[i].page)
    ensures Recognised(run[j].page)
    decreases j
  {
    if i < j {
      StaysRecognised(sizes, run, events, i, j - 1);
      RecognisedNext(sizes, run, events, j);
    }
  }

  lemma {:induction false} RecognisedNext(sizes: Sizes, run: seq<State>, events: seq<Event>, i: nat)
    requires Run(sizes, run, events) && 0 < i < |run| && Recognised(run[i - 1].page)
    ensures Recognised(run[i].page)
  {
    RecognisedStep(sizes, run[i - 1], events[i - 1]);
  }

  lemma RecognisedStep(sizes: Sizes, s: State, e: Event)
    requires Enabled(sizes, s, e) && Recognised(s.page)
    ensures Recognised(Next(sizes, s, e).page)
  {
    if e.DoStore? {
      var store := Stores(sizes, s.writer.value)[Done(s.writer.value)];
      assert Next(sizes, s, e).page == s.page[store.index := store.value];
      StoreKeepsIdentity(sizes, s.writer.value, Done(s.writer.value));
    }
  }

  /** What a store puts in the two identifying words is what this ABI expects there. */
  lemma StoreKeepsIdentity(sizes: Sizes, w: Writer, k: nat)
    requires WriterFits(sizes, w) && k < |Stores(sizes, w)|
    ensures var store := Stores(sizes, w)[k];
            && (store.index == 0 ==> store.value == MAGIC_WORD)
            && (store.index == 1 ==> Major(store.value) == PAGE_ABI_MAJOR && HeaderSize(store.value) == PAGE_HEADER_SIZE)
  {
    PackedFields(w.minor);
    if w.act.Publishing? {
      PublishStoresLow(w.seqWord, w.epoch, w.act.pub.body, w.act.due, k);
    }
  }

  lemma PublishStoresLow(seqWord: Word, epoch: Word, body: seq<Word>, due: bool, k: nat)
    requires |body| <= PAGE_WORDS - BODY_WORD && k < |PublishStores(seqWord, epoch, body, due)|
    ensures PublishStores(seqWord, epoch, body, due)[k].index >= HEADER_WORDS
  {
    var stores := PublishStores(seqWord, epoch, body, due);
    if 1 <= k <= |body| {
      assert stores[k - 1 + 1] == Store(BODY_WORD + k - 1, body[k - 1]);
    }
  }

  // ----- a reader's two loads -----

  /** What a reader derives from the two version words. */
  datatype Pair = Pair(minor: nat, size: nat)

  ghost function PairAt(sizes: Sizes, base: Page, minor: nat, k: nat): Pair
    requires KnownMinor(sizes, minor) && k <= HEADER_WORDS
  {
    var page := MidResume(sizes, base, minor, k);
    Pair(Minor(page[1]), BodySize(page[2]))
  }

  /** One header read during a resume: the abiMinor word is loaded after k1 stores and the bodySize
  word after k2. */
  ghost function ReadPair(sizes: Sizes, base: Page, minor: nat, k1: nat, k2: nat): Pair
    requires KnownMinor(sizes, minor) && k1 <= k2 <= HEADER_WORDS
  {
    Pair(PairAt(sizes, base, minor, k1).minor, PairAt(sizes, base, minor, k2).size)
  }

  /** The three pairs a resume goes through. */
  ghost function OldPair(base: Page): Pair {
    Pair(Minor(base[1]), BodySize(base[2]))
  }

  ghost function NewPair(sizes: Sizes, minor: nat): Pair {
    Pair(minor, sizes(minor))
  }

  ghost function BetweenPair(sizes: Sizes, base: Page, minor: nat): Pair {
    if Shrinks(base, sizes(minor)) then Pair(minor, BodySize(base[2])) else Pair(Minor(base[1]), sizes(minor))
  }

  lemma PairsHeld(sizes: Sizes, base: Page, minor: nat, k: nat)
    requires KnownMinor(sizes, minor) && k <= HEADER_WORDS
    ensures PairAt(sizes, base, minor, k) ==
            if k <= 5 then OldPair(base)
            else if k == 6 then BetweenPair(sizes, base, minor)
            else NewPair(sizes, minor)
  {
    MidResumeWords(sizes, base, minor, k, 1);
    MidResumeWords(sizes, base, minor, k, 2);
    PackedFields(minor);
  }

  /** Two identical consecutive reads are a pair the page held between the two: the old one, the one
  in between, or the new one. */
  lemma StableHeaderRead(sizes: Sizes, base: Page, minor: nat, k1: nat, k2: nat, k3: nat, k4: nat)
    requires KnownMinor(sizes, minor) && k1 <= k2 <= k3 <= k4 <= HEADER_WORDS
    requires ReadPair(sizes, base, minor, k1, k2) == ReadPair(sizes, base, minor, k3, k4)
    ensures exists k :: k1 <= k <= k4 && ReadPair(sizes, base, minor, k1, k2) == PairAt(sizes, base, minor, k)
    ensures ReadPair(sizes, base, minor, k1, k2) in
            {OldPair(base), BetweenPair(sizes, base, minor), NewPair(sizes, minor)}
  {
    PairsHeld(sizes, base, minor, k1);
    PairsHeld(sizes, base, minor, k2);
    PairsHeld(sizes, base, minor, k3);
    PairsHeld(sizes, base, minor, k4);
    assert ReadPair(sizes, base, minor, k1, k2) == PairAt(sizes, base, minor, k2);
  }

  /** A reader loads the magic word after k0 stores of a resume, the abiMinor word after k1 and the
  bodySize word after k2. It takes the header as this ABI and finds too small a body. */
  ghost predicate ReadsTruncated(sizes: Sizes, base: Page, minor: nat, k0: nat, k1: nat, k2: nat)
    requires KnownMinor(sizes, minor) && k0 <= k1 <= k2 <= HEADER_WORDS
  {
    var version := MidResume(sizes, base, minor, k1)[1];
    && MidResume(sizes, base, minor, k0)[0] == MAGIC_WORD
    && Major(version) == PAGE_ABI_MAJOR && HeaderSize(version) == PAGE_HEADER_SIZE
    && BodySize(MidResume(sizes, base, minor, k2)[2]) < sizes(Minor(version))
  }

  /** A read over any page, fresh, of another ABI or valid, reports truncated in exactly one case: a
  rollback to a body smaller than the old minor's, the abiMinor word loaded before its store and the
  bodySize word after its own. */
  lemma TruncatedOnlyInRollback(sizes: Sizes, base: Page, minor: nat, k0: nat, k1: nat, k2: nat)
    requires KnownMinor(sizes, minor) && k0 <= k1 <= k2 <= HEADER_WORDS && HeaderOk(sizes, base)
    ensures ReadsTruncated(sizes, base, minor, k0, k1, k2) <==>
            Shrinks(base, sizes(minor)) && k1 <= 5 && k2 >= 7 && sizes(minor) < sizes(Minor(base[1]))
  {
    MidResumeWords(sizes, base, minor, k0, 0);
    MidResumeWords(sizes, base, minor, k1, 1);
    MidResumeWords(sizes, base, minor, k2, 2);
    PackedFields(minor);
  }

  /** The header words at any two moments of one Resume of a run are those of a ReadPair. */
  lemma ReadPairInRun(sizes: Sizes, run: seq<State>, events: seq<Event>, i: nat, j: nat)
    requires Run(sizes, run, events) && i <= j < |run|
    requires run[i].writer.Some? && run[i].writer.value.act.Resuming?
    requires run[j].writer.Some? && run[j].writer.value.act.Resuming?
    requires run[i].writer.value.act.base == run[j].writer.value.act.base
    requires run[i].writer.value.minor == run[j].writer.value.minor
    requires run[i].writer.value.act.done <= run[j].writer.value.act.done
    ensures KnownMinor(sizes, run[i].writer.value.minor) && run[j].writer.value.act.done <= HEADER_WORDS
    ensures Pair(Minor(run[i].page[1]), BodySize(run[j].page[2]))
         == ReadPair(sizes, run[i].writer.value.act.base, run[i].writer.value.minor,
                     run[i].writer.value.act.done, run[j].writer.value.act.done)
  {
    ResumeInvAt(sizes, run, events, i);
    ResumeInvAt(sizes, run, events, j);
  }
}
