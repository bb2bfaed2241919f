/** Seqlock safety over whole runs: a reader that loads an even seq, copies body words one by one at
any later moments and then loads the same seq holds the words of one publication. */
module SeqlockSafety {
  import opened Vocabulary
  import opened PageWords
  import opened PageProtocol
  import HV = HeaderValidity

  /** The starts that meet the seqlock: a page of this ABI, or one whose seq is 0 (a new file) or odd.
  Over any other page the first resume restarts seq below the value readers can already hold. */
  predicate SeqStart(page: Page) {
    Recognised(page) || page[SEQ_WORD] == 0 || page[SEQ_WORD] % 2 == 1
  }

  ghost predicate Holds(page: Page, body: seq<Word>, n: nat)
    requires n <= |body| <= PAGE_WORDS - BODY_WORD
  {
    forall w :: BODY_WORD <= w < BODY_WORD + n ==> page[w] == body[w - BODY_WORD]
  }

  /** The writer is between the odd and the even seq store, or past the even one. */
  predicate MidWrite(w: Writer) {
    w.act.Publishing? && 1 <= w.act.done <= |w.act.pub.body| + 1
  }

  predicate AfterEven(w: Writer) {
    w.act.Publishing? && w.act.done >= |w.act.pub.body| + 2
  }

  ghost predicate WriterInv(sizes: Sizes, s: State, w: Writer) {
    var q := s.page[SEQ_WORD];
    && w.seqWord % 2 == 0
    && (w.resumed || w.act.Publishing? ==> Recognised(s.page))
    && (if MidWrite(w) then q == w.seqWord + 1
        else if AfterEven(w) then q == Wrap(w.seqWord + 2)
        else q % 2 == 0 ==> q == w.seqWord)
    && (w.act.Publishing? ==>
        var n := |w.act.pub.body|;
        && WriterFits(sizes, w)
        && (MidWrite(w) ==> Holds(s.page, w.act.pub.body, w.act.done - 1)))
  }

  ghost predicate SeqInv(sizes: Sizes, s: State) {
    var q := s.page[SEQ_WORD];
    && HV.ResumeInv(sizes, s)
    && (!Recognised(s.page) && q % 2 == 0 ==> q == 0)
    && (s.writer.Some? ==> WriterInv(sizes, s, s.writer.value))
    && (q % 2 == 0 ==>
        && s.log != []
        && |Last(s).body| <= PAGE_WORDS - BODY_WORD
        && Holds(s.page, Last(s).body, |Last(s).body|))
  }

  lemma ResumeStoreStep(sizes: Sizes, s: State)
    requires Enabled(sizes, s, DoStore) && SeqInv(sizes, s) && s.writer.value.act.Resuming?
    ensures SeqInv(sizes, Next(sizes, s, DoStore))
  {
    HV.ResumeStep(sizes, s, DoStore);
    if Recognised(s.page) {
      HV.RecognisedStep(sizes, s, DoStore);
    }
  }

  /** The odd and the even seq store. */
  lemma SeqStoreStep(sizes: Sizes, s: State)
    requires Enabled(sizes, s, DoStore) && SeqInv(sizes, s) && s.writer.value.act.Publishing?
    requires s.writer.value.act.done == 0 || s.writer.value.act.done == |s.writer.value.act.pub.body| + 1
    ensures SeqInv(sizes, Next(sizes, s, DoStore))
  {
    var w := s.writer.value;
    WrapParity(w.seqWord + 2);
    var s' := Next(sizes, s, DoStore);
    assert Recognised(s'.page);
  }

  /** The state after a body word is stored. */
  lemma BodyStoreNext(sizes: Sizes, s: State)
    requires Enabled(sizes, s, DoStore) && s.writer.value.act.Publishing?
    requires 1 <= s.writer.value.act.done <= |s.writer.value.act.pub.body| <= PAGE_WORDS - BODY_WORD
    ensures var w := s.writer.value;
            var i := w.act.done - 1;
            Next(sizes, s, DoStore) ==
            s.(page := s.page[BODY_WORD + i := w.act.pub.body[i]], writer := Some(w.(act := Publishing(w.act.pub, w.act.due, i + 2))))
  {
    var act := s.writer.value.act;
    assert Stores(sizes, s.writer.value)[act.done - 1 + 1] == Store(BODY_WORD + act.done - 1, act.pub.body[act.done - 1]);
  }

  /** A body word leaves the header and the seq alone. */
  lemma BodyWordOnly(page: Page, i: nat, v: Word)
    requires BODY_WORD <= i < PAGE_WORDS
    ensures Recognised(page[i := v]) == Recognised(page) && page[i := v][SEQ_WORD] == page[SEQ_WORD]
  {
  }

  lemma BodyStoreInv(sizes: Sizes, s: State, s': State, w: Writer, i: nat)
    requires SeqInv(sizes, s) && s.writer == Some(w) && w.act.Publishing? && w.act.done == i + 1 <= |w.act.pub.body|
    requires |w.act.pub.body| <= PAGE_WORDS - BODY_WORD
    requires s' == s.(page := s.page[BODY_WORD + i := w.act.pub.body[i]],
                      writer := Some(w.(act := Publishing(w.act.pub, w.act.due, i + 2))))
    ensures SeqInv(sizes, s')
  {
    HoldsMore(s.page, w.act.pub.body, i);
    BodyWordOnly(s.page, BODY_WORD + i, w.act.pub.body[i]);
    OddAfterEven(w.seqWord);
    assert s'.page[SEQ_WORD] % 2 == 1;
  }

  lemma BodyStoreStep(sizes: Sizes, s: State)
    requires Enabled(sizes, s, DoStore) && SeqInv(sizes, s) && s.writer.value.act.Publishing?
    requires 1 <= s.writer.value.act.done <= |s.writer.value.act.pub.body|
    ensures SeqInv(sizes, Next(sizes, s, DoStore))
  {
    BodyStoreNext(sizes, s);
    BodyStoreInv(sizes, s, Next(sizes, s, DoStore), s.writer.value, s.writer.value.act.done - 1);
  }

  lemma OddAfterEven(x: int)
    requires x % 2 == 0
    ensures (x + 1) % 2 == 1
  {
  }

  lemma HoldsMore(page: Page, body: seq<Word>, n: nat)
    requires n < |body| <= PAGE_WORDS - BODY_WORD && Holds(page, body, n)
    ensures Holds(page[BODY_WORD + n := body[n]], body, n + 1)
  {
  }

  lemma EpochStoreStep(sizes: Sizes, s: State)
    requires Enabled(sizes, s, DoStore) && SeqInv(sizes, s) && s.writer.value.act.Publishing?
    requires s.writer.value.act.done == |s.writer.value.act.pub.body| + 2
    ensures SeqInv(sizes, Next(sizes, s, DoStore))
  {
    WrapParity(s.writer.value.seqWord + 2);
  }

  lemma FinishStep(sizes: Sizes, s: State)
    requires Enabled(sizes, s, Finish) && SeqInv(sizes, s)
    ensures SeqInv(sizes, Next(sizes, s, Finish))
  {
    if s.writer.value.act.Resuming? {
      FinishResume(sizes, s);
    } else {
      FinishPublish(sizes, s);
    }
  }

  lemma FinishResume(sizes: Sizes, s: State)
    requires Enabled(sizes, s, Finish) && SeqInv(sizes, s) && s.writer.value.act.Resuming?
    ensures SeqInv(sizes, Next(sizes, s, Finish))
  {
    HV.MidResumeRecognised(sizes, s.writer.value.act.base, s.writer.value.minor, HEADER_WORDS);
  }

  lemma FinishPublish(sizes: Sizes, s: State)
    requires Enabled(sizes, s, Finish) && SeqInv(sizes, s) && s.writer.value.act.Publishing?
    ensures SeqInv(sizes, Next(sizes, s, Finish))
  {
    WrapParity(s.writer.value.seqWord + 2);
  }

  lemma BeginStep(sizes: Sizes, s: State, e: Event)
    requires Enabled(sizes, s, e) && SeqInv(sizes, s) && !e.DoStore? && !e.Finish?
    ensures SeqInv(sizes, Next(sizes, s, e))
  {
    var q: int := s.page[SEQ_WORD];
    WrapParity(q + 1);
  }

  lemma SeqStep(sizes: Sizes, s: State, e: Event)
    requires Enabled(sizes, s, e) && SeqInv(sizes, s)
    ensures SeqInv(sizes, Next(sizes, s, e))
  {
    if e.Finish? {
      FinishStep(sizes, s);
    } else if !e.DoStore? {
      BeginStep(sizes, s, e);
    } else {
      var act := s.writer.value.act;
      if act.Resuming? {
        ResumeStoreStep(sizes, s);
      } else if act.done == 0 || act.done == |act.pub.body| + 1 {
        SeqStoreStep(sizes, s);
      } else if act.done <= |act.pub.body| {
        BodyStoreStep(sizes, s);
      } else {
        EpochStoreStep(sizes, s);
      }
    }
  }

  lemma {:induction false} SeqInvAt(sizes: Sizes, run: seq<State>, events: seq<Event>, i: nat)
    requires Run(sizes, run, events) && i < |run| && SeqStart(run[0].page)
    ensures SeqInv(sizes, run[i])
  {
    if i > 0 {
      SeqInvAt(sizes, run, events, i - 1);
      SeqStep(sizes, run[i - 1], events[i - 1]);
    }
  }

  // ----- what happens after an even seq -----

  predicate SameBody(a: Page, b: Page) {
    forall w :: BODY_WORD <= w < PAGE_WORDS ==> a[w] == b[w]
  }

  /** How s relates to an earlier state with an even seq: seq counts the publications started since,
  and while none was, neither the body words nor the log have moved. */
  ghost predicate Since(s0: State, s: State) {
    var q0: int := s0.page[SEQ_WORD];
    var q: int := s.page[SEQ_WORD];
    && s.started >= s0.started
    && q == Wrap(q0 + 2 * (s.started - s0.started) - q % 2)
    && (q % 2 == 1 ==>
        && s.started > s0.started
        && Recognised(s.page)
        && (s.writer.Some? && !MidWrite(s.writer.value) && !AfterEven(s.writer.value) ==>
            s.writer.value.seqWord == Wrap(q + 1)))
    && (s.started == s0.started ==> s.log == s0.log && SameBody(s.page, s0.page))
  }

  lemma OddCount(q0: int, d: nat, q: int, next: int)
    requires q0 % 2 == 0 && q == Wrap(q0 + 2 * d - q % 2)
    requires next == if q % 2 == 1 then Wrap(q + 1) else q
    ensures Wrap(next + 1) == Wrap(q0 + 2 * (d + 1) - 1) && Wrap(next + 1) % 2 == 1
  {
    WrapAdd(q + 1, 1);
    WrapAdd(q0 + 2 * d - q % 2, 2);
    WrapAdd(q0 + 2 * d - q % 2, 1);
    WrapParity(q0 + 2 * (d + 1) - 1);
  }

  lemma SinceOddStore(sizes: Sizes, s0: State, s: State)
    requires Enabled(sizes, s, DoStore) && SeqInv(sizes, s) && Since(s0, s) && s0.page[SEQ_WORD] % 2 == 0
    requires s.writer.value.act.Publishing? && s.writer.value.act.done == 0
    ensures Since(s0, Next(sizes, s, DoStore))
  {
    var q0: int, q: int := s0.page[SEQ_WORD], s.page[SEQ_WORD];
    OddCount(q0, s.started - s0.started, q, s.writer.value.seqWord);
    assert Recognised(Next(sizes, s, DoStore).page);
  }

  lemma SinceEvenStore(sizes: Sizes, s0: State, s: State)
    requires Enabled(sizes, s, DoStore) && SeqInv(sizes, s) && Since(s0, s) && s0.page[SEQ_WORD] % 2 == 0
    requires s.writer.value.act.Publishing? && s.writer.value.act.done == |s.writer.value.act.pub.body| + 1
    ensures Since(s0, Next(sizes, s, DoStore))
  {
    var q0: int, q: int := s0.page[SEQ_WORD], s.page[SEQ_WORD];
    OddAfterEven(s.writer.value.seqWord);
    EvenCount(q0, s.started - s0.started, q);
    assert Next(sizes, s, DoStore).page[SEQ_WORD] == Wrap(q + 1);
  }

  lemma EvenCount(q0: int, d: nat, q: int)
    requires q0 % 2 == 0 && q % 2 == 1 && q == Wrap(q0 + 2 * d - 1)
    ensures Wrap(q + 1) == Wrap(q0 + 2 * d) && Wrap(q + 1) % 2 == 0
  {
    WrapAdd(q0 + 2 * d - 1, 1);
    WrapParity(q0 + 2 * d);
  }

  /** A body store happens only under an odd seq. */
  lemma SinceBodyStore(sizes: Sizes, s0: State, s: State)
    requires Enabled(sizes, s, DoStore) && SeqInv(sizes, s) && Since(s0, s) && s0.page[SEQ_WORD] % 2 == 0
    requires s.writer.value.act.Publishing? && 1 <= s.writer.value.act.done <= |s.writer.value.act.pub.body|
    ensures Since(s0, Next(sizes, s, DoStore))
  {
    var act := s.writer.value.act;
    assert Stores(sizes, s.writer.value)[act.done - 1 + 1].index == BODY_WORD + act.done - 1;
    assert s.started > s0.started;
  }

  lemma SinceEpochStore(sizes: Sizes, s0: State, s: State)
    requires Enabled(sizes, s, DoStore) && SeqInv(sizes, s) && Since(s0, s) && s0.page[SEQ_WORD] % 2 == 0
    requires s.writer.value.act.Publishing? && s.writer.value.act.done == |s.writer.value.act.pub.body| + 2
    ensures Since(s0, Next(sizes, s, DoStore))
  {
    WrapParity(s.writer.value.seqWord + 2);
  }

  lemma SinceResumeStore(sizes: Sizes, s0: State, s: State)
    requires Enabled(sizes, s, DoStore) && Since(s0, s)
    requires s.writer.value.act.Resuming?
    ensures Since(s0, Next(sizes, s, DoStore))
  {
    if Recognised(s.page) {
      HV.RecognisedStep(sizes, s, DoStore);
    }
    var s' := Next(sizes, s, DoStore);
    assert s'.page[SEQ_WORD] == s.page[SEQ_WORD] && SameBody(s'.page, s.page);
  }

  lemma SinceLocalStep(sizes: Sizes, s0: State, s: State, e: Event)
    requires Enabled(sizes, s, e) && SeqInv(sizes, s) && Since(s0, s) && s0.page[SEQ_WORD] % 2 == 0
    requires !e.DoStore?
    ensures Since(s0, Next(sizes, s, e))
  {
    if e.Finish? {
      SinceFinish(sizes, s0, s);
    }
  }

  lemma SinceFinish(sizes: Sizes, s0: State, s: State)
    requires Enabled(sizes, s, Finish) && SeqInv(sizes, s) && Since(s0, s) && s0.page[SEQ_WORD] % 2 == 0
    ensures Since(s0, Next(sizes, s, Finish))
  {
    var s', w := Next(sizes, s, Finish), s.writer.value;
    assert s'.page == s.page && s'.log == s.log && s'.started == s.started;
    if w.act.Publishing? {
      assert AfterEven(w);
    }
  }

  lemma SinceStep(sizes: Sizes, s0: State, s: State, e: Event)
    requires Enabled(sizes, s, e) && SeqInv(sizes, s) && Since(s0, s) && s0.page[SEQ_WORD] % 2 == 0
    ensures Since(s0, Next(sizes, s, e))
  {
    if !e.DoStore? {
      SinceLocalStep(sizes, s0, s, e);
    } else if s.writer.value.act.Resuming? {
      SinceResumeStore(sizes, s0, s);
    } else if s.writer.value.act.done == 0 {
      SinceOddStore(sizes, s0, s);
    } else if s.writer.value.act.done == |s.writer.value.act.pub.body| + 1 {
      SinceEvenStore(sizes, s0, s);
    } else if s.writer.value.act.done <= |s.writer.value.act.pub.body| {
      SinceBodyStore(sizes, s0, s);
    } else {
      SinceEpochStore(sizes, s0, s);
    }
  }

  lemma SinceSelf(s: State)
    requires s.page[SEQ_WORD] % 2 == 0
    ensures Since(s, s)
  {
  }

  lemma {:induction false} SinceAt(sizes: Sizes, run: seq<State>, events: seq<Event>, i: nat, j: nat)
    requires Run(sizes, run, events) && i <= j < |run| && SeqStart(run[0].page)
    requires run[i].page[SEQ_WORD] % 2 == 0
    ensures Since(run[i], run[j])
    decreases j
  {
    if i == j {
      SinceSelf(run[i]);
    } else {
      SinceAt(sizes, run, events, i, j - 1);
      SeqInvAt(sizes, run, events, j - 1);
      SinceStep(sizes, run[i], run[j - 1], events[j - 1]);
    }
  }

  lemma {:induction false} StartedMonotone(sizes: Sizes, run: seq<State>, events: seq<Event>, i: nat, j: nat)
    requires Run(sizes, run, events) && i <= j < |run|
    ensures run[i].started <= run[j].started
    decreases j
  {
    if i < j {
      StartedMonotone(sizes, run, events, i, j - 1);
    }
  }

  // ----- the reader -----

  /** A stable read: seq is loaded even at moment i and equal at moment k, body word w is loaded at
  moment at[w] in between, and fewer than 2^63 publications start meanwhile. */
  ghost predicate StableRead(run: seq<State>, i: nat, at: seq<nat>, k: nat) {
    && i <= k < |run| && |at| <= PAGE_WORDS - BODY_WORD
    && (forall w :: 0 <= w < |at| ==> i <= at[w] <= k)
    && run[i].page[SEQ_WORD] % 2 == 0
    && run[k].page[SEQ_WORD] == run[i].page[SEQ_WORD]
    && run[k].started - run[i].started < SEQ_RANGE
  }

  lemma QuietWindow(sizes: Sizes, run: seq<State>, events: seq<Event>, i: nat, j: nat, k: nat)
    requires Run(sizes, run, events) && SeqStart(run[0].page) && StableRead(run, i, [], k) && i <= j <= k
    ensures run[j].log == run[i].log && SameBody(run[j].page, run[i].page)
  {
    SinceAt(sizes, run, events, i, k);
    WrapInjective(run[i].page[SEQ_WORD], 2 * (run[k].started - run[i].started));
    StartedMonotone(sizes, run, events, i, j);
    StartedMonotone(sizes, run, events, j, k);
    SinceAt(sizes, run, events, i, j);
  }

  ghost predicate Announced(events: seq<Event>, i: nat, pub: Pub) {
    exists j :: 0 <= j < i <= |events| && events[j] == StartPublish(pub)
  }

  /** The log holds only the body the page started with and publications a writer was given. */
  lemma {:induction false} LogAnnounced(sizes: Sizes, run: seq<State>, events: seq<Event>, i: nat)
    requires Run(sizes, run, events) && i < |run|
    ensures forall p :: p in run[i].log ==> p in run[0].log || Announced(events, i, p)
    ensures run[i].writer.Some? && run[i].writer.value.act.Publishing? ==>
              Announced(events, i, run[i].writer.value.act.pub)
  {
    if i > 0 {
      LogAnnounced(sizes, run, events, i - 1);
      forall p | Announced(events, i - 1, p) ensures Announced(events, i, p) {
      }
      if events[i - 1].StartPublish? {
        assert Announced(events, i, events[i - 1].pub);
      }
    }
  }

  /** Every word a stable read copied within the body of the last completed publication is that
  publication's word, whatever crashed or resumed meanwhile. */
  lemma SeqlockSafety(sizes: Sizes, run: seq<State>, events: seq<Event>, i: nat, at: seq<nat>, k: nat)
    requires Run(sizes, run, events) && SeqStart(run[0].page) && StableRead(run, i, at, k)
    ensures run[i].log != [] && run[k].log == run[i].log
    ensures Last(run[i]) in run[0].log || Announced(events, i, Last(run[i]))
    ensures forall w :: 0 <= w < |at| && w < |Last(run[i]).body| ==>
              run[at[w]].page[BODY_WORD + w] == Last(run[i]).body[w]
  {
    SeqInvAt(sizes, run, events, i);
    LogAnnounced(sizes, run, events, i);
    QuietWindow(sizes, run, events, i, k, k);
    forall w | 0 <= w < |at| && w < |Last(run[i]).body|
      ensures run[at[w]].page[BODY_WORD + w] == Last(run[i]).body[w]
    {
      QuietWindow(sizes, run, events, i, at[w], k);
    }
  }
}
