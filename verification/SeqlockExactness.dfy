/** The starts that meet the seqlock are exactly SeqStart. Over a page of another ABI whose seq is even
and not 0, the first resume restarts seq at 0 below the value readers already loaded, and after
enough publications seq comes back to that value around a reader that copied half of each body. */
module SeqlockExactness {
  import opened Vocabulary
  import opened PageWords
  import opened Snapshot
  import opened PageProtocol
  import HV = HeaderValidity
  import Seqlock = SeqlockSafety

  /** The word a reader copied, for each body word of a stable read. */
  ghost function Copied(run: seq<State>, at: seq<nat>, w: nat): Word
    requires w < |at| <= PAGE_WORDS - BODY_WORD && at[w] < |run|
  {
    run[at[w]].page[BODY_WORD + w]
  }

  /** No body the page ever held under an even seq agrees with the copy. */
  ghost predicate Torn(run: seq<State>, i: nat, at: seq<nat>, k: nat)
    requires Seqlock.StableRead(run, i, at, k)
  {
    forall p :: p in run[k].log ==> exists w :: 0 <= w < |at| && w < |p.body| && Copied(run, at, w) != p.body[w]
  }

  ghost function End(run: seq<State>): State
    requires run != []
  {
    run[|run| - 1]
  }

  lemma Extend(sizes: Sizes, run: seq<State>, events: seq<Event>, e: Event) returns (run': seq<State>, events': seq<Event>)
    requires Run(sizes, run, events) && Enabled(sizes, End(run), e)
    ensures Run(sizes, run', events') && |run'| == |run| + 1
    ensures run <= run' && End(run') == Next(sizes, End(run), e)
  {
    run', events' := run + [Next(sizes, End(run), e)], events + [e];
  }

  /** A writer that is idle and has resumed. */
  ghost predicate Ready(sizes: Sizes, s: State, minor: nat) {
    && s.writer.Some? && s.writer.value.act.Idle? && s.writer.value.resumed && s.writer.value.minor == minor
    && WriterFits(sizes, s.writer.value)
  }

  /** A whole resume over an unrecognised page: the writer starts seq and notifyEpoch at 0, the page is
  now this ABI's and keeps everything but its header line. */
  lemma ResumeFromZero(sizes: Sizes, page: Page, minor: nat, log: seq<Pub>) returns (run: seq<State>, events: seq<Event>)
    requires !Recognised(page) && HV.KnownMinor(sizes, minor) && Start(State(page, None, log, 0, 0, false))
    ensures Run(sizes, run, events) && run[0] == State(page, None, log, 0, 0, false)
    ensures Ready(sizes, End(run), minor) && End(run).writer.value.last == None
    ensures End(run).writer.value.seqWord == 0 && End(run).writer.value.epoch == 0
    ensures Recognised(End(run).page) && forall w :: HEADER_WORDS <= w < PAGE_WORDS ==> End(run).page[w] == page[w]
    ensures End(run).(page := page, writer := None) == run[0]
  {
    run, events := [State(page, None, log, 0, 0, false)], [];
    run, events := Extend(sizes, run, events, StartResume(minor));
    assert ResumeStores(page, minor, sizes(minor))[..0] == [];
    while Done(End(run).writer.value) < HEADER_WORDS
      invariant Run(sizes, run, events) && run[0] == State(page, None, log, 0, 0, false)
      invariant End(run).writer.Some? && Done(End(run).writer.value) <= HEADER_WORDS
      invariant End(run).writer.value == Resumed(page, minor).(act := Resuming(page, Done(End(run).writer.value)))
      invariant HV.ResumeInv(sizes, End(run)) && End(run).(page := page, writer := None) == run[0]
      decreases HEADER_WORDS - Done(End(run).writer.value)
    {
      HV.ResumeStep(sizes, End(run), DoStore);
      run, events := Extend(sizes, run, events, DoStore);
    }
    ResumeLeaves(sizes, page, minor);
    run, events := Extend(sizes, run, events, Finish);
  }

  lemma ResumeLeaves(sizes: Sizes, page: Page, minor: nat)
    requires HV.KnownMinor(sizes, minor)
    ensures var after := HV.MidResume(sizes, page, minor, HEADER_WORDS);
            Recognised(after) && forall w :: HEADER_WORDS <= w < PAGE_WORDS ==> after[w] == page[w]
  {
    var after := HV.MidResume(sizes, page, minor, HEADER_WORDS);
    HV.MidResumeRecognised(sizes, page, minor, HEADER_WORDS);
    forall w | HEADER_WORDS <= w < PAGE_WORDS ensures after[w] == page[w] {
      HV.MidResumeWords(sizes, page, minor, HEADER_WORDS, w);
    }
  }

  /** s' is reached from s, where writer w began to publish, by stores of that publication alone. */
  ghost predicate Progress(s: State, w: Writer, s': State)
    requires w.act.Publishing? && |w.act.pub.body| <= PAGE_WORDS - BODY_WORD
  {
    && s'.writer.Some? && s'.writer.value.act.Publishing?
    && var pub, done := w.act.pub, s'.writer.value.act.done;
    && s'.writer.value == w.(act := Publishing(pub, w.act.due, done))
    && Seqlock.Holds(s'.page, pub.body, if done == 0 then 0 else if done <= |pub.body| then done - 1 else |pub.body|)
    && (done > |pub.body| + 1 ==> s'.page[SEQ_WORD] == Wrap(w.seqWord + 2))
    && s'.page[EPOCH_WORD] == (if done > |pub.body| + 2 then Wrap(w.epoch + 1) else s.page[EPOCH_WORD])
    && s'.bumps == (if done > |pub.body| + 2 then s.bumps + 1 else s.bumps)
    && s'.log == (if done > |pub.body| + 1 then s.log + [pub] else s.log)
    && s'.started == (if done > 0 then s.started + 1 else s.started)
  }

  lemma ProgressBodyStep(sizes: Sizes, s: State, w: Writer, s': State)
    requires w.act.Publishing? && WriterFits(sizes, w) && Progress(s, w, s') && Enabled(sizes, s', DoStore)
    requires 1 <= s'.writer.value.act.done <= |w.act.pub.body|
    ensures Progress(s, w, Next(sizes, s', DoStore))
  {
    var pub, done := w.act.pub, s'.writer.value.act.done;
    var store := Store(BODY_WORD + done - 1, pub.body[done - 1]);
    assert Stores(sizes, s'.writer.value)[done - 1 + 1] == store;
    assert Next(sizes, s', DoStore).page == s'.page[store.index := store.value];
  }

  lemma ProgressOtherStep(sizes: Sizes, s: State, w: Writer, s': State)
    requires w.act.Publishing? && WriterFits(sizes, w) && Progress(s, w, s') && Enabled(sizes, s', DoStore)
    requires !(1 <= s'.writer.value.act.done <= |w.act.pub.body|)
    ensures Progress(s, w, Next(sizes, s', DoStore))
  {
  }

  /** Every remaining store of the publication in hand. */
  lemma {:induction false} PublishStoresAll(sizes: Sizes, run: seq<State>, events: seq<Event>, s: State, w: Writer)
    returns (run': seq<State>, events': seq<Event>)
    requires Run(sizes, run, events) && w.act.Publishing? && WriterFits(sizes, w)
    requires Progress(s, w, End(run)) && Done(End(run).writer.value) <= |Stores(sizes, w)|
    ensures Run(sizes, run', events') && run <= run'
    ensures Progress(s, w, End(run')) && Done(End(run').writer.value) == |Stores(sizes, w)|
    decreases |Stores(sizes, w)| - Done(End(run).writer.value)
  {
    run', events' := run, events;
    if Done(End(run).writer.value) < |Stores(sizes, w)| {
      if 1 <= Done(End(run).writer.value) <= |w.act.pub.body| {
        ProgressBodyStep(sizes, s, w, End(run));
      } else {
        ProgressOtherStep(sizes, s, w, End(run));
      }
      run', events' := Extend(sizes, run, events, DoStore);
      run', events' := PublishStoresAll(sizes, run', events', s, w);
    }
  }

  /** What one whole publication by an idle writer changes. */
  ghost predicate Completed(s: State, s': State, pub: Pub)
    requires s.writer.Some? && |pub.body| <= PAGE_WORDS - BODY_WORD
  {
    && s'.writer.Some?
    && var w, w' := s.writer.value, s'.writer.value;
    && w'.last == Some(pub.key) && !s'.unfinished
    && w'.seqWord == Wrap(w.seqWord + 2) == s'.page[SEQ_WORD]
    && Seqlock.Holds(s'.page, pub.body, |pub.body|)
    && s'.log == s.log + [pub] && s'.started == s.started + 1
    && (w.last != Some(pub.key) ==>
        w'.epoch == Wrap(w.epoch + 1) == s'.page[EPOCH_WORD] && s'.bumps == s.bumps + 1)
  }

  lemma FinishCompletes(sizes: Sizes, s: State, w: Writer, s': State, minor: nat)
    requires Ready(sizes, s, minor) && w.act.Publishing? && WriterFits(sizes, w) && Progress(s, w, s')
    requires w == s.writer.value.(act := Publishing(w.act.pub, s.writer.value.last != Some(w.act.pub.key), 0))
    requires Done(s'.writer.value) == |Stores(sizes, w)|
    ensures Enabled(sizes, s', Finish)
    ensures Ready(sizes, Next(sizes, s', Finish), minor) && Completed(s, Next(sizes, s', Finish), w.act.pub)
  {
  }

  /** One whole publication. */
  lemma PublishOnce(sizes: Sizes, run: seq<State>, events: seq<Event>, minor: nat, pub: Pub)
    returns (run': seq<State>, events': seq<Event>)
    requires Run(sizes, run, events) && Ready(sizes, End(run), minor) && |pub.body| == BodyWords(sizes(minor))
    ensures Run(sizes, run', events') && run <= run'
    ensures Ready(sizes, End(run'), minor) && Completed(End(run), End(run'), pub)
  {
    var s := End(run);
    run', events' := Extend(sizes, run, events, StartPublish(pub));
    var w := End(run').writer.value;
    run', events' := PublishStoresAll(sizes, run', events', s, w);
    FinishCompletes(sizes, s, w, End(run'), minor);
    run', events' := Extend(sizes, run', events', Finish);
  }

  /** c whole publications of one body by a writer that starts at seq 0 bring seq to 2c. */
  lemma {:induction false} PublishMany(sizes: Sizes, run: seq<State>, events: seq<Event>, minor: nat, pub: Pub, c: nat)
    returns (run': seq<State>, events': seq<Event>)
    requires Run(sizes, run, events) && Ready(sizes, End(run), minor) && End(run).writer.value.seqWord == 0
    requires |pub.body| == BodyWords(sizes(minor)) && 2 * c < WORD_LIMIT
    ensures Run(sizes, run', events') && run <= run'
    ensures Ready(sizes, End(run'), minor) && End(run').writer.value.seqWord == 2 * c
    ensures End(run').started == End(run).started + c
    ensures forall p :: p in End(run').log ==> p in End(run).log || p == pub
    ensures c > 0 ==> End(run').page[SEQ_WORD] == 2 * c && Seqlock.Holds(End(run').page, pub.body, |pub.body|)
    decreases c
  {
    run', events' := run, events;
    if c > 0 {
      run', events' := PublishMany(sizes, run, events, minor, pub, c - 1);
      run', events' := PublishOnce(sizes, run', events', minor, pub);
    }
  }

  /** Over every page that is no SeqStart some run tears a read: a minor with two body words is enough.
  The reader begins once the page is this ABI's, so its header check passes. */
  lemma TornOtherwise(sizes: Sizes, page: Page, minor: nat)
    returns (run: seq<State>, events: seq<Event>, i: nat, at: seq<nat>, k: nat)
    requires !Seqlock.SeqStart(page) && HV.KnownMinor(sizes, minor) && BodyWords(sizes(minor)) >= 2
    ensures Run(sizes, run, events) && run[0].page == page
    ensures Seqlock.StableRead(run, i, at, k) && Recognised(run[i].page) && Torn(run, i, at, k)
  {
    var x, y := page[BODY_WORD], page[BODY_WORD + 1];
    var n := BodyWords(sizes(minor));
    var body: seq<Word> := [if x == 0 then 1 else 0, if y == 0 then 1 else 0] + seq(n - 2, _ => 0);
    var key := NotifyKey("", false, 0, []);
    var pub := Pub(body, key);
    run, events := ResumeFromZero(sizes, page, minor, [Pub(page[BODY_WORD..], key)]);
    i := |run| - 1;
    run, events := PublishMany(sizes, run, events, minor, pub, page[SEQ_WORD] / 2);
    k := |run| - 1;
    at := [i, k];
    assert Copied(run, at, 0) == x && Copied(run, at, 1) == body[1];
    forall p | p in run[k].log
      ensures exists w :: 0 <= w < |at| && w < |p.body| && Copied(run, at, w) != p.body[w]
    {
      if p == pub {
        assert Copied(run, at, 0) != p.body[0];
      } else {
        assert p.body[1] == y;
        assert Copied(run, at, 1) != p.body[1];
      }
    }
  }
}
