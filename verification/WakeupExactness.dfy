/** The starts that meet the wake-up condition. Over a page of another ABI that holds a notifyEpoch, the
first resume restarts notifyEpoch at 0 below the value a reader loaded, and it comes back to that
value with another key. */
module WakeupExactness {
  import opened Vocabulary
  import opened PageWords
  import opened Snapshot
  import opened PageProtocol
  import HV = HeaderValidity
  import Seqlock = SeqlockSafety
  import opened SeqlockExactness
  import opened Wakeup

  /** A reader that loaded notifyEpoch at t0 and then took a stable read finds it unmoved at t, with
  nothing in hand or cut short, though the key is another one. */
  ghost predicate Lost(run: seq<State>, t0: nat, i: nat, at: seq<nat>, k: nat, t: nat) {
    && t0 <= i && Seqlock.StableRead(run, i, at, k) && k <= t < |run|
    && EpochStandsStill(run, t0, t) && !run[t].unfinished
    && run[i].log != [] && run[t].log != [] && Last(run[t]).key != Last(run[i]).key
  }

  function Key(j: nat): NotifyKey
    requires j < 3
  {
    NotifyKey("", false, j, [])
  }

  /** Two keys in turn, and a third for the last of c publications. */
  function KeyOf(j: nat, c: nat): NotifyKey {
    if j == c then Key(2) else Key(j % 2)
  }

  function PubOf(body: seq<Word>, j: nat, c: nat): Pub {
    Pub(body, KeyOf(j, c))
  }

  /** j of c publications whose successive keys differ: each moves notifyEpoch. */
  lemma {:induction false} PublishKeys(sizes: Sizes, run: seq<State>, events: seq<Event>, minor: nat, body: seq<Word>, from: nat, j: nat, c: nat)
    returns (run': seq<State>, events': seq<Event>)
    requires Run(sizes, run, events) && Ready(sizes, End(run), minor) && |body| == BodyWords(sizes(minor))
    requires from <= j <= c < WORD_LIMIT && Published(End(run), from, c)
    ensures Run(sizes, run', events') && run <= run'
    ensures Ready(sizes, End(run'), minor) && Published(End(run'), j, c)
    decreases j
  {
    run', events' := run, events;
    if from < j {
      run', events' := PublishKeys(sizes, run, events, minor, body, from, j - 1, c);
      WrapParity(End(run').writer.value.seqWord + 2);
      run', events' := PublishOnce(sizes, run', events', minor, PubOf(body, j, c));
    }
  }

  /** What a state looks like after the first j of them. */
  ghost predicate Published(s: State, j: nat, c: nat) {
    && s.writer.Some? && s.writer.value.epoch == j && s.bumps == j
    && s.writer.value.last == (if j == 0 then None else Some(KeyOf(j, c)))
    && s.writer.value.seqWord % 2 == 0
    && (j > 0 ==>
        && s.page[EPOCH_WORD] == j && !s.unfinished && s.log != [] && Last(s).key == KeyOf(j, c)
        && s.page[SEQ_WORD] == s.writer.value.seqWord)
  }

  lemma SameMoment(run: seq<State>, i: nat)
    requires i < |run| && run[i].page[SEQ_WORD] % 2 == 0
    ensures Seqlock.StableRead(run, i, seq(PAGE_WORDS - BODY_WORD, _ => i), i)
  {
  }

  /** From every page of another ABI with a notifyEpoch some run loses a wake-up, except where seq is odd
  and notifyEpoch is 1. The reader begins once the page is this ABI's. */
  lemma LostOtherwise(sizes: Sizes, page: Page, minor: nat)
    returns (run: seq<State>, events: seq<Event>, t0: nat, i: nat, at: seq<nat>, t: nat)
    requires !EpochStart(page) && Seqlock.SeqStart(page) && HV.KnownMinor(sizes, minor)
    requires page[SEQ_WORD] % 2 == 1 ==> page[EPOCH_WORD] != 1
    ensures Run(sizes, run, events) && run[0].page == page
    ensures Lost(run, t0, i, at, i, t) && Recognised(run[t0].page)
  {
    var c: nat := page[EPOCH_WORD];
    var body: seq<Word> := seq(BodyWords(sizes(minor)), _ => 0);
    var log := if page[SEQ_WORD] % 2 == 1 then [] else [Pub(page[BODY_WORD..], Key(0))];
    run, events := ResumeFromZero(sizes, page, minor, log);
    t0, i := |run| - 1, |run| - 1;
    if c > 1 {
      run, events := PublishKeys(sizes, run, events, minor, body, 0, 1, c);
      i := |run| - 1;
    }
    run, events := PublishKeys(sizes, run, events, minor, body, if c > 1 then 1 else 0, c, c);
    t := |run| - 1;
    at := seq(PAGE_WORDS - BODY_WORD, _ => i);
    SameMoment(run, i);
  }

  // ----- the exception is safe -----

  /** A page of another ABI whose seq is odd and whose notifyEpoch is 1: no read is stable before the first
  publication, and its first store of notifyEpoch is the same 1 again. */
  predicate OddStart(page: Page) {
    !Recognised(page) && page[SEQ_WORD] % 2 == 1 && page[EPOCH_WORD] == 1
  }

  /** Before the first header is complete. */
  ghost predicate Unformatted(s: State) {
    && !Recognised(s.page) && s.page[EPOCH_WORD] == 1 && s.page[SEQ_WORD] % 2 == 1 && s.bumps == 0 && s.log == []
    && (s.writer.Some? ==>
        var w := s.writer.value;
        w.act.Resuming? && !w.resumed && w.epoch == 0 && w.last == None && !Recognised(w.act.base))
  }

  /** The writer that restarted notifyEpoch at 0 has not stored it yet. */
  ghost predicate Restarted(sizes: Sizes, s: State) {
    && Recognised(s.page) && s.page[EPOCH_WORD] == 1 && s.bumps == 0 && s.writer.Some?
    && var w := s.writer.value;
    && w.epoch == 0 && w.last == None && |s.log| <= 1 && !Bumped(w)
    && (s.log != [] ==> Seqlock.AfterEven(w))
    && (w.act.Publishing? ==> w.act.due && WriterFits(sizes, w))
  }

  /** notifyEpoch counts again: one ahead of its stores, or even with them after the repeated 1. */
  ghost predicate Counting(sizes: Sizes, s: State) {
    && Recognised(s.page) && EpochInv(sizes, s)
    && (|| s.page[EPOCH_WORD] == Wrap(s.bumps + 1)
        || (&& s.bumps > 0 && s.page[EPOCH_WORD] == Wrap(s.bumps) && s.log != []
            && KeyKept(s, 1, s.log[0].key)))
  }

  ghost predicate OddInv(sizes: Sizes, s: State) {
    HV.ResumeInv(sizes, s) && KeyInv(sizes, s) && (Unformatted(s) || Restarted(sizes, s) || Counting(sizes, s))
  }

  lemma UnformattedStep(sizes: Sizes, s: State, e: Event)
    requires Enabled(sizes, s, e) && HV.ResumeInv(sizes, s) && Unformatted(s)
    ensures Unformatted(Next(sizes, s, e)) || Restarted(sizes, Next(sizes, s, e))
  {
    if e.Finish? {
      HV.MidResumeRecognised(sizes, s.writer.value.act.base, s.writer.value.minor, HEADER_WORDS);
    }
  }

  lemma RestartedStep(sizes: Sizes, s: State, e: Event)
    requires Enabled(sizes, s, e) && HV.ResumeInv(sizes, s) && KeyInv(sizes, s) && Restarted(sizes, s)
    ensures Restarted(sizes, Next(sizes, s, e)) || Counting(sizes, Next(sizes, s, e))
  {
    HV.ResumeStep(sizes, s, e);
    HV.RecognisedStep(sizes, s, e);
  }

  lemma CountingStep(sizes: Sizes, s: State, e: Event)
    requires Enabled(sizes, s, e) && KeyInv(sizes, s) && Counting(sizes, s)
    ensures Counting(sizes, Next(sizes, s, e))
  {
    EpochStep(sizes, s, e);
    HV.RecognisedStep(sizes, s, e);
    var s' := Next(sizes, s, e);
    if s.page[EPOCH_WORD] == Wrap(s.bumps + 1) {
      WrapAdd(s.bumps + 1, s'.bumps - s.bumps);
    } else {
      WrapAdd(s.bumps, s'.bumps - s.bumps);
      KeyKeptStep(sizes, s, e, 1, s.log[0].key);
    }
  }

  lemma {:induction false} OddInvAt(sizes: Sizes, run: seq<State>, events: seq<Event>, i: nat)
    requires Run(sizes, run, events) && i < |run| && OddStart(run[0].page)
    ensures OddInv(sizes, run[i])
  {
    if i > 0 {
      OddInvAt(sizes, run, events, i - 1);
      OddStep(sizes, run[i - 1], events[i - 1]);
    }
  }

  lemma OddStep(sizes: Sizes, s: State, e: Event)
    requires Enabled(sizes, s, e) && OddInv(sizes, s)
    ensures OddInv(sizes, Next(sizes, s, e))
  {
    HV.ResumeStep(sizes, s, e);
    KeyStep(sizes, s, e);
    if Unformatted(s) {
      UnformattedStep(sizes, s, e);
    } else if Restarted(sizes, s) {
      RestartedStep(sizes, s, e);
    } else {
      CountingStep(sizes, s, e);
    }
  }

  lemma LogStep(sizes: Sizes, s: State, e: Event)
    requires Enabled(sizes, s, e)
    ensures s.log <= Next(sizes, s, e).log
  {
  }

  lemma {:induction false} LogGrows(sizes: Sizes, run: seq<State>, events: seq<Event>, i: nat, j: nat)
    requires Run(sizes, run, events) && i <= j < |run|
    ensures run[i].log <= run[j].log
    decreases j
  {
    if i < j {
      LogGrows(sizes, run, events, i, j - 1);
      LogStep(sizes, run[j - 1], events[j - 1]);
    }
  }

  /** A start with an odd seq and notifyEpoch 1 loses no wake-up either. */
  lemma OddStartKeepsWakeups(sizes: Sizes, run: seq<State>, events: seq<Event>, t0: nat, i: nat, at: seq<nat>, k: nat, t: nat)
    requires Run(sizes, run, events) && OddStart(run[0].page)
    requires t0 <= i && Seqlock.StableRead(run, i, at, k) && k <= t < |run|
    requires EpochStandsStill(run, t0, t) && !run[t].unfinished
    ensures run[i].log != [] && run[t].log != []
    ensures Last(run[t]).key == Last(run[i]).key
  {
    Seqlock.SeqlockSafety(sizes, run, events, i, at, k);
    BumpsGrow(sizes, run, events, t0, i);
    BumpsGrow(sizes, run, events, i, t);
    LogGrows(sizes, run, events, i, t);
    KeyKeptAt(sizes, run, events, i, t);
    if run[t].bumps != run[i].bumps {
      OddInvAt(sizes, run, events, t0);
      OddInvAt(sizes, run, events, i);
      OddInvAt(sizes, run, events, t);
      RepeatedOne(sizes, run, events, t0, i, t);
    }
  }

  /** Before the first store of notifyEpoch it is still 1. */
  lemma BeforeFirstBump(sizes: Sizes, s: State)
    requires OddInv(sizes, s) && (s.bumps == 0 || !EpochInv(sizes, s))
    ensures s.page[EPOCH_WORD] == 1 && s.bumps == 0
    ensures !EpochInv(sizes, s) && s.log != [] ==> |s.log| == 1
  {
  }

  /** A count from 1 that shows 1 again made one store, the repeated one. */
  lemma OnlyRepeatedOne(b: nat, e: Word)
    requires b > 0 && (e == Wrap(b + 1) || e == Wrap(b))
    requires (e == 1 && b < WORD_LIMIT) || (e % HALF_LIMIT == 1 % HALF_LIMIT && b < HALF_LIMIT)
    ensures b == 1 && e == 1 != Wrap(b + 1)
  {
    if e == Wrap(b + 1) {
      SameEpoch(1, e, b);
    } else {
      SameEpoch(1, e, b - 1);
    }
  }

  lemma AfterFirstBump(sizes: Sizes, s: State)
    requires OddInv(sizes, s) && s.bumps > 0
    requires || (s.page[EPOCH_WORD] == 1 && s.bumps < WORD_LIMIT)
             || (s.page[EPOCH_WORD] % HALF_LIMIT == 1 % HALF_LIMIT && s.bumps < HALF_LIMIT)
    ensures s.bumps == 1 && s.page[EPOCH_WORD] == 1 && s.log != [] && KeyKept(s, 1, s.log[0].key)
  {
    assert Counting(sizes, s);
    OnlyRepeatedOne(s.bumps, s.page[EPOCH_WORD]);
  }

  /** The one bump that leaves notifyEpoch where it was is that of the first publication. */
  lemma RepeatedOne(sizes: Sizes, run: seq<State>, events: seq<Event>, t0: nat, i: nat, t: nat)
    requires Run(sizes, run, events) && t0 <= i <= t < |run|
    requires OddInv(sizes, run[t0]) && OddInv(sizes, run[i]) && OddInv(sizes, run[t])
    requires run[t0].bumps <= run[i].bumps < run[t].bumps && run[i].log != [] && run[i].log <= run[t].log
    requires EpochStandsStill(run, t0, t) && !run[t].unfinished
    ensures Last(run[t]).key == Last(run[i]).key
  {
    if EpochInv(sizes, run[t0]) {
      StandsStillMeansNoBump(sizes, run, events, t0, t);
    } else {
      BeforeFirstBump(sizes, run[t0]);
      AfterFirstBump(sizes, run[t]);
      BeforeFirstBump(sizes, run[i]);
      if EpochInv(sizes, run[i]) {
        EpochFrom(sizes, run, events, i, t);
        OneMoreIsTwo(run[i], run[t]);
      }
    }
  }

  lemma OneMoreIsTwo(s: State, s': State)
    requires EpochMoved(s, s') && s.page[EPOCH_WORD] == 1 && s'.bumps == s.bumps + 1
    ensures s'.page[EPOCH_WORD] == 2
  {
  }
}
