/** No lost wake-up: a reader that loads notifyEpoch, then reads a snapshot, may sleep until
notifyEpoch moves, because while it stands still no publication has changed the notify key. */
module Wakeup {
  import opened Vocabulary
  import opened PageWords
  import opened Snapshot
  import opened PageProtocol
  import HV = HeaderValidity
  import Seqlock = SeqlockSafety

  /** A page of this ABI, or one whose notifyEpoch is 0, as in a new file. */
  predicate EpochStart(page: Page) {
    Recognised(page) || page[EPOCH_WORD] == 0
  }

  predicate Bumped(w: Writer) {
    w.act.Publishing? && w.act.done >= |w.act.pub.body| + 3
  }

  ghost predicate EpochInv(sizes: Sizes, s: State) {
    && HV.ResumeInv(sizes, s)
    && (!Recognised(s.page) ==> s.page[EPOCH_WORD] == 0)
    && (s.writer.Some? ==>
        var w := s.writer.value;
        && (w.resumed || w.act.Publishing? ==> Recognised(s.page))
        && s.page[EPOCH_WORD] == if Bumped(w) then Wrap(w.epoch + 1) else w.epoch)
  }

  lemma EpochStep(sizes: Sizes, s: State, e: Event)
    requires Enabled(sizes, s, e) && EpochInv(sizes, s)
    ensures EpochInv(sizes, Next(sizes, s, e))
    ensures Next(sizes, s, e).page[EPOCH_WORD] == Wrap(s.page[EPOCH_WORD] + Next(sizes, s, e).bumps - s.bumps)
    ensures Next(sizes, s, e).bumps >= s.bumps
  {
    EpochInvStep(sizes, s, e);
    EpochWordStep(sizes, s, e);
  }

  lemma EpochWordStep(sizes: Sizes, s: State, e: Event)
    requires Enabled(sizes, s, e) && EpochInv(sizes, s)
    ensures Next(sizes, s, e).page[EPOCH_WORD] == Wrap(s.page[EPOCH_WORD] + Next(sizes, s, e).bumps - s.bumps)
    ensures Next(sizes, s, e).bumps >= s.bumps
  {
  }

  lemma EpochInvStep(sizes: Sizes, s: State, e: Event)
    requires Enabled(sizes, s, e) && EpochInv(sizes, s)
    ensures EpochInv(sizes, Next(sizes, s, e))
  {
    HV.ResumeStep(sizes, s, e);
    if Recognised(s.page) {
      HV.RecognisedStep(sizes, s, e);
    }
    if e.Finish? && s.writer.value.act.Resuming? {
      HV.MidResumeRecognised(sizes, s.writer.value.act.base, s.writer.value.minor, HEADER_WORDS);
    }
  }

  lemma {:induction false} EpochInvAt(sizes: Sizes, run: seq<State>, events: seq<Event>, i: nat)
    requires Run(sizes, run, events) && i < |run| && EpochStart(run[0].page)
    ensures EpochInv(sizes, run[i])
  {
    if i > 0 {
      EpochInvAt(sizes, run, events, i - 1);
      EpochStep(sizes, run[i - 1], events[i - 1]);
    }
  }

  lemma BumpsStep(sizes: Sizes, s: State, e: Event)
    requires Enabled(sizes, s, e)
    ensures s.bumps <= Next(sizes, s, e).bumps
  {
  }

  lemma {:induction false} BumpsGrow(sizes: Sizes, run: seq<State>, events: seq<Event>, i: nat, j: nat)
    requires Run(sizes, run, events) && i <= j < |run|
    ensures run[i].bumps <= run[j].bumps
    decreases j
  {
    if i < j {
      BumpsGrow(sizes, run, events, i, j - 1);
      BumpsStep(sizes, run[j - 1], events[j - 1]);
    }
  }

  /** notifyEpoch moved by the bumps in between. */
  ghost predicate EpochMoved(s: State, s': State) {
    s'.page[EPOCH_WORD] == Wrap(s.page[EPOCH_WORD] + s'.bumps - s.bumps)
  }

  lemma {:induction false} EpochNext(sizes: Sizes, run: seq<State>, events: seq<Event>, i: nat)
    requires Run(sizes, run, events) && 0 < i < |run| && EpochInv(sizes, run[i - 1])
    ensures EpochInv(sizes, run[i]) && EpochMoved(run[i - 1], run[i])
  {
    EpochStep(sizes, run[i - 1], events[i - 1]);
  }

  lemma EpochStays(s: State)
    ensures EpochMoved(s, s)
  {
  }

  /** Two moves of a wrapping counter are one. */
  lemma EpochMovesOn(a: State, b: State, c: State)
    requires EpochMoved(a, b) && EpochMoved(b, c)
    ensures EpochMoved(a, c)
  {
    WrapChain(a.page[EPOCH_WORD], b.bumps - a.bumps, c.bumps - b.bumps);
  }

  /** From where the invariant holds, notifyEpoch counts its own stores. */
  lemma {:induction false} EpochFrom(sizes: Sizes, run: seq<State>, events: seq<Event>, i: nat, j: nat)
    requires Run(sizes, run, events) && i <= j < |run| && EpochInv(sizes, run[i])
    ensures EpochInv(sizes, run[j]) && EpochMoved(run[i], run[j])
    decreases j
  {
    if i < j {
      EpochFrom(sizes, run, events, i, j - 1);
      EpochNext(sizes, run, events, j);
      EpochMovesOn(run[i], run[j - 1], run[j]);
    } else {
      EpochStays(run[i]);
    }
  }

  lemma WrapChain(x: int, y: int, z: int)
    ensures Wrap(Wrap(x + y) + z) == Wrap(x + (y + z))
  {
    WrapAdd(x + y, z);
  }

  /** notifyEpoch counts its own stores over the whole run. */
  lemma EpochCounts(sizes: Sizes, run: seq<State>, events: seq<Event>, i: nat, j: nat)
    requires Run(sizes, run, events) && i <= j < |run| && EpochStart(run[0].page)
    ensures run[i].bumps <= run[j].bumps
    ensures run[j].page[EPOCH_WORD] == Wrap(run[i].page[EPOCH_WORD] + run[j].bumps - run[i].bumps)
  {
    BumpsGrow(sizes, run, events, i, j);
    EpochInvAt(sizes, run, events, i);
    EpochFrom(sizes, run, events, i, j);
  }

  // ----- the cached key -----

  /** What a writer remembers is the key of the last completed publication, and only its own
  publication in hand can be unfinished once it remembers one. */
  ghost predicate KeyInv(sizes: Sizes, s: State) {
    s.writer.Some? ==>
      var w := s.writer.value;
      && (w.last.Some? ==> s.log != [])
      && (w.last.Some? && s.unfinished ==> w.act.Publishing? && w.act.done > 0)
      && (w.act.Publishing? ==>
          && WriterFits(sizes, w)
          && w.act.due == (w.last.None? || w.last.value != w.act.pub.key)
          && w.act.done <= |Stores(sizes, w)|
          && (w.act.done > 0 ==> s.unfinished)
          && (Seqlock.AfterEven(w) ==> s.log != [] && Last(s) == w.act.pub))
      && (w.last.Some? && !Seqlock.AfterEven(w) ==> Last(s).key == w.last.value)
  }

  lemma KeyStep(sizes: Sizes, s: State, e: Event)
    requires Enabled(sizes, s, e) && KeyInv(sizes, s)
    ensures KeyInv(sizes, Next(sizes, s, e))
  {
  }

  lemma {:induction false} KeyInvAt(sizes: Sizes, run: seq<State>, events: seq<Event>, i: nat)
    requires Run(sizes, run, events) && i < |run|
    ensures KeyInv(sizes, run[i])
  {
    if i > 0 {
      KeyInvAt(sizes, run, events, i - 1);
      KeyStep(sizes, run[i - 1], events[i - 1]);
    }
  }

  /** A publication was started and notifyEpoch will move before any publication completes: it is due
  and has not bumped, or it was cut short and the next one, the first after a resume, is due. */
  predicate Owes(s: State) {
    && s.unfinished
    && !(&& s.writer.Some? && s.writer.value.act.Publishing?
         && (!s.writer.value.act.due || Bumped(s.writer.value)))
  }

  /** Since a moment with this bump count: a bump, a bump owed, or still the same key. */
  ghost predicate KeyKept(s: State, bumps: nat, key: NotifyKey) {
    s.bumps > bumps || Owes(s) || (s.log != [] && Last(s).key == key)
  }

  lemma KeyKeptStep(sizes: Sizes, s: State, e: Event, bumps: nat, key: NotifyKey)
    requires Enabled(sizes, s, e) && KeyInv(sizes, s) && s.bumps >= bumps && KeyKept(s, bumps, key)
    ensures KeyKept(Next(sizes, s, e), bumps, key)
  {
  }

  lemma {:induction false} KeyKeptAt(sizes: Sizes, run: seq<State>, events: seq<Event>, i: nat, j: nat)
    requires Run(sizes, run, events) && i <= j < |run| && run[i].log != []
    ensures KeyKept(run[j], run[i].bumps, Last(run[i]).key)
    decreases j
  {
    if i < j {
      KeyKeptAt(sizes, run, events, i, j - 1);
      KeyInvAt(sizes, run, events, j - 1);
      BumpsGrow(sizes, run, events, i, j - 1);
      KeyKeptStep(sizes, run[j - 1], events[j - 1], run[i].bumps, Last(run[i]).key);
    }
  }

  /** The epoch a waiter compares: the whole word, or its low half as the futex target. */
  ghost predicate EpochStandsStill(run: seq<State>, t0: nat, t: nat)
    requires t0 <= t < |run|
  {
    var moved := run[t].bumps - run[t0].bumps;
    || (run[t].page[EPOCH_WORD] == run[t0].page[EPOCH_WORD] && moved < WORD_LIMIT)
    || (run[t].page[EPOCH_WORD] % HALF_LIMIT == run[t0].page[EPOCH_WORD] % HALF_LIMIT && moved < HALF_LIMIT)
  }

  lemma LowHalfInjective(x: int, d: nat)
    requires d < HALF_LIMIT && Wrap(x + d) % HALF_LIMIT == x % HALF_LIMIT
    ensures d == 0
  {
    assert Wrap(x + d) % HALF_LIMIT == (x + d) % HALF_LIMIT;
  }

  lemma StandsStillMeansNoBump(sizes: Sizes, run: seq<State>, events: seq<Event>, t0: nat, t: nat)
    requires Run(sizes, run, events) && t0 <= t < |run| && EpochInv(sizes, run[t0])
    requires EpochStandsStill(run, t0, t)
    ensures run[t].bumps == run[t0].bumps
  {
    BumpsGrow(sizes, run, events, t0, t);
    EpochFrom(sizes, run, events, t0, t);
    SameEpoch(run[t0].page[EPOCH_WORD], run[t].page[EPOCH_WORD], run[t].bumps - run[t0].bumps);
  }

  /** A count that shows the same word, or the same half within its range, has not moved. */
  lemma SameEpoch(e: Word, e': Word, d: nat)
    requires e' == Wrap(e + d)
    requires (e' == e && d < WORD_LIMIT) || (e' % HALF_LIMIT == e % HALF_LIMIT && d < HALF_LIMIT)
    ensures d == 0
  {
    if e' == e && d < WORD_LIMIT {
      WrapInjective(e, d);
    } else {
      LowHalfInjective(e, d);
    }
  }

  /** A reader loads notifyEpoch at t0, then takes a stable read; if at t the epoch still stands and no
  publication is in hand or cut short, the page still holds a snapshot with the key that was read. */
  lemma NoLostWakeup(sizes: Sizes, run: seq<State>, events: seq<Event>, t0: nat, i: nat, at: seq<nat>, k: nat, t: nat)
    requires Run(sizes, run, events) && Seqlock.SeqStart(run[0].page) && EpochStart(run[0].page)
    requires t0 <= i && Seqlock.StableRead(run, i, at, k) && k <= t < |run|
    requires EpochStandsStill(run, t0, t) && !run[t].unfinished
    ensures run[i].log != [] && run[t].log != []
    ensures Last(run[t]).key == Last(run[i]).key
  {
    Seqlock.SeqlockSafety(sizes, run, events, i, at, k);
    EpochInvAt(sizes, run, events, t0);
    StandsStillMeansNoBump(sizes, run, events, t0, t);
    BumpsGrow(sizes, run, events, t0, i);
    BumpsGrow(sizes, run, events, i, t);
    KeyKeptAt(sizes, run, events, i, t);
  }
}
