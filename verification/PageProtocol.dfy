/** The budget page as a transition system whose steps are single 8-byte stores.

One writer at a time holds the page. It resumes, publishes, and may die between any two stores; a
later writer, of any minor, resumes over whatever is left. Readers load words at any point of a
run. Every store and load is sequentially consistent. The body size of a minor is a parameter. */
module PageProtocol {
  import opened Vocabulary
  import opened PageWords
  import opened Snapshot

  /** The body size in bytes of every minor. */
  type Sizes = nat -> nat

  function BodyWords(bodySize: nat): nat {
    (bodySize + 7) / 8
  }

  /** What a publication carries: its body words and its notify key. */
  datatype Pub = Pub(body: seq<Word>, key: NotifyKey)

  datatype Activity =
    | Idle
    | Resuming(base: Page, done: nat)
    | Publishing(pub: Pub, due: bool, done: nat)

  /** A writer's memory. last is None until its first publication after a resume. */
  datatype Writer = Writer(minor: nat, seqWord: Word, epoch: Word, resumed: bool, last: Option<NotifyKey>, act: Activity)

  /** The page, its writer, and the history the properties speak of: the publications whose even seq
  was stored, how many were started (odd seq stored), how often notifyEpoch was stored, and whether
  a publication was started and neither it nor a later one completed. */
  datatype State = State(
    page: Page, writer: Option<Writer>, log: seq<Pub>, started: nat, bumps: nat, unfinished: bool)

  datatype Event =
    | StartResume(minor: nat)
    | StartPublish(pub: Pub)
    | DoStore
    | Finish
    | Crash
    | Observe

  ghost predicate WriterFits(sizes: Sizes, w: Writer) {
    && w.minor < SHORT_LIMIT
    && sizes(w.minor) <= PAGE_BODY_LIMIT - PAGE_HEADER_SIZE
    && (w.act.Publishing? ==> |w.act.pub.body| == BodyWords(sizes(w.minor)))
  }

  /** The stores of the activity in hand. */
  ghost function Stores(sizes: Sizes, w: Writer): (stores: seq<Store>)
    requires WriterFits(sizes, w)
    ensures InPage(stores)
  {
    match w.act
    case Idle => []
    case Resuming(base, _) => ResumeStores(base, w.minor, sizes(w.minor))
    case Publishing(pub, due, _) => PublishStores(w.seqWord, w.epoch, pub.body, due)
  }

  function Done(w: Writer): nat {
    match w.act
    case Idle => 0
    case Resuming(_, done) => done
    case Publishing(_, _, done) => done
  }

  ghost predicate Enabled(sizes: Sizes, s: State, e: Event) {
    match e
    case StartResume(minor) =>
      minor < SHORT_LIMIT && sizes(minor) <= PAGE_BODY_LIMIT - PAGE_HEADER_SIZE
      && (s.writer.None? || s.writer.value.act.Idle?)
    case StartPublish(pub) =>
      && s.writer.Some? && s.writer.value.act.Idle? && s.writer.value.resumed
      && WriterFits(sizes, s.writer.value)
      && |pub.body| == BodyWords(sizes(s.writer.value.minor))
    case DoStore =>
      && s.writer.Some? && WriterFits(sizes, s.writer.value)
      && Done(s.writer.value) < |Stores(sizes, s.writer.value)|
    case Finish =>
      && s.writer.Some? && WriterFits(sizes, s.writer.value) && !s.writer.value.act.Idle?
      && Done(s.writer.value) == |Stores(sizes, s.writer.value)|
    case Crash => s.writer.Some?
    case Observe => true
  }

  /** Resume's loads: over a recognised page the writer continues seq and notifyEpoch, otherwise both
  start at 0. */
  function Resumed(page: Page, minor: nat): Writer {
    if Recognised(page)
    then Writer(minor, RoundUp(page[SEQ_WORD]), page[EPOCH_WORD], false, None, Resuming(page, 0))
    else Writer(minor, 0, 0, false, None, Resuming(page, 0))
  }

  ghost function AfterStore(sizes: Sizes, s: State): State
    requires Enabled(sizes, s, DoStore)
  {
    var w := s.writer.value;
    var store := Stores(sizes, w)[Done(w)];
    var page := s.page[store.index := store.value];
    match w.act
    case Resuming(base, done) => s.(page := page, writer := Some(w.(act := Resuming(base, done + 1))))
    case Publishing(pub, due, done) =>
      s.(page := page,
         writer := Some(w.(act := Publishing(pub, due, done + 1))),
         log := if done == |pub.body| + 1 then s.log + [pub] else s.log,
         started := if done == 0 then s.started + 1 else s.started,
         bumps := if done == |pub.body| + 2 then s.bumps + 1 else s.bumps,
         unfinished := s.unfinished || done == 0)
  }

  ghost function AfterFinish(sizes: Sizes, s: State): State
    requires Enabled(sizes, s, Finish)
  {
    var w := s.writer.value;
    match w.act
    case Resuming(_, _) => s.(writer := Some(w.(resumed := true, last := None, act := Idle)))
    case Publishing(pub, due, _) =>
      s.(writer := Some(w.(seqWord := Wrap(w.seqWord + 2), epoch := if due then Wrap(w.epoch + 1) else w.epoch,
                           last := Some(pub.key), act := Idle)),
         unfinished := false)
  }

  ghost function Next(sizes: Sizes, s: State, e: Event): State
    requires Enabled(sizes, s, e)
  {
    match e
    case StartResume(minor) => s.(writer := Some(Resumed(s.page, minor)))
    case StartPublish(pub) =>
      var w := s.writer.value;
      s.(writer := Some(w.(act := Publishing(pub, w.last.None? || w.last.value != pub.key, 0))))
    case DoStore => AfterStore(sizes, s)
    case Finish => AfterFinish(sizes, s)
    case Crash => s.(writer := None)
    case Observe => s
  }

  /** A start: no writer yet. A page whose seq is even already holds a readable body, which counts as
  the publication before the first one. */
  ghost predicate Start(s: State) {
    && s.writer == None && s.started == 0 && s.bumps == 0 && !s.unfinished
    && (if s.page[SEQ_WORD] % 2 == 1 then s.log == []
        else |s.log| == 1 && s.log[0].body == s.page[BODY_WORD..])
  }

  ghost predicate Run(sizes: Sizes, run: seq<State>, events: seq<Event>) {
    && |run| == |events| + 1
    && Start(run[0])
    && forall i :: 0 <= i < |events| ==> Enabled(sizes, run[i], events[i]) && run[i + 1] == Next(sizes, run[i], events[i])
  }

  function Last(s: State): Pub
    requires s.log != []
  {
    s.log[|s.log| - 1]
  }
}
