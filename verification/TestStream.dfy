/** The event stream of "go test -json", and what one test's events mean: its runs, cut at the result
events. */
module TestStream {
  /** One line of the stream; an event's fields are empty when the JSON has none. */
  datatype Line =
    | Blank
    | NotJson
    | Event(action: string, pkg: string, importPath: string, test: string, output: string)

  /** What a line is to the collector. */
  datatype Kind =
    | Nothing
    | Bad
    | Build(path: string, failed: bool)
    | OfPackage(pkg: string, event: TestEvent)
    | OfTest(pkg: string, test: string, event: TestEvent)

  datatype Action = Run | Output | Passed | Skipped | Failed | Other

  datatype TestEvent = TestEvent(action: Action, output: string)

  function ActionOf(s: string): Action {
    if s == "run" then Run
    else if s == "output" then Output
    else if s == "pass" then Passed
    else if s == "skip" then Skipped
    else if s == "fail" then Failed
    else Other
  }

  function Classify(l: Line): Kind {
    match l
    case Blank => Nothing
    case NotJson => Bad
    case Event(action, pkg, importPath, test, output) =>
      if pkg == "" && importPath != "" && "build-" <= action then Build(importPath, action == "build-fail")
      else if pkg == "" || action == "" then Bad
      else
        var event := TestEvent(ActionOf(action), output);
        if test == "" then OfPackage(pkg, event) else OfTest(pkg, test, event)
  }

  function Id(pkg: string, test: string): string {
    pkg + "::" + test
  }

  predicate About(k: Kind, id: string) {
    k.OfTest? && Id(k.pkg, k.test) == id
  }

  /** The events of one test id, in order. */
  function EventsOf(h: seq<Kind>, id: string): seq<TestEvent> {
    if h == [] then []
    else
      var n, k := |h| - 1, h[|h| - 1];
      EventsOf(h[..n], id) + if About(k, id) then [k.event] else []
  }

  // ----- runs -----

  predicate IsResult(e: TestEvent) {
    e.action == Passed || e.action == Skipped || e.action == Failed
  }

  /** The events cut after each result event: the runs that ended, and what came after the last. */
  datatype Runs = Runs(closed: seq<seq<TestEvent>>, tail: seq<TestEvent>)

  function Cut(evs: seq<TestEvent>): Runs {
    if evs == [] then Runs([], [])
    else
      var r, e := Cut(evs[..|evs| - 1]), evs[|evs| - 1];
      if IsResult(e) then Runs(r.closed + [r.tail + [e]], []) else Runs(r.closed, r.tail + [e])
  }

  function Flat(runs: seq<seq<TestEvent>>): seq<TestEvent> {
    if runs == [] then [] else Flat(runs[..|runs| - 1]) + runs[|runs| - 1]
  }

  predicate NoResultIn(evs: seq<TestEvent>) {
    forall i :: 0 <= i < |evs| ==> !IsResult(evs[i])
  }

  predicate EndsInResult(run: seq<TestEvent>) {
    run != [] && IsResult(run[|run| - 1]) && NoResultIn(run[..|run| - 1])
  }

  /** The cut loses no event, and a run that ended holds exactly one result event, its last. */
  lemma {:induction false} CutShape(evs: seq<TestEvent>)
    ensures var r := Cut(evs);
            && Flat(r.closed) + r.tail == evs
            && (forall i :: 0 <= i < |r.closed| ==> EndsInResult(r.closed[i]))
            && NoResultIn(r.tail)
  {
    if evs != [] {
      var n := |evs| - 1;
      CutShape(evs[..n]);
      var r, e := Cut(evs[..n]), evs[n];
      assert evs == evs[..n] + [e];
      if IsResult(e) {
        FlatMore(r.closed, r.tail + [e]);
        assert (r.tail + [e])[..|r.tail|] == r.tail;
        assert Flat(r.closed) + (r.tail + [e]) == Flat(r.closed) + r.tail + [e];
      }
    }
  }

  lemma FlatMore(runs: seq<seq<TestEvent>>, run: seq<TestEvent>)
    ensures Flat(runs + [run]) == Flat(runs) + run
  {
    assert (runs + [run])[..|runs|] == runs;
  }

  /** The text of the output events. */
  function Outputs(evs: seq<TestEvent>): string {
    if evs == [] then ""
    else Outputs(evs[..|evs| - 1]) + if evs[|evs| - 1].action == Output then evs[|evs| - 1].output else ""
  }

  predicate Ended(run: seq<TestEvent>, verdict: Action) {
    run != [] && run[|run| - 1].action == verdict
  }

  /** The outputs of the runs that failed. */
  function FailedOutputs(runs: seq<seq<TestEvent>>): seq<string> {
    if runs == [] then []
    else
      var last := runs[|runs| - 1];
      FailedOutputs(runs[..|runs| - 1]) + if Ended(last, Failed) then [Outputs(last)] else []
  }

  predicate Started(evs: seq<TestEvent>) {
    exists i :: 0 <= i < |evs| && (evs[i].action == Run || evs[i].action == Output)
  }

  datatype Status = NoResult | Pass | Skip | Fail

  predicate SomeFailed(runs: seq<seq<TestEvent>>) {
    exists i :: 0 <= i < |runs| && Ended(runs[i], Failed)
  }

  /** One failed run decides; otherwise the last run that ended does. */
  function StatusOf(runs: seq<seq<TestEvent>>): Status {
    if SomeFailed(runs) then Fail
    else if runs == [] then NoResult
    else if Ended(runs[|runs| - 1], Passed) then Pass
    else Skip
  }

  datatype TestState =
    TestState(status: Status, output: string, failedRuns: seq<string>, run: string, open: bool)

  /** What the collector holds of a test after these events, said over whole runs. */
  function StateOf(evs: seq<TestEvent>): TestState {
    var r := Cut(evs);
    TestState(StatusOf(r.closed), Outputs(evs), FailedOutputs(r.closed), Outputs(r.tail), Started(r.tail))
  }

  /** What the collector does to a test's record on one event. */
  function Apply(t: TestState, e: TestEvent): TestState {
    if e.action == Run then t.(open := true)
    else if e.action == Output then t.(output := t.output + e.output, run := t.run + e.output, open := true)
    else if e.action == Passed || e.action == Skipped then
      t.(status := if t.status == Fail then Fail else if e.action == Passed then Pass else Skip,
         run := "", open := false)
    else if e.action == Failed then
      t.(status := Fail, failedRuns := t.failedRuns + [t.run], run := "", open := false)
    else t
  }

  const FRESH := TestState(NoResult, "", [], "", false)

  lemma OutputsMore(evs: seq<TestEvent>, e: TestEvent)
    ensures Outputs(evs + [e]) == if e.action == Output then Outputs(evs) + e.output else Outputs(evs)
  {
    assert (evs + [e])[..|evs|] == evs;
  }

  lemma StatusMore(runs: seq<seq<TestEvent>>, run: seq<TestEvent>)
    requires EndsInResult(run)
    ensures StatusOf(runs + [run]) ==
            if Ended(run, Failed) || StatusOf(runs) == Fail then Fail
            else if Ended(run, Passed) then Pass else Skip
  {
    var more := runs + [run];
    assert more[|runs|] == run;
    assert forall i :: 0 <= i < |runs| ==> more[i] == runs[i];
    if SomeFailed(runs) {
      var i :| 0 <= i < |runs| && Ended(runs[i], Failed);
      assert Ended(more[i], Failed);
    }
  }

  /** Event by event, the record is what the runs say. */
  lemma StateStep(evs: seq<TestEvent>, e: TestEvent)
    ensures StateOf(evs + [e]) == Apply(StateOf(evs), e)
  {
    var r := Cut(evs);
    assert (evs + [e])[..|evs|] == evs;
    OutputsMore(evs, e);
    OutputsMore(r.tail, e);
    if IsResult(e) {
      CutShape(evs);
      var run := r.tail + [e];
      assert run[..|r.tail|] == r.tail;
      StatusMore(r.closed, run);
      assert (r.closed + [run])[..|r.closed|] == r.closed;
      assert FailedOutputs(r.closed) + [] == FailedOutputs(r.closed);
    } else {
      StartedMore(r.tail, e);
    }
  }

  lemma StartedMore(evs: seq<TestEvent>, e: TestEvent)
    ensures Started(evs + [e]) <==> Started(evs) || e.action == Run || e.action == Output
  {
    var more := evs + [e];
    assert more[|evs|] == e;
    if Started(evs) {
      var i :| 0 <= i < |evs| && (evs[i].action == Run || evs[i].action == Output);
      assert more[i] == evs[i];
    }
  }

  // ----- what the stream says outside any test -----

  /** A list that keeps the first appearance of each value. */
  function AddNew(s: seq<string>, x: string): seq<string> {
    if x in s then s else s + [x]
  }

  predicate Distinct(s: seq<string>) {
    forall i, j :: 0 <= i < j < |s| ==> s[i] != s[j]
  }

  /** Every test id, in order of first appearance. */
  function OrderOf(h: seq<Kind>): seq<string> {
    if h == [] then []
    else
      var before, k := OrderOf(h[..|h| - 1]), h[|h| - 1];
      if k.OfTest? then AddNew(before, Id(k.pkg, k.test)) else before
  }

  /** The packages with output of their own, in order of first appearance. */
  function PkgSeenOf(h: seq<Kind>): seq<string> {
    if h == [] then []
    else
      var before, k := PkgSeenOf(h[..|h| - 1]), h[|h| - 1];
      if k.OfPackage? && k.event.action == Output then AddNew(before, k.pkg) else before
  }

  function PkgTextOf(h: seq<Kind>, pkg: string): string {
    if h == [] then ""
    else
      var k := h[|h| - 1];
      PkgTextOf(h[..|h| - 1], pkg) + if k.OfPackage? && k.event.action == Output && k.pkg == pkg
        then k.event.output else ""
  }

  /** The packages that failed, in order of first failure. */
  function PkgFailsOf(h: seq<Kind>): seq<string> {
    if h == [] then []
    else
      var before, k := PkgFailsOf(h[..|h| - 1]), h[|h| - 1];
      if k.OfPackage? && k.event.action == Failed then AddNew(before, k.pkg) else before
  }

  predicate TestFails(k: Kind, pkg: string) {
    k.OfTest? && k.event.action == Failed && k.pkg == pkg
  }

  /** Some test of the package failed. */
  predicate HasTestFail(h: seq<Kind>, pkg: string) {
    exists i :: 0 <= i < |h| && TestFails(h[i], pkg)
  }

  function BuildFailsOf(h: seq<Kind>): seq<string> {
    if h == [] then []
    else
      var k := h[|h| - 1];
      BuildFailsOf(h[..|h| - 1]) + if k.Build? && k.failed then [k.path] else []
  }

  /** The numbers of the lines that are not events, counted from 1. */
  function BadLinesOf(h: seq<Kind>): seq<nat> {
    if h == [] then [] else BadLinesOf(h[..|h| - 1]) + if h[|h| - 1].Bad? then [|h|] else []
  }
}
