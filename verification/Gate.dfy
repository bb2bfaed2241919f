/** The whole gate: a stream of test events through the collector and the registry to an exit status. */
module Gate {
  import opened TestStream
  import opened TestOutput
  import opened Collecting
  import opened Quarantine
  import opened Verdict

  // ----- runs and events -----

  predicate HasFailEvent(evs: seq<TestEvent>) {
    exists i :: 0 <= i < |evs| && evs[i].action == Failed
  }

  /** A test fails exactly when it has a fail event, wherever it stands among its other results. */
  lemma {:induction false} FailEventFails(evs: seq<TestEvent>)
    ensures SomeFailed(Cut(evs).closed) <==> HasFailEvent(evs)
  {
    if evs != [] {
      var n, e := |evs| - 1, evs[|evs| - 1];
      FailEventFails(evs[..n]);
      assert forall i :: 0 <= i < n ==> evs[..n][i] == evs[i];
      assert HasFailEvent(evs) <==> HasFailEvent(evs[..n]) || e.action == Failed;
      if IsResult(e) {
        SomeFailedMore(Cut(evs[..n]).closed, Cut(evs[..n]).tail + [e]);
      }
    }
  }

  lemma SomeFailedMore(runs: seq<seq<TestEvent>>, run: seq<TestEvent>)
    ensures SomeFailed(runs + [run]) <==> SomeFailed(runs) || Ended(run, Failed)
  {
    var more := runs + [run];
    assert more[|runs|] == run;
    if SomeFailed(runs) {
      var i :| 0 <= i < |runs| && Ended(runs[i], Failed);
      assert more[i] == runs[i];
    }
  }

  /** How many of the first n runs failed. */
  function FailedBefore(runs: seq<seq<TestEvent>>, n: nat): nat
    requires n <= |runs|
  {
    if n == 0 then 0 else FailedBefore(runs, n - 1) + if Ended(runs[n - 1], Failed) then 1 else 0
  }

  lemma {:induction false} FailedBeforePrefix(runs: seq<seq<TestEvent>>, m: nat, n: nat)
    requires n <= m <= |runs|
    ensures FailedBefore(runs[..m], n) == FailedBefore(runs, n)
  {
    if n > 0 {
      FailedBeforePrefix(runs, m, n - 1);
    }
  }

  /** The recorded failed runs are the outputs of the runs that failed, each at its own place: run i, if it
  failed, stands after as many as failed before it, and there are no others. */
  lemma {:induction false} FailedOutputsMean(runs: seq<seq<TestEvent>>)
    ensures |FailedOutputs(runs)| == FailedBefore(runs, |runs|)
    ensures forall i :: 0 <= i < |runs| && Ended(runs[i], Failed) ==>
              FailedBefore(runs, i) < |FailedOutputs(runs)| && FailedOutputs(runs)[FailedBefore(runs, i)] == Outputs(runs[i])
  {
    if runs != [] {
      var n := |runs| - 1;
      FailedOutputsMean(runs[..n]);
      FailedBeforePrefix(runs, n, n);
      forall i | 0 <= i < |runs| && Ended(runs[i], Failed)
        ensures FailedBefore(runs, i) < |FailedOutputs(runs)| && FailedOutputs(runs)[FailedBefore(runs, i)] == Outputs(runs[i])
      {
        if i < n {
          FailedBeforePrefix(runs, n, i);
          assert runs[..n][i] == runs[i];
        }
      }
    }
  }

  predicate FailsTest(h: seq<Kind>, id: string) {
    exists i :: 0 <= i < |h| && About(h[i], id) && h[i].event.action == Failed
  }

  lemma {:induction false} FailLineIsEvent(h: seq<Kind>, id: string)
    ensures HasFailEvent(EventsOf(h, id)) <==> FailsTest(h, id)
  {
    if h != [] {
      var n, k := |h| - 1, h[|h| - 1];
      FailLineIsEvent(h[..n], id);
      assert forall i :: 0 <= i < n ==> h[..n][i] == h[i];
      assert FailsTest(h, id) <==> FailsTest(h[..n], id) || (About(k, id) && k.event.action == Failed);
      var before := EventsOf(h[..n], id);
      if About(k, id) {
        assert EventsOf(h, id)[|before|] == k.event;
        assert forall i :: 0 <= i < |before| ==> EventsOf(h, id)[i] == before[i];
      } else {
        assert EventsOf(h, id) == before;
      }
    }
  }

  // ----- members of the results -----

  lemma {:induction false} TestResultAt(h: seq<Kind>, ids: seq<string>, i: nat)
    requires i < |ids|
    ensures TestResults(h, ids)[i] == ResultOf(ids[i], StateOf(EventsOf(h, ids[i])))
  {
    var n := |ids| - 1;
    if i < n {
      TestResultAt(h, ids[..n], i);
      assert TestResults(h, ids)[i] == TestResults(h, ids[..n])[i];
      assert ids[..n][i] == ids[i];
    } else {
      assert TestResults(h, ids)[i] == ResultOf(ids[n], StateOf(EventsOf(h, ids[n])));
    }
  }

  lemma {:induction false} TestResultsMean(h: seq<Kind>, ids: seq<string>, r: Result)
    ensures r in TestResults(h, ids) <==> exists i :: 0 <= i < |ids| && r == ResultOf(ids[i], StateOf(EventsOf(h, ids[i])))
  {
    var rs := TestResults(h, ids);
    forall i | 0 <= i < |ids| ensures rs[i] == ResultOf(ids[i], StateOf(EventsOf(h, ids[i]))) {
      TestResultAt(h, ids, i);
    }
  }

  lemma {:induction false} RaceResultsMean(h: seq<Kind>, pkgs: seq<string>, r: Result)
    ensures r in RaceResults(h, pkgs) <==>
            exists i :: 0 <= i < |pkgs| && Raced(h, pkgs[i]) && r == RaceResult(pkgs[i], MarkerFrom(PkgTextOf(h, pkgs[i]), 0))
  {
    if pkgs != [] {
      var n := |pkgs| - 1;
      RaceResultsMean(h, pkgs[..n], r);
      assert forall i :: 0 <= i < n ==> pkgs[..n][i] == pkgs[i];
    }
  }

  lemma {:induction false} PackageResultsMean(h: seq<Kind>, pkgs: seq<string>, r: Result)
    ensures r in PackageResults(h, pkgs) <==>
            exists i :: 0 <= i < |pkgs| && !HasTestFail(h, pkgs[i]) && !Raced(h, pkgs[i]) && r == PackageResult(pkgs[i])
  {
    if pkgs != [] {
      var n := |pkgs| - 1;
      PackageResultsMean(h, pkgs[..n], r);
      assert r in PackageResults(h, pkgs) <==>
             r in PackageResults(h, pkgs[..n])
             || (!HasTestFail(h, pkgs[n]) && !Raced(h, pkgs[n]) && r == PackageResult(pkgs[n]));
      assert forall i :: 0 <= i < n ==> pkgs[..n][i] == pkgs[i];
    }
  }

  lemma {:induction false} BuildResultsMean(paths: seq<string>, r: Result)
    ensures r in BuildResults(paths) <==> exists i :: 0 <= i < |paths| && r == BuildResult(paths[i])
  {
    if paths != [] {
      var n := |paths| - 1;
      BuildResultsMean(paths[..n], r);
      assert forall i :: 0 <= i < n ==> paths[..n][i] == paths[i];
    }
  }

  // ----- when every result is good -----

  predicate Good(r: Result) {
    r.status == Pass || r.status == Skip
  }

  predicate AllGood(rs: seq<Result>) {
    forall r :: r in rs ==> Good(r)
  }

  /** The test's last run reported, and nothing started after it. */
  predicate Finished(h: seq<Kind>, id: string) {
    var runs := Cut(EventsOf(h, id));
    runs.closed != [] && !Started(runs.tail)
  }

  predicate FailLine(k: Kind) {
    || ((k.OfTest? || k.OfPackage?) && k.event.action == Failed)
    || (k.Build? && k.failed)
  }

  /** No line reports a failure, every test that appears finished, and no package printed a race report. */
  predicate CleanStream(h: seq<Kind>) {
    && (forall i :: 0 <= i < |h| ==> !FailLine(h[i]))
    && (forall id :: id in OrderOf(h) ==> Finished(h, id))
    && (forall p :: p in PkgSeenOf(h) ==> !Raced(h, p))
  }

  lemma {:induction false} GoodTest(h: seq<Kind>, id: string)
    ensures Good(ResultOf(id, StateOf(EventsOf(h, id)))) <==> Finished(h, id) && !FailsTest(h, id)
  {
    FailEventFails(EventsOf(h, id));
    FailLineIsEvent(h, id);
  }

  lemma {:induction false} GoodTests(h: seq<Kind>, ids: seq<string>)
    ensures AllGood(TestResults(h, ids)) <==> forall id :: id in ids ==> Finished(h, id) && !FailsTest(h, id)
  {
    forall id | id in ids
      ensures ResultOf(id, StateOf(EventsOf(h, id))) in TestResults(h, ids)
      ensures Good(ResultOf(id, StateOf(EventsOf(h, id)))) <==> Finished(h, id) && !FailsTest(h, id)
    {
      TestResultsMean(h, ids, ResultOf(id, StateOf(EventsOf(h, id))));
      GoodTest(h, id);
    }
    forall r | r in TestResults(h, ids)
      ensures exists id :: id in ids && r == ResultOf(id, StateOf(EventsOf(h, id)))
    {
      TestResultsMean(h, ids, r);
    }
  }

  lemma {:induction false} GoodRaces(h: seq<Kind>, pkgs: seq<string>)
    ensures AllGood(RaceResults(h, pkgs)) <==> forall p :: p in pkgs ==> !Raced(h, p)
  {
    forall p | p in pkgs && Raced(h, p) ensures !AllGood(RaceResults(h, pkgs)) {
      var r := RaceResult(p, MarkerFrom(PkgTextOf(h, p), 0));
      RaceResultsMean(h, pkgs, r);
      assert r in RaceResults(h, pkgs) && !Good(r);
    }
    forall r | r in RaceResults(h, pkgs) ensures exists p :: p in pkgs && Raced(h, p) {
      RaceResultsMean(h, pkgs, r);
    }
  }

  lemma {:induction false} GoodPackages(h: seq<Kind>, pkgs: seq<string>)
    ensures AllGood(PackageResults(h, pkgs)) <==> forall p :: p in pkgs ==> HasTestFail(h, p) || Raced(h, p)
  {
    forall p | p in pkgs && !HasTestFail(h, p) && !Raced(h, p) ensures !AllGood(PackageResults(h, pkgs)) {
      PackageResultsMean(h, pkgs, PackageResult(p));
      assert PackageResult(p) in PackageResults(h, pkgs) && !Good(PackageResult(p));
    }
    forall r | r in PackageResults(h, pkgs) ensures exists p :: p in pkgs && !HasTestFail(h, p) && !Raced(h, p) {
      PackageResultsMean(h, pkgs, r);
    }
  }

  lemma {:induction false} GoodBuilds(paths: seq<string>)
    ensures AllGood(BuildResults(paths)) <==> paths == []
  {
    if paths != [] {
      BuildResultsMean(paths, BuildResult(paths[0]));
      assert BuildResult(paths[0]) in BuildResults(paths) && !Good(BuildResult(paths[0]));
    }
  }

  lemma AllGoodConcat(a: seq<Result>, b: seq<Result>)
    ensures AllGood(a + b) <==> AllGood(a) && AllGood(b)
  {
    assert forall r :: r in a + b <==> r in a || r in b;
  }

  // ----- what the lists say of the lines -----

  predicate FailsPackage(k: Kind, p: string) {
    k.OfPackage? && k.event.action == Failed && k.pkg == p
  }

  lemma {:induction false} PackageFailLines(h: seq<Kind>, p: string)
    ensures p in PkgFailsOf(h) <==> exists i :: 0 <= i < |h| && FailsPackage(h[i], p)
  {
    if h != [] {
      var n := |h| - 1;
      PackageFailLines(h[..n], p);
      assert forall i :: 0 <= i < n ==> h[..n][i] == h[i];
    }
  }

  lemma {:induction false} BuildFailLines(h: seq<Kind>)
    ensures BuildFailsOf(h) != [] <==> exists i :: 0 <= i < |h| && h[i].Build? && h[i].failed
  {
    if h != [] {
      var n := |h| - 1;
      BuildFailLines(h[..n]);
      assert forall i :: 0 <= i < n ==> h[..n][i] == h[i];
    }
  }

  lemma {:induction false} TestLines(h: seq<Kind>, id: string)
    ensures id in OrderOf(h) <==> exists i :: 0 <= i < |h| && About(h[i], id)
  {
    if h != [] {
      var n := |h| - 1;
      TestLines(h[..n], id);
      assert forall i :: 0 <= i < n ==> h[..n][i] == h[i];
    }
  }

  /** Every result is good exactly when the stream is clean: no failure line of any kind is lost on the way. */
  lemma {:induction false} GoodIsClean(h: seq<Kind>)
    ensures AllGood(ResultsOf(h)) <==> CleanStream(h)
  {
    var tests, races, packages, builds :=
      TestResults(h, OrderOf(h)), RaceResults(h, PkgSeenOf(h)), PackageResults(h, PkgFailsOf(h)), BuildResults(BuildFailsOf(h));
    AllGoodConcat(tests, races);
    AllGoodConcat(tests + races, packages);
    AllGoodConcat(tests + races + packages, builds);
    GoodTests(h, OrderOf(h));
    GoodRaces(h, PkgSeenOf(h));
    GoodPackages(h, PkgFailsOf(h));
    GoodBuilds(BuildFailsOf(h));
    BuildFailLines(h);
    if CleanStream(h) {
      CleanIsGood(h);
    }
    if AllGood(ResultsOf(h)) {
      GoodHasNoFailLine(h);
    }
  }

  lemma {:induction false} CleanIsGood(h: seq<Kind>)
    requires CleanStream(h)
    ensures forall id :: id in OrderOf(h) ==> !FailsTest(h, id)
    ensures forall p :: p !in PkgFailsOf(h)
  {
    forall id | id in OrderOf(h) ensures !FailsTest(h, id) {
      assert forall i :: 0 <= i < |h| ==> !FailLine(h[i]);
    }
    forall p ensures p !in PkgFailsOf(h) {
      PackageFailLines(h, p);
      assert forall i :: 0 <= i < |h| ==> !FailLine(h[i]);
    }
  }

  lemma {:induction false} GoodHasNoFailLine(h: seq<Kind>)
    requires forall id :: id in OrderOf(h) ==> !FailsTest(h, id)
    requires forall p :: p in PkgFailsOf(h) ==> HasTestFail(h, p) || Raced(h, p)
    requires forall p :: p in PkgSeenOf(h) ==> !Raced(h, p)
    requires BuildFailsOf(h) == []
    ensures forall i :: 0 <= i < |h| ==> !FailLine(h[i])
  {
    BuildFailLines(h);
    forall i | 0 <= i < |h| ensures !FailLine(h[i]) {
      var k := h[i];
      if k.OfTest? && k.event.action == Failed {
        TestFailLine(h, i);
      } else if k.OfPackage? && k.event.action == Failed {
        PackageFailLines(h, k.pkg);
        assert FailsPackage(h[i], k.pkg);
        if HasTestFail(h, k.pkg) {
          var j :| 0 <= j < |h| && TestFails(h[j], k.pkg);
          TestFailLine(h, j);
        }
      }
    }
  }

  lemma {:induction false} TestFailLine(h: seq<Kind>, i: nat)
    requires i < |h| && h[i].OfTest? && h[i].event.action == Failed
    ensures var id := Id(h[i].pkg, h[i].test); id in OrderOf(h) && FailsTest(h, id)
  {
    var id := Id(h[i].pkg, h[i].test);
    TestLines(h, id);
    assert About(h[i], id);
  }

  // ----- the run -----

  function Kinds(stream: seq<Line>): (h: seq<Kind>)
    ensures |h| == |stream| && forall i :: 0 <= i < |h| ==> h[i] == Classify(stream[i])
  {
    seq(|stream|, i requires 0 <= i < |stream| => Classify(stream[i]))
  }

  /** Everything a run is judged by besides its stream. */
  datatype Setting = Setting(entries: seq<Entry>, errs: seq<string>, full: bool, edited: seq<string>, today: int)

  ghost function ReportsOf(h: seq<Kind>, g: Setting): seq<Report> {
    Reports(g.entries, g.errs, RulesOf(g.entries, g.full, g.edited), ResultsOf(h), g.today)
  }

  ghost predicate RedRun(h: seq<Kind>, unread: bool, g: Setting) {
    unread || BadLinesOf(h) != [] || ResultsOf(h) == [] || AnyRed(ReportsOf(h, g))
  }

  /** 1 for a red run, 3 for one whose failures are all excused, 0 for one without any. */
  ghost function ExitFor(h: seq<Kind>, unread: bool, g: Setting): int {
    if RedRun(h, unread, g) then 1 else if exists r :: r in ResultsOf(h) && r.status == Fail then 3 else 0
  }

  /** Lines to results: the scanning loop of run. */
  method Collect(stream: seq<Line>) returns (results: seq<Result>, errs: seq<nat>)
    ensures results == ResultsOf(Kinds(stream)) && errs == BadLinesOf(Kinds(stream))
  {
    var c := new Collector();
    ghost var h := Kinds(stream);
    assert h[..0] == [];
    for i := 0 to |stream|
      invariant c.Held() == RecordsOf(h[..i])
    {
      assert h[..i + 1] == h[..i] + [Classify(stream[i])];
      c.Take(h[..i], i + 1, stream[i]);
    }
    assert h[..|stream|] == h;
    results := c.Results(h);
    BuildsAndErrors(h);
    errs := c.errs;
  }

  method CountFailed(results: seq<Result>) returns (failed: nat)
    ensures failed == FailedCount(results)
  {
    failed := 0;
    for i := 0 to |results|
      invariant failed == FailedCount(results[..i])
    {
      assert results[..i + 1][..i] == results[..i];
      if results[i].status == Fail {
        failed := failed + 1;
      }
    }
    assert results[..|results|] == results;
  }

  /** run, from the stream to the exit status; unread says that reading the stream failed. */
  method RunGate(stream: seq<Line>, unread: bool, g: Setting) returns (exit: int)
    ensures exit == ExitFor(Kinds(stream), unread, g)
    ensures exit == 1 <==> RedRun(Kinds(stream), unread, g)
    ensures exit == 3 <==> !RedRun(Kinds(stream), unread, g) && FailedCount(ResultsOf(Kinds(stream))) > 0
    ensures exit == 0 <==> !RedRun(Kinds(stream), unread, g) && FailedCount(ResultsOf(Kinds(stream))) == 0
  {
    var results, errs := Collect(stream);
    var red, excused, lines := Evaluate(g.entries, g.errs, results, g.full, g.edited, g.today);
    assert lines == ReportsOf(Kinds(stream), g);
    if |errs| > 0 || unread {
      red := true;
    }
    if |results| == 0 && |errs| == 0 {
      red := true;
    }
    var failed := CountFailed(results);
    exit := Exit(red, excused, failed);
    LinesInReports(Kinds(stream), g);
    ExitExact(RulesOf(g.entries, g.full, g.edited), results, red);
    CountsFailed(results);
  }

  lemma LinesInReports(h: seq<Kind>, g: Setting)
    ensures var rules, rs := RulesOf(g.entries, g.full, g.edited), ResultsOf(h);
            AnyRed(ReportsOf(h, g)) <==>
            || AnyRed(Errors(g.errs) + Expired(g.entries, g.today))
            || AnyRed(Lines(rules, ScanOf(rules, rs), rs))
  {
    var rules, rs := RulesOf(g.entries, g.full, g.edited), ResultsOf(h);
    AnyRedConcat(Errors(g.errs) + Expired(g.entries, g.today), Lines(rules, ScanOf(rules, rs), rs));
  }
}
