/** The collector: a test stream line by line, into one record per test plus the failures that happened
outside any test. */
module Collecting {
  import opened TestOutput
  import opened TestStream

  /** Everything the collector holds. */
  datatype Records = Records(
    tests: map<string, TestState>, order: seq<string>, errs: seq<nat>,
    pkgFail: set<string>, pkgHasFail: set<string>, pkgOrder: seq<string>,
    pkgText: map<string, string>, pkgSeen: seq<string>, buildFail: seq<string>)

  const EMPTY := Records(map[], [], [], {}, {}, [], map[], [], [])

  function TestStep(r: Records, id: string, pkg: string, e: TestEvent): Records {
    r.(tests := r.tests[id := Apply(if id in r.tests then r.tests[id] else FRESH, e)],
       order := if id in r.tests then r.order else r.order + [id],
       pkgHasFail := if e.action == Failed then r.pkgHasFail + {pkg} else r.pkgHasFail)
  }

  function PackageStep(r: Records, pkg: string, e: TestEvent): Records {
    if e.action == Output then
      r.(pkgText := r.pkgText[pkg := (if pkg in r.pkgText then r.pkgText[pkg] else "") + e.output],
         pkgSeen := if pkg in r.pkgText then r.pkgSeen else r.pkgSeen + [pkg])
    else if e.action == Failed then
      r.(pkgFail := r.pkgFail + {pkg}, pkgOrder := if pkg in r.pkgFail then r.pkgOrder else r.pkgOrder + [pkg])
    else r
  }

  function Step(r: Records, n: nat, k: Kind): Records {
    match k
    case Nothing => r
    case Bad => r.(errs := r.errs + [n])
    case Build(path, failed) => if failed then r.(buildFail := r.buildFail + [path]) else r
    case OfPackage(pkg, e) => PackageStep(r, pkg, e)
    case OfTest(pkg, test, e) => TestStep(r, Id(pkg, test), pkg, e)
  }

  function RecordsOf(h: seq<Kind>): Records {
    if h == [] then EMPTY else Step(RecordsOf(h[..|h| - 1]), |h|, h[|h| - 1])
  }

  // ----- the results of a stream -----

  datatype Result = Result(test: string, status: Status, output: string, failedRuns: seq<string>)

  /** A run that never reported leaves its id without a result. */
  function ResultOf(id: string, t: TestState): Result {
    Result(id, if t.open then NoResult else t.status, t.output, t.failedRuns)
  }

  const RACED := "package output carries a race or sanitizer report outside any test: "

  predicate Raced(h: seq<Kind>, pkg: string) {
    pkg in PkgSeenOf(h) && MarkerFrom(PkgTextOf(h, pkg), 0) != ""
  }

  function RaceResult(pkg: string, marker: string): Result {
    Result(Id(pkg, "(package)"), Fail, RACED + marker, [])
  }

  function PackageResult(pkg: string): Result {
    Result(Id(pkg, "(package)"), Fail, "package failed outside any test", [])
  }

  function BuildResult(path: string): Result {
    Result(Id(path, "(build)"), Fail, "build failed", [])
  }

  function TestResults(h: seq<Kind>, ids: seq<string>): (rs: seq<Result>)
    ensures |rs| == |ids|
  {
    if ids == [] then []
    else
      var n := |ids| - 1;
      TestResults(h, ids[..n]) + [ResultOf(ids[n], StateOf(EventsOf(h, ids[n])))]
  }

  function RaceResults(h: seq<Kind>, pkgs: seq<string>): seq<Result> {
    if pkgs == [] then []
    else
      var n := |pkgs| - 1;
      RaceResults(h, pkgs[..n])
      + if Raced(h, pkgs[n]) then [RaceResult(pkgs[n], MarkerFrom(PkgTextOf(h, pkgs[n]), 0))] else []
  }

  function PackageResults(h: seq<Kind>, pkgs: seq<string>): seq<Result> {
    if pkgs == [] then []
    else
      var n := |pkgs| - 1;
      PackageResults(h, pkgs[..n])
      + if !HasTestFail(h, pkgs[n]) && !Raced(h, pkgs[n]) then [PackageResult(pkgs[n])] else []
  }

  function BuildResults(paths: seq<string>): seq<Result> {
    if paths == [] then [] else BuildResults(paths[..|paths| - 1]) + [BuildResult(paths[|paths| - 1])]
  }

  /** One result per test id, then the packages with a race report of their own, then the packages that
  failed outside any test, then the failed builds. */
  function ResultsOf(h: seq<Kind>): seq<Result> {
    TestResults(h, OrderOf(h)) + RaceResults(h, PkgSeenOf(h)) + PackageResults(h, PkgFailsOf(h))
    + BuildResults(BuildFailsOf(h))
  }

  class Collector {
    var tests: map<string, TestState>
    var order: seq<string>
    var errs: seq<nat>
    var pkgFail: set<string>
    var pkgHasFail: set<string>
    var pkgOrder: seq<string>
    var pkgText: map<string, string>
    var pkgSeen: seq<string>
    var buildFail: seq<string>

    function Held(): Records
      reads this
    {
      Records(tests, order, errs, pkgFail, pkgHasFail, pkgOrder, pkgText, pkgSeen, buildFail)
    }

    constructor ()
      ensures Held() == RecordsOf([])
    {
      tests, order, errs := map[], [], [];
      pkgFail, pkgHasFail, pkgOrder := {}, {}, [];
      pkgText, pkgSeen, buildFail := map[], [], [];
    }

    /** line: one more line of the stream. */
    method Take(ghost h: seq<Kind>, n: nat, l: Line)
      requires Held() == RecordsOf(h) && n == |h| + 1
      modifies this
      ensures Held() == RecordsOf(h + [Classify(l)])
    {
      var k := Classify(l);
      assert (h + [k])[..|h|] == h;
      TakeKind(n, k);
    }

    method TakeKind(n: nat, k: Kind)
      modifies this
      ensures Held() == Step(old(Held()), n, k)
    {
      match k {
        case Nothing =>
        case Bad =>
          errs := errs + [n];
        case Build(path, failed) =>
          if failed {
            buildFail := buildFail + [path];
          }
        case OfPackage(pkg, event) =>
          if event.action == Output {
            if pkg !in pkgText {
              pkgSeen := pkgSeen + [pkg];
            }
            pkgText := pkgText[pkg := (if pkg in pkgText then pkgText[pkg] else "") + event.output];
          }
          if event.action == Failed {
            if pkg !in pkgFail {
              pkgOrder := pkgOrder + [pkg];
            }
            pkgFail := pkgFail + {pkg};
          }
        case OfTest(pkg, test, event) =>
          TakeTest(Id(pkg, test), pkg, event);
      }
    }

    method TakeTest(id: string, pkg: string, event: TestEvent)
      modifies this
      ensures Held() == TestStep(old(Held()), id, pkg, event)
    {
      var t := if id in tests then tests[id] else FRESH;
      if id !in tests {
        order := order + [id];
      }
      match event.action {
        case Run => t := t.(open := true);
        case Output => t := t.(output := t.output + event.output, run := t.run + event.output, open := true);
        case Passed => t := t.(status := if t.status != Fail then Pass else Fail, run := "", open := false);
        case Skipped => t := t.(status := if t.status != Fail then Skip else Fail, run := "", open := false);
        case Failed =>
          t := t.(status := Fail, failedRuns := t.failedRuns + [t.run], run := "", open := false);
          pkgHasFail := pkgHasFail + {pkg};
        case Other =>
      }
      tests := tests[id := t];
    }

    /** results as written. */
    method Results(ghost h: seq<Kind>) returns (rs: seq<Result>)
      requires Held() == RecordsOf(h)
      ensures rs == ResultsOf(h)
    {
      RecordsMean(h);
      BuildsAndErrors(h);
      rs := ResultsOfTests(h, tests, order);
      var races, raced := ResultsOfRaces(h, pkgText, pkgSeen);
      var packages := ResultsOfPackages(h, pkgOrder, pkgHasFail, raced);
      var builds := ResultsOfBuilds(buildFail);
      rs := rs + races + packages + builds;
    }
  }

  method ResultsOfTests(ghost h: seq<Kind>, tests: map<string, TestState>, order: seq<string>) returns (rs: seq<Result>)
    requires forall id :: id in order ==> id in tests && tests[id] == StateOf(EventsOf(h, id))
    ensures rs == TestResults(h, order)
  {
    rs := [];
    for i := 0 to |order|
      invariant rs == TestResults(h, order[..i])
    {
      assert order[..i + 1][..i] == order[..i];
      rs := rs + [ResultOf(order[i], tests[order[i]])];
    }
    assert order[..|order|] == order;
  }

  method ResultsOfRaces(ghost h: seq<Kind>, text: map<string, string>, seen: seq<string>)
    returns (rs: seq<Result>, raced: set<string>)
    requires seen == PkgSeenOf(h) && forall p :: p in seen ==> p in text && text[p] == PkgTextOf(h, p)
    ensures rs == RaceResults(h, seen)
    ensures forall p :: p in raced <==> Raced(h, p)
  {
    rs, raced := [], {};
    for i := 0 to |seen|
      invariant rs == RaceResults(h, seen[..i])
      invariant forall p :: p in raced <==> p in seen[..i] && Raced(h, p)
    {
      var p := seen[i];
      assert seen[..i + 1] == seen[..i] + [p];
      RaceMore(h, seen[..i], p);
      var marker := RaceMarker(text[p]);
      if marker != "" {
        raced := raced + {p};
        rs := rs + [RaceResult(p, marker)];
      }
    }
    assert seen[..|seen|] == seen;
  }

  lemma RaceMore(h: seq<Kind>, pkgs: seq<string>, p: string)
    ensures RaceResults(h, pkgs + [p]) ==
            if Raced(h, p) then RaceResults(h, pkgs) + [RaceResult(p, MarkerFrom(PkgTextOf(h, p), 0))]
            else RaceResults(h, pkgs)
  {
    assert (pkgs + [p])[..|pkgs|] == pkgs;
  }

  method ResultsOfPackages(ghost h: seq<Kind>, failed: seq<string>, hasFail: set<string>, raced: set<string>)
    returns (rs: seq<Result>)
    requires forall p :: p in hasFail <==> HasTestFail(h, p)
    requires forall p :: p in raced <==> Raced(h, p)
    ensures rs == PackageResults(h, failed)
  {
    rs := [];
    for i := 0 to |failed|
      invariant rs == PackageResults(h, failed[..i])
    {
      assert failed[..i + 1][..i] == failed[..i];
      if failed[i] !in hasFail && failed[i] !in raced {
        rs := rs + [PackageResult(failed[i])];
      }
    }
    assert failed[..|failed|] == failed;
  }

  method ResultsOfBuilds(paths: seq<string>) returns (rs: seq<Result>)
    ensures rs == BuildResults(paths)
  {
    rs := [];
    for i := 0 to |paths|
      invariant rs == BuildResults(paths[..i])
    {
      assert paths[..i + 1][..i] == paths[..i];
      rs := rs + [BuildResult(paths[i])];
    }
    assert paths[..|paths|] == paths;
  }

  // ----- collector exactness -----

  lemma StepTests(r: Records, n: nat, k: Kind, id: string)
    ensures id in Step(r, n, k).tests <==> id in r.tests || About(k, id)
    ensures About(k, id) ==> Step(r, n, k).tests[id] == Apply(if id in r.tests then r.tests[id] else FRESH, k.event)
    ensures !About(k, id) && id in r.tests ==> Step(r, n, k).tests[id] == r.tests[id]
  {
  }

  lemma StateMore(h: seq<Kind>, k: Kind, id: string)
    ensures EventsOf(h + [k], id) != [] <==> EventsOf(h, id) != [] || About(k, id)
    ensures StateOf(EventsOf(h + [k], id)) ==
            if About(k, id) then Apply(StateOf(EventsOf(h, id)), k.event) else StateOf(EventsOf(h, id))
    ensures EventsOf(h, id) == [] ==> StateOf(EventsOf(h, id)) == FRESH
  {
    assert (h + [k])[..|h|] == h;
    if About(k, id) {
      StateStep(EventsOf(h, id), k.event);
    } else {
      assert EventsOf(h + [k], id) == EventsOf(h, id);
    }
  }

  /** Each test's record is what its runs say: cut at the result events, failed runs in order, one failure
  for good, and open exactly when something started after the last result. */
  lemma {:induction false} RecordIsRuns(h: seq<Kind>, id: string)
    ensures var tests := RecordsOf(h).tests;
            && (id in tests <==> EventsOf(h, id) != [])
            && (id in tests ==> tests[id] == StateOf(EventsOf(h, id)))
  {
    if h != [] {
      var n, k := |h| - 1, h[|h| - 1];
      RecordIsRuns(h[..n], id);
      StepTests(RecordsOf(h[..n]), |h|, k, id);
      assert h == h[..n] + [k];
      StateMore(h[..n], k, id);
    }
  }

  /** The ids are listed once each, in order of first appearance. */
  lemma {:induction false} OrderListed(h: seq<Kind>)
    ensures RecordsOf(h).order == OrderOf(h) && Distinct(OrderOf(h))
    ensures forall id :: id in RecordsOf(h).tests <==> id in OrderOf(h)
  {
    if h != [] {
      OrderListed(h[..|h| - 1]);
    }
  }

  lemma {:induction false} PackagesListed(h: seq<Kind>)
    ensures RecordsOf(h).pkgSeen == PkgSeenOf(h) && RecordsOf(h).pkgOrder == PkgFailsOf(h)
    ensures Distinct(PkgSeenOf(h)) && Distinct(PkgFailsOf(h))
    ensures forall p :: p in RecordsOf(h).pkgText <==> p in PkgSeenOf(h)
    ensures forall p :: p in RecordsOf(h).pkgFail <==> p in PkgFailsOf(h)
  {
    PackagesOnce(h);
    PackagesKept(h);
  }

  lemma {:induction false} PackagesOnce(h: seq<Kind>)
    ensures Distinct(PkgSeenOf(h)) && Distinct(PkgFailsOf(h))
  {
    if h != [] {
      PackagesOnce(h[..|h| - 1]);
    }
  }

  lemma {:induction false} PackagesKept(h: seq<Kind>)
    ensures RecordsOf(h).pkgSeen == PkgSeenOf(h) && RecordsOf(h).pkgOrder == PkgFailsOf(h)
    ensures forall p :: p in RecordsOf(h).pkgText <==> p in PkgSeenOf(h)
    ensures forall p :: p in RecordsOf(h).pkgFail <==> p in PkgFailsOf(h)
  {
    if h != [] {
      PackagesKept(h[..|h| - 1]);
    }
  }

  lemma {:induction false} PackageTextIsOutputs(h: seq<Kind>, pkg: string)
    ensures var text := RecordsOf(h).pkgText;
            PkgTextOf(h, pkg) == if pkg in text then text[pkg] else ""
  {
    if h != [] {
      PackageTextIsOutputs(h[..|h| - 1], pkg);
    }
  }

  lemma {:induction false} FailsAreEvents(h: seq<Kind>, pkg: string)
    ensures pkg in RecordsOf(h).pkgHasFail <==> HasTestFail(h, pkg)
  {
    if h != [] {
      var n := |h| - 1;
      FailsAreEvents(h[..n], pkg);
      assert forall i :: 0 <= i < n ==> h[..n][i] == h[i];
      assert HasTestFail(h, pkg) <==> HasTestFail(h[..n], pkg) || TestFails(h[n], pkg);
    }
  }

  lemma {:induction false} BuildsAndErrors(h: seq<Kind>)
    ensures RecordsOf(h).buildFail == BuildFailsOf(h) && RecordsOf(h).errs == BadLinesOf(h)
  {
    if h != [] {
      BuildsAndErrors(h[..|h| - 1]);
    }
  }

  /** All of it together, as the results read it. */
  lemma RecordsMean(h: seq<Kind>)
    ensures var r := RecordsOf(h);
            && r.order == OrderOf(h) && r.pkgSeen == PkgSeenOf(h) && r.pkgOrder == PkgFailsOf(h)
            && (forall id :: id in r.order ==> id in r.tests && r.tests[id] == StateOf(EventsOf(h, id)))
            && (forall p :: p in r.pkgSeen ==> p in r.pkgText && r.pkgText[p] == PkgTextOf(h, p))
            && (forall p :: p in r.pkgHasFail <==> HasTestFail(h, p))
  {
    var r := RecordsOf(h);
    OrderListed(h);
    PackagesListed(h);
    forall id | id in r.order ensures id in r.tests && r.tests[id] == StateOf(EventsOf(h, id)) {
      RecordIsRuns(h, id);
    }
    forall p | p in r.pkgSeen ensures p in r.pkgText && r.pkgText[p] == PkgTextOf(h, p) {
      PackageTextIsOutputs(h, p);
    }
    forall p ensures p in r.pkgHasFail <==> HasTestFail(h, p) {
      FailsAreEvents(h, p);
    }
  }
}
