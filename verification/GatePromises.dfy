/** What the gate's exit status promises about the stream and the registry. */
module GatePromises {
  import opened TestStream
  import opened TestOutput
  import opened TestIDs
  import opened Collecting
  import opened Quarantine
  import opened Verdict
  import opened Gate

  predicate RegistryClean(g: Setting) {
    g.errs == [] && forall i :: 0 <= i < |g.entries| ==> g.entries[i].deadline >= g.today
  }

  lemma {:induction false} ErrorsRed(errs: seq<string>)
    ensures AnyRed(Errors(errs)) <==> errs != []
  {
    if errs != [] {
      assert IsRed(Errors(errs)[|Errors(errs)| - 1]);
    }
  }

  lemma {:induction false} ExpiredRed(entries: seq<Entry>, today: int)
    ensures AnyRed(Expired(entries, today)) <==> exists i :: 0 <= i < |entries| && entries[i].deadline < today
  {
    if entries != [] {
      var n, e := |entries| - 1, entries[|entries| - 1];
      ExpiredRed(entries[..n], today);
      var last := if e.deadline < today then [RedExpired(e.test)] else [];
      AnyRedConcat(Expired(entries[..n], today), last);
      assert AnyRed(last) <==> last != [] && IsRed(last[0]);
      assert forall i :: 0 <= i < n ==> entries[..n][i] == entries[i];
    }
  }

  lemma RegistryRed(g: Setting)
    ensures AnyRed(Errors(g.errs) + Expired(g.entries, g.today)) <==> !RegistryClean(g)
  {
    AnyRedConcat(Errors(g.errs), Expired(g.entries, g.today));
    ErrorsRed(g.errs);
    ExpiredRed(g.entries, g.today);
  }

  function RulesIn(g: Setting): Rules {
    RulesOf(g.entries, g.full, g.edited)
  }

  ghost predicate Accounted(g: Setting, rs: seq<Result>, r: Result) {
    Excused(RulesIn(g), r) || (Unlisted(RulesIn(g), r) && ParentExcused(ScanOf(RulesIn(g), rs), r.test))
  }

  /** A run that is not red, said of its results: each is good, or excused by its own entry, or a parent
  that failed only through excused subtests. */
  lemma {:induction false} NotRedMeans(h: seq<Kind>, unread: bool, g: Setting)
    ensures !RedRun(h, unread, g) <==>
            && !unread && BadLinesOf(h) == [] && ResultsOf(h) != [] && RegistryClean(g)
            && forall r :: r in ResultsOf(h) ==> Good(r) || (r.status == Fail && Accounted(g, ResultsOf(h), r))
  {
    var rs := ResultsOf(h);
    LinesInReports(h, g);
    RegistryRed(g);
    LinesRed(RulesIn(g), ScanOf(RulesIn(g), rs), rs);
    RedIffNotAccounted(g, rs);
  }

  lemma {:induction false} RedIffNotAccounted(g: Setting, rs: seq<Result>)
    ensures (exists i :: 0 <= i < |rs| && RedResult(RulesIn(g), ScanOf(RulesIn(g), rs), rs[i])) <==>
            !(forall r :: r in rs ==> Good(r) || (r.status == Fail && Accounted(g, rs, r)))
  {
    forall i | 0 <= i < |rs|
      ensures RedResult(RulesIn(g), ScanOf(RulesIn(g), rs), rs[i]) <==>
              !(Good(rs[i]) || (rs[i].status == Fail && Accounted(g, rs, rs[i])))
    {
    }
  }

  /** Exit 0, exactly: the stream was read and is clean, at least one test appears, and the registry has no
  error and no expired entry. */
  lemma {:induction false} GreenExact(h: seq<Kind>, unread: bool, g: Setting)
    ensures !RedRun(h, unread, g) && FailedCount(ResultsOf(h)) == 0 <==>
            !unread && BadLinesOf(h) == [] && RegistryClean(g) && CleanStream(h) && OrderOf(h) != []
  {
    var rs := ResultsOf(h);
    NotRedMeans(h, unread, g);
    CountsFailed(rs);
    GoodIsClean(h);
    if AllGood(rs) {
      assert forall i :: 0 <= i < |rs| ==> rs[i] in rs;
      GoodAreTests(h);
    }
  }

  /** When every result is good there is a result exactly when a test appears. */
  lemma {:induction false} GoodAreTests(h: seq<Kind>)
    requires AllGood(ResultsOf(h))
    ensures ResultsOf(h) != [] <==> OrderOf(h) != []
  {
    var rs := ResultsOf(h);
    if OrderOf(h) != [] {
      TestResultsMean(h, OrderOf(h), ResultOf(OrderOf(h)[0], StateOf(EventsOf(h, OrderOf(h)[0]))));
    }
    if rs != [] {
      var r := rs[0];
      assert r in rs && Good(r);
      RaceResultsMean(h, PkgSeenOf(h), r);
      PackageResultsMean(h, PkgFailsOf(h), r);
      BuildResultsMean(BuildFailsOf(h), r);
      TestResultsMean(h, OrderOf(h), r);
    }
  }

  /** A failure excused by its entry is a test of the stream that finished, failed at least once, and whose
  every failed run carries the recorded signature in its own output. */
  lemma {:induction false} ExcusedCarriesSignature(h: seq<Kind>, g: Setting, r: Result)
    requires r in ResultsOf(h) && Excused(RulesIn(g), r)
    ensures var runs := Cut(EventsOf(h, r.test));
            && r.test in OrderOf(h)
            && SomeFailed(runs.closed)
            && !Started(runs.tail)
            && forall i :: 0 <= i < |runs.closed| && Ended(runs.closed[i], Failed) ==>
                 Contains(Outputs(runs.closed[i]), RulesIn(g).byID[r.test].sig)
  {
    RaceResultsMean(h, PkgSeenOf(h), r);
    PackageResultsMean(h, PkgFailsOf(h), r);
    BuildResultsMean(BuildFailsOf(h), r);
    TestResultsMean(h, OrderOf(h), r);
    var closed := Cut(EventsOf(h, r.test)).closed;
    FailedOutputsMean(closed);
  }

  /** In the full tier a run with any failure line, of a test, a package or a build, is red. */
  lemma {:induction false} FullTierPromise(h: seq<Kind>, unread: bool, g: Setting, i: nat)
    requires g.full && i < |h| && FailLine(h[i])
    ensures RedRun(h, unread, g)
  {
    GoodIsClean(h);
    NotRedMeans(h, unread, g);
    LinesInReports(h, g);
    var r :| r in ResultsOf(h) && !Good(r);
    if r.status == Fail {
      var k :| 0 <= k < |ResultsOf(h)| && ResultsOf(h)[k] == r;
      FullTierReds(RulesIn(g), ResultsOf(h), k);
    }
  }

  // ----- failures outside any test -----

  ghost predicate WellNamed(entries: seq<Entry>) {
    forall i :: 0 <= i < |entries| ==> TestID(entries[i].test)
  }

  lemma {:induction false} EntriesNamed(entries: seq<Entry>, id: string)
    ensures id in ByID(entries) <==> exists i :: 0 <= i < |entries| && entries[i].test == id
  {
    if entries != [] {
      var n := |entries| - 1;
      EntriesNamed(entries[..n], id);
      assert forall i :: 0 <= i < n ==> entries[..n][i] == entries[i];
    }
  }

  /** A failing result that stands outside any test, in a path below which no id can be filed, is never
  excused. */
  lemma {:induction false} OutsideNeverExcused(h: seq<Kind>, unread: bool, g: Setting, r: Result, pkg: string, what: string)
    requires WellNamed(g.entries) && !Fileable(pkg)
    requires r in ResultsOf(h) && r.status == Fail && r.test == Id(pkg, what) && what != "" && what[0] == '('
    ensures RedRun(h, unread, g)
  {
    var rules, rs := RulesIn(g), ResultsOf(h);
    forall id | id in rules.byID ensures id != r.test && !Below(id, r.test) {
      EntriesNamed(g.entries, id);
      NotNamed(pkg, what, id);
    }
    var k :| 0 <= k < |rs| && rs[k] == r;
    NoEntryNoExcuse(rules, rs, k);
    LinesInReports(h, g);
  }

  lemma NotNamed(pkg: string, what: string, id: string)
    requires !Fileable(pkg) && what != "" && what[0] == '(' && TestID(id)
    ensures id != Id(pkg, what) && !Below(id, Id(pkg, what))
  {
    if Id(pkg, what) <= id {
      var rest := id[|pkg| + 2..];
      assert id == pkg + "::" + rest && rest[0] == what[0];
      OnlyFileable(pkg, rest);
    }
  }

  /** A build failure is never excused. */
  lemma {:induction false} BuildFailureReds(h: seq<Kind>, unread: bool, g: Setting, i: nat)
    requires WellNamed(g.entries) && i < |h| && h[i].Build? && h[i].failed && !Fileable(h[i].path)
    ensures RedRun(h, unread, g)
  {
    BuildFailListed(h, i);
    BuildResultsMean(BuildFailsOf(h), BuildResult(h[i].path));
    OutsideNeverExcused(h, unread, g, BuildResult(h[i].path), h[i].path, "(build)");
  }

  lemma {:induction false} BuildFailListed(h: seq<Kind>, i: nat)
    requires i < |h| && h[i].Build? && h[i].failed
    ensures h[i].path in BuildFailsOf(h)
  {
    var n := |h| - 1;
    if i < n {
      BuildFailListed(h[..n], i);
    }
  }

  /** A package failure with no failed test in the package is never excused. */
  lemma {:induction false} PackageFailureReds(h: seq<Kind>, unread: bool, g: Setting, i: nat)
    requires WellNamed(g.entries) && i < |h| && h[i].OfPackage? && h[i].event.action == Failed
    requires !Fileable(h[i].pkg) && !HasTestFail(h, h[i].pkg)
    ensures RedRun(h, unread, g)
  {
    var p := h[i].pkg;
    PackageFailLines(h, p);
    assert FailsPackage(h[i], p);
    if Raced(h, p) {
      RaceReportReds(h, unread, g, p);
    } else {
      PackageResultsMean(h, PkgFailsOf(h), PackageResult(p));
      OutsideNeverExcused(h, unread, g, PackageResult(p), p, "(package)");
    }
  }

  // ----- race reports outside any test -----

  predicate Marked(r: Result, t: string) {
    r.status == Fail && r.test == t ==> RaceReported(r.output)
  }

  /** The output kept for an id is that of its last failing result. */
  lemma {:induction false} LastOutputMarked(rules: Rules, rs: seq<Result>, t: string, i: nat)
    requires i < |rs| && rs[i].status == Fail && rs[i].test == t
    requires forall j :: i <= j < |rs| ==> Marked(rs[j], t)
    ensures RaceReported(OutputOf(ScanOf(rules, rs), t))
  {
    var n := |rs| - 1;
    if i < n {
      assert forall j :: 0 <= j < n ==> rs[..n][j] == rs[j];
      LastOutputMarked(rules, rs[..n], t, i);
    }
    assert Marked(rs[n], t);
  }

  lemma SameSuffix(p: string, q: string, what: string)
    requires Id(p, what) == Id(q, what)
    ensures p == q
  {
    assert |p| == |q|;
    assert Id(p, what)[..|p|] == p && Id(q, what)[..|q|] == q;
  }

  lemma BuildIsNotPackage(p: string, q: string)
    ensures Id(p, "(package)") != Id(q, "(build)")
  {
    var a, b := Id(p, "(package)"), Id(q, "(build)");
    assert a[|a| - 2] == 'e' && b[|b| - 2] == 'd';
  }

  lemma OtherPackage(h: seq<Kind>, p: string, q: string)
    requires Raced(h, p) && !Raced(h, q)
    ensures PackageResult(q).test != Id(p, "(package)")
  {
    if Id(q, "(package)") == Id(p, "(package)") {
      SameSuffix(p, q, "(package)");
    }
  }

  lemma {:induction false} RacesMarked(h: seq<Kind>, r: Result)
    requires r in RaceResults(h, PkgSeenOf(h))
    ensures RaceReported(r.output)
  {
    RaceResultsMean(h, PkgSeenOf(h), r);
    var i :| 0 <= i < |PkgSeenOf(h)| && Raced(h, PkgSeenOf(h)[i])
             && r == RaceResult(PkgSeenOf(h)[i], MarkerFrom(PkgTextOf(h, PkgSeenOf(h)[i]), 0));
    MarkerReported(RACED, PkgTextOf(h, PkgSeenOf(h)[i]));
  }

  lemma {:induction false} PackagesElsewhere(h: seq<Kind>, p: string, r: Result)
    requires Raced(h, p) && r in PackageResults(h, PkgFailsOf(h))
    ensures r.test != Id(p, "(package)")
  {
    PackageResultsMean(h, PkgFailsOf(h), r);
    var i :| 0 <= i < |PkgFailsOf(h)| && !HasTestFail(h, PkgFailsOf(h)[i]) && !Raced(h, PkgFailsOf(h)[i])
             && r == PackageResult(PkgFailsOf(h)[i]);
    OtherPackage(h, p, PkgFailsOf(h)[i]);
  }

  lemma {:induction false} BuildsElsewhere(h: seq<Kind>, p: string, r: Result)
    requires r in BuildResults(BuildFailsOf(h))
    ensures r.test != Id(p, "(package)")
  {
    BuildResultsMean(BuildFailsOf(h), r);
    var i :| 0 <= i < |BuildFailsOf(h)| && r == BuildResult(BuildFailsOf(h)[i]);
    BuildIsNotPackage(p, BuildFailsOf(h)[i]);
  }

  /** Nothing filed after a package's race report under the same id hides it. */
  lemma {:induction false} LaterMarked(h: seq<Kind>, p: string, j: nat)
    requires Raced(h, p) && |TestResults(h, OrderOf(h))| <= j < |ResultsOf(h)|
    ensures Marked(ResultsOf(h)[j], Id(p, "(package)"))
  {
    var r := ResultsOf(h)[j];
    LaterMember(h, j);
    if r in RaceResults(h, PkgSeenOf(h)) {
      RacesMarked(h, r);
    } else if r in PackageResults(h, PkgFailsOf(h)) {
      PackagesElsewhere(h, p, r);
    } else {
      BuildsElsewhere(h, p, r);
    }
  }

  lemma {:induction false} RaceFiled(h: seq<Kind>, p: string) returns (k: nat)
    requires Raced(h, p)
    ensures |TestResults(h, OrderOf(h))| <= k < |ResultsOf(h)|
    ensures ResultsOf(h)[k] == RaceResult(p, MarkerFrom(PkgTextOf(h, p), 0))
  {
    var r := RaceResult(p, MarkerFrom(PkgTextOf(h, p), 0));
    RaceResultsMean(h, PkgSeenOf(h), r);
    k := FiledSecond(TestResults(h, OrderOf(h)), RaceResults(h, PkgSeenOf(h)), PackageResults(h, PkgFailsOf(h)),
                     BuildResults(BuildFailsOf(h)), r);
  }

  lemma FiledSecond(a: seq<Result>, b: seq<Result>, c: seq<Result>, d: seq<Result>, r: Result) returns (k: nat)
    requires r in b
    ensures |a| <= k < |a + b + c + d| && (a + b + c + d)[k] == r
  {
    var i :| 0 <= i < |b| && b[i] == r;
    k := |a| + i;
  }

  /** A race report outside any test reds the run, whatever the registry lists and whatever else failed. */
  lemma {:induction false} RaceReportReds(h: seq<Kind>, unread: bool, g: Setting, p: string)
    requires Raced(h, p)
    ensures RedRun(h, unread, g)
  {
    var rs, t := ResultsOf(h), Id(p, "(package)");
    var k := RaceFiled(h, p);
    forall j | k <= j < |rs| ensures Marked(rs[j], t) {
      LaterMarked(h, p, j);
    }
    MarkedReds(RulesIn(g), rs, k);
    LinesInReports(h, g);
  }

  lemma {:induction false} MarkedReds(rules: Rules, rs: seq<Result>, k: nat)
    requires k < |rs| && rs[k].status == Fail && forall j :: k <= j < |rs| ==> Marked(rs[j], rs[k].test)
    ensures AnyRed(Lines(rules, ScanOf(rules, rs), rs))
  {
    LastOutputMarked(rules, rs, rs[k].test, k);
    assert Marked(rs[k], rs[k].test);
    LinesRed(rules, ScanOf(rules, rs), rs);
    assert RedResult(rules, ScanOf(rules, rs), rs[k]);
  }

  lemma {:induction false} LaterMember(h: seq<Kind>, j: nat)
    requires |TestResults(h, OrderOf(h))| <= j < |ResultsOf(h)|
    ensures var r := ResultsOf(h)[j];
            r in RaceResults(h, PkgSeenOf(h)) || r in PackageResults(h, PkgFailsOf(h)) || r in BuildResults(BuildFailsOf(h))
  {
    AfterFirst(TestResults(h, OrderOf(h)), RaceResults(h, PkgSeenOf(h)), PackageResults(h, PkgFailsOf(h)),
               BuildResults(BuildFailsOf(h)), j);
  }

  lemma AfterFirst(a: seq<Result>, b: seq<Result>, c: seq<Result>, d: seq<Result>, j: nat)
    requires |a| <= j < |a + b + c + d|
    ensures var r := (a + b + c + d)[j]; r in b || r in c || r in d
  {
  }

  // ----- paths below which an id can be filed -----

  /** What a package or a build that failed outside any test is filed as. */
  function What(build: bool): string {
    if build then "(build)" else "(package)"
  }

  function FailureText(build: bool): string {
    if build then "build failed" else "package failed outside any test"
  }

  function Outside(p: string, build: bool): Result {
    if build then BuildResult(p) else PackageResult(p)
  }

  lemma AtHead(s: string, k: nat, m: string)
    requires m != "" && At(s, k, m)
    ensures k < |s| && s[k] == m[0]
  {
    assert s[k..k + |m|][0] == s[k];
  }

  /** The text of such a failure is no race report. */
  lemma FailureTextIsPlain(build: bool)
    ensures !RaceReported(FailureText(build))
  {
    var text := FailureText(build);
    assert forall i :: 0 <= i < |text| ==> text[i] !in "WrTAULM";
    assert forall i :: 0 <= i < |RACE_MARKERS| ==> RACE_MARKERS[i] != "" && RACE_MARKERS[i][0] in "WrTAULM";
    forall i, k | 0 <= i < |RACE_MARKERS| && 0 <= k <= |text| ensures !At(text, k, RACE_MARKERS[i]) {
      if At(text, k, RACE_MARKERS[i]) {
        AtHead(text, k, RACE_MARKERS[i]);
      }
    }
  }

  lemma PairScan(rules: Rules, a: Result, b: Result)
    requires Excused(rules, a) && Unlisted(rules, b)
    ensures var s := ScanOf(rules, [a, b]);
            && s.failing == [a.test, b.test] && s.quarantined == {a.test}
            && s.outputs == map[a.test := a.output, b.test := b.output]
  {
    assert [a, b][..1] == [a] && [a][..0] == [];
    assert ScanOf(rules, [a]) == ScanStep(rules, NO_SCAN, a);
    assert ScanOf(rules, [a, b]) == ScanStep(rules, ScanOf(rules, [a]), b);
  }

  lemma OnlyKid(a: string, b: string)
    requires Below(a, b)
    ensures Kids([a, b], b) == [a]
  {
    assert [a, b][..1] == [a] && [a][..0] == [];
    assert Kids([a], b) == Kids([], b) + [a] == [a];
    assert !Below(b, b);
  }

  /** One excused subtest that printed the same text covers its unlisted parent. */
  lemma OneSubtestCovers(rules: Rules, a: Result, b: Result)
    requires Excused(rules, a) && Unlisted(rules, b) && Below(a.test, b.test)
    requires a.output == b.output && !RaceReported(b.output)
    ensures !AnyRed(Lines(rules, ScanOf(rules, [a, b]), [a, b]))
  {
    var s := ScanOf(rules, [a, b]);
    PairScan(rules, a, b);
    OnlyKid(a.test, b.test);
    assert [a.test][..0] == [];
    assert KidOutputs(s, [a.test]) == [a.output];
    assert KidCovered(s, [a.test], a.test);
    assert !HasOwnLine(s, b.test) by {
      assert OutputOf(s, b.test) == KidOutputs(s, [a.test])[0];
    }
    assert ParentExcused(s, b.test);
    LinesRed(rules, s, [a, b]);
  }

  /** The lines of a test that prints a text and fails, then of the package or build that fails. */
  function Covering(pkg: string, test: string, text: string, last: Kind): seq<Kind> {
    [Printed(pkg, test, text), FailedTest(pkg, test), last]
  }

  function LastLine(p: string, build: bool): Kind {
    if build then Build(p, true) else OfPackage(p, TestEvent(Failed, ""))
  }

  function Printed(pkg: string, test: string, text: string): Kind {
    OfTest(pkg, test, TestEvent(Output, text))
  }

  function FailedTest(pkg: string, test: string): Kind {
    OfTest(pkg, test, TestEvent(Failed, ""))
  }

  /** The lists and events of the test's two lines. */
  lemma {:induction false} TestPart(pkg: string, test: string, text: string)
    ensures var h := [Printed(pkg, test, text), FailedTest(pkg, test)];
            && OrderOf(h) == [Id(pkg, test)] && PkgSeenOf(h) == [] && PkgFailsOf(h) == [] && BuildFailsOf(h) == []
            && BadLinesOf(h) == []
  {
    var a, b := Printed(pkg, test, text), FailedTest(pkg, test);
    assert [] + [a] == [a] && [a] + [b] == [a, b];
    MoreLists([], a);
    MoreLists([a], b);
  }

  lemma {:induction false} TestPartEvents(pkg: string, test: string, text: string)
    ensures EventsOf([Printed(pkg, test, text), FailedTest(pkg, test)], Id(pkg, test))
         == [TestEvent(Output, text), TestEvent(Failed, "")]
  {
    var a, b, id := Printed(pkg, test, text), FailedTest(pkg, test), Id(pkg, test);
    assert [] + [a] == [a] && [a] + [b] == [a, b];
    MoreEvents([], a, id);
    MoreEvents([a], b, id);
    assert EventsOf([], id) == [];
  }

  lemma {:induction false} CoveringLists(pkg: string, test: string, text: string, p: string, build: bool)
    requires p != pkg
    ensures var h := Covering(pkg, test, text, LastLine(p, build));
            && OrderOf(h) == [Id(pkg, test)] && PkgSeenOf(h) == []
            && PkgFailsOf(h) == (if build then [] else [p]) && BuildFailsOf(h) == (if build then [p] else [])
            && BadLinesOf(h) == [] && !HasTestFail(h, p)
  {
    var front := [Printed(pkg, test, text), FailedTest(pkg, test)];
    assert front + [LastLine(p, build)] == Covering(pkg, test, text, LastLine(p, build));
    TestPart(pkg, test, text);
    LastPart(front, p, build);
  }

  lemma {:induction false} LastPart(front: seq<Kind>, p: string, build: bool)
    requires PkgSeenOf(front) == [] && PkgFailsOf(front) == [] && BuildFailsOf(front) == [] && BadLinesOf(front) == []
    ensures var h := front + [LastLine(p, build)];
            && OrderOf(h) == OrderOf(front) && PkgSeenOf(h) == []
            && PkgFailsOf(h) == (if build then [] else [p]) && BuildFailsOf(h) == (if build then [p] else [])
            && BadLinesOf(h) == []
  {
    MoreLists(front, LastLine(p, build));
    assert [] + [p] == [p];
  }

  lemma {:induction false} CoveringEvents(pkg: string, test: string, text: string, p: string, build: bool)
    ensures EventsOf(Covering(pkg, test, text, LastLine(p, build)), Id(pkg, test))
         == [TestEvent(Output, text), TestEvent(Failed, "")]
  {
    var front := [Printed(pkg, test, text), FailedTest(pkg, test)];
    assert front + [LastLine(p, build)] == Covering(pkg, test, text, LastLine(p, build));
    TestPartEvents(pkg, test, text);
    MoreEvents(front, LastLine(p, build), Id(pkg, test));
  }

  /** What one more line adds to the lists. */
  lemma {:induction false} MoreLists(h: seq<Kind>, k: Kind)
    ensures var g := h + [k];
            && OrderOf(g) == (if k.OfTest? then AddNew(OrderOf(h), Id(k.pkg, k.test)) else OrderOf(h))
            && PkgSeenOf(g) == (if k.OfPackage? && k.event.action == Output then AddNew(PkgSeenOf(h), k.pkg)
                                else PkgSeenOf(h))
            && PkgFailsOf(g) == (if k.OfPackage? && k.event.action == Failed then AddNew(PkgFailsOf(h), k.pkg)
                                 else PkgFailsOf(h))
            && BuildFailsOf(g) == (if k.Build? && k.failed then BuildFailsOf(h) + [k.path] else BuildFailsOf(h))
            && BadLinesOf(g) == (if k.Bad? then BadLinesOf(h) + [|h| + 1] else BadLinesOf(h))
  {
    assert (h + [k])[..|h|] == h;
  }

  lemma {:induction false} MoreEvents(h: seq<Kind>, k: Kind, id: string)
    ensures EventsOf(h + [k], id) == if About(k, id) then EventsOf(h, id) + [k.event] else EventsOf(h, id)
  {
    assert (h + [k])[..|h|] == h;
  }

  lemma {:induction false} CoveringState(text: string)
    ensures StateOf([TestEvent(Output, text), TestEvent(Failed, "")]) == TestState(Fail, text, [text], "", false)
  {
    AfterOutput([], text);
    AfterFail([] + [TestEvent(Output, text)], text);
    assert [] + [TestEvent(Output, text)] + [TestEvent(Failed, "")] == [TestEvent(Output, text), TestEvent(Failed, "")];
  }

  lemma {:induction false} AfterOutput(evs: seq<TestEvent>, text: string)
    requires evs == []
    ensures StateOf(evs + [TestEvent(Output, text)]) == TestState(NoResult, text, [], text, true)
  {
    StateStep(evs, TestEvent(Output, text));
    EmptyState();
    assert "" + text == text;
  }

  lemma {:induction false} AfterFail(evs: seq<TestEvent>, text: string)
    requires StateOf(evs) == TestState(NoResult, text, [], text, true)
    ensures StateOf(evs + [TestEvent(Failed, "")]) == TestState(Fail, text, [text], "", false)
  {
    StateStep(evs, TestEvent(Failed, ""));
  }

  lemma EmptyState()
    ensures StateOf([]) == FRESH
  {
  }

  lemma {:induction false} CoveringResults(pkg: string, test: string, text: string, p: string, build: bool)
    requires p != pkg
    ensures ResultsOf(Covering(pkg, test, text, LastLine(p, build))) ==
            [Result(Id(pkg, test), Fail, text, [text]), Outside(p, build)]
  {
    var h := Covering(pkg, test, text, LastLine(p, build));
    CoveringLists(pkg, test, text, p, build);
    CoveringEvents(pkg, test, text, p, build);
    CoveringState(text);
    ResultsOfLists(h, Id(pkg, test), p, build);
  }

  lemma {:induction false} ResultsOfLists(h: seq<Kind>, id: string, p: string, build: bool)
    requires OrderOf(h) == [id] && PkgSeenOf(h) == [] && !HasTestFail(h, p)
    requires PkgFailsOf(h) == (if build then [] else [p]) && BuildFailsOf(h) == (if build then [p] else [])
    ensures ResultsOf(h) == [ResultOf(id, StateOf(EventsOf(h, id))), Outside(p, build)]
  {
    TestResultAt(h, [id], 0);
    assert TestResults(h, [id]) == [ResultOf(id, StateOf(EventsOf(h, id)))];
    if build {
      OneBuild(p);
    } else {
      OnePackage(h, p);
    }
  }

  lemma {:induction false} OneBuild(p: string)
    ensures BuildResults([p]) == [BuildResult(p)]
  {
    assert [p][..0] == [] && BuildResults([]) == [];
  }

  lemma {:induction false} OnePackage(h: seq<Kind>, p: string)
    requires PkgSeenOf(h) == [] && !HasTestFail(h, p)
    ensures PackageResults(h, [p]) == [PackageResult(p)]
  {
    assert [p][..0] == [] && PackageResults(h, []) == [] && !Raced(h, p);
  }

  /** A registry with one entry. */
  function OneEntry(id: string, pkg: string, sig: string): Setting {
    Setting([Entry(id, pkg, sig, 0)], [], false, [], 0)
  }

  lemma {:induction false} CoveringRun(p: string, pkg: string, test: string, build: bool)
    requires p != pkg && Id(pkg, test) == Id(p, What(build)) + "/x"
    ensures var h := Covering(pkg, test, FailureText(build), LastLine(p, build));
            !HasTestFail(h, p) && !RedRun(h, false, OneEntry(Id(pkg, test), pkg, FailureText(build)))
  {
    CoveringLists(pkg, test, FailureText(build), p, build);
    CoveringResults(pkg, test, FailureText(build), p, build);
    CoveredRun(Covering(pkg, test, FailureText(build), LastLine(p, build)), Id(pkg, test), pkg, p, build);
  }

  /** The same lines as the test command writes them. */
  function CoveringStream(pkg: string, test: string, text: string, p: string, build: bool): seq<Line> {
    [Event("output", pkg, "", test, text), Event("fail", pkg, "", test, ""),
     if build then Event("build-fail", "", p, "", "") else Event("fail", p, "", "", "")]
  }

  lemma CoveringKinds(pkg: string, test: string, text: string, p: string, build: bool)
    requires pkg != "" && test != "" && p != ""
    ensures Kinds(CoveringStream(pkg, test, text, p, build)) == Covering(pkg, test, text, LastLine(p, build))
  {
    assert "build-" <= "build-fail";
  }

  /** Below every fileable path a failure outside any test can be covered: a test filed there that prints
  the failure's text and is quarantined makes the run green, over a whole stream. */
  lemma {:induction false} FileableLetsThrough(p: string, build: bool) returns (stream: seq<Line>, g: Setting)
    requires Fileable(p)
    ensures var h := Kinds(stream);
            && |h| > 0 && h[|h| - 1] == LastLine(p, build) && FailLine(h[|h| - 1]) && !HasTestFail(h, p)
            && WellNamed(g.entries) && !RedRun(h, false, g)
  {
    var pkg, name, sub :| FiledUnder(p, pkg, name, sub);
    var test := FiledTest(name, sub, What(build));
    FiledNames(p, pkg, name, sub, build);
    CoveringRun(p, pkg, test, build);
    CoveringKinds(pkg, test, FailureText(build), p, build);
    stream := CoveringStream(pkg, test, FailureText(build), p, build);
    g := OneEntry(Id(pkg, test), pkg, FailureText(build));
  }

  /** The test of the id filed below the failure. */
  function FiledTest(name: string, sub: string, what: string): string {
    name + "/" + sub + "::" + what + "/x"
  }

  lemma {:induction false} FiledNames(p: string, pkg: string, name: string, sub: string, build: bool)
    requires FiledUnder(p, pkg, name, sub)
    ensures var id := Id(pkg, FiledTest(name, sub, What(build)));
            id == Id(p, What(build)) + "/x" && TestID(id) && p != pkg && pkg != ""
  {
    FiledID(p, pkg, name, sub, What(build));
    PathNotEmpty(pkg);
  }

  lemma {:induction false} CoveredRun(h: seq<Kind>, id: string, pkg: string, p: string, build: bool)
    requires id == Id(p, What(build)) + "/x" && BadLinesOf(h) == []
    requires ResultsOf(h) == [Result(id, Fail, FailureText(build), [FailureText(build)]), Outside(p, build)]
    ensures !RedRun(h, false, OneEntry(id, pkg, FailureText(build)))
  {
    var g := OneEntry(id, pkg, FailureText(build));
    var rules, a, b := RulesIn(g), Result(id, Fail, FailureText(build), [FailureText(build)]), Outside(p, build);
    var e := g.entries[0];
    assert [e][..0] == [];
    assert ByID([e]) == map[e.test := e];
    FailureTextIsPlain(build);
    assert At(e.sig, 0, e.sig);
    assert Carried(a.failedRuns, e.sig);
    OneSubtestCovers(rules, a, b);
    LinesInReports(h, g);
    RegistryRed(g);
  }

  /** A stream with such a failure line that a well-named registry keeps from being red. */
  ghost predicate Covers(stream: seq<Line>, g: Setting, p: string, build: bool) {
    var h := Kinds(stream);
    LastLine(p, build) in h && !HasTestFail(h, p) && WellNamed(g.entries) && !RedRun(h, false, g)
  }

  /** A package or build failure outside any test can be excused exactly in the fileable paths. */
  lemma {:induction false} CoverableExactly(p: string, build: bool)
    ensures Fileable(p) <==> exists stream, g :: Covers(stream, g, p, build)
  {
    if Fileable(p) {
      var stream, g := FileableLetsThrough(p, build);
      assert Covers(stream, g, p, build);
    } else {
      forall stream, g ensures !Covers(stream, g, p, build) {
        if Covers(stream, g, p, build) {
          var h := Kinds(stream);
          var i :| 0 <= i < |h| && h[i] == LastLine(p, build);
          if build {
            BuildFailureReds(h, false, g, i);
          } else {
            PackageFailureReds(h, false, g, i);
          }
        }
      }
    }
  }
}
