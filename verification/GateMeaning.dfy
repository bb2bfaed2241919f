/** The gate's verdict over the results, the registry entries and the edited packages themselves: no map, no
scan and no report line in between. */
module GateMeaning {
  import opened Splitting
  import opened TestStream
  import opened TestOutput
  import opened Collecting
  import opened Quarantine
  import opened Verdict
  import opened Gate
  import opened GatePromises

  // ----- what excuses a failure -----

  /** The text of a race or sanitizer report. */
  predicate RaceText(text: string) {
    || Contains(text, "WARNING: DATA RACE") || Contains(text, "race detected during execution of test")
    || Contains(text, "ThreadSanitizer") || Contains(text, "AddressSanitizer")
    || Contains(text, "UndefinedBehaviorSanitizer") || Contains(text, "LeakSanitizer")
    || Contains(text, "MemorySanitizer")
  }

  predicate Listed(g: Setting, t: string) {
    exists i :: 0 <= i < |g.entries| && g.entries[i].test == t
  }

  /** Entry i decides for its test: no later entry has the same one. */
  predicate Decides(entries: seq<Entry>, i: nat) {
    i < |entries| && forall k :: i < k < |entries| ==> entries[k].test != entries[i].test
  }

  /** In the fast tier, outside the edited packages, without a race report, and with the recorded signature
  in every run that failed. */
  predicate EntryExcuses(g: Setting, e: Entry, r: Result) {
    && e.test == r.test && r.status == Fail && !g.full && e.pkg !in g.edited && !RaceText(r.output)
    && r.failedRuns != [] && forall k :: 0 <= k < |r.failedRuns| ==> Contains(r.failedRuns[k], e.sig)
  }

  predicate OwnExcuse(g: Setting, r: Result) {
    exists i :: 0 <= i < |g.entries| && Decides(g.entries, i) && EntryExcuses(g, g.entries[i], r)
  }

  predicate FailsBelow(r: Result, t: string) {
    r.status == Fail && t + "/" <= r.test
  }

  predicate SomeFailsBelow(rs: seq<Result>, t: string) {
    exists i :: 0 <= i < |rs| && FailsBelow(rs[i], t)
  }

  predicate SomeOwnExcuse(g: Setting, rs: seq<Result>, c: string) {
    exists i :: 0 <= i < |rs| && rs[i].test == c && OwnExcuse(g, rs[i])
  }

  /** A failing subtest is excused by its own entry, or has none and a failing subtest of its own. */
  predicate KidExcused(g: Setting, rs: seq<Result>, c: string) {
    SomeOwnExcuse(g, rs, c) || (!Listed(g, c) && SomeFailsBelow(rs, c))
  }

  predicate KidsExcused(g: Setting, rs: seq<Result>, t: string) {
    forall i :: 0 <= i < |rs| && FailsBelow(rs[i], t) ==> KidExcused(g, rs, rs[i].test)
  }

  /** The last failing result of its test. */
  predicate LastFail(rs: seq<Result>, j: nat) {
    && j < |rs| && rs[j].status == Fail
    && forall k :: j < k < |rs| ==> !(rs[k].status == Fail && rs[k].test == rs[j].test)
  }

  predicate KidPrinted(rs: seq<Result>, t: string, l: string) {
    exists k :: 0 <= k < |rs| && LastFail(rs, k) && FailsBelow(rs[k], t) && l in Split(rs[k].output, '\n')
  }

  /** Every line of a parent's output is blank, the harness's, or printed by a failing subtest. */
  ghost predicate NoOwnLine(rs: seq<Result>, t: string, output: string) {
    forall l :: l in Split(output, '\n') ==> BlankLine(l) || Framing(l, NameOf(t)) || KidPrinted(rs, t, l)
  }

  ghost predicate SubtestsExcuse(g: Setting, rs: seq<Result>, t: string) {
    && SomeFailsBelow(rs, t)
    && KidsExcused(g, rs, t)
    && forall j :: 0 <= j < |rs| && LastFail(rs, j) && rs[j].test == t ==>
         !RaceText(rs[j].output) && NoOwnLine(rs, t, rs[j].output)
  }

  ghost predicate Passes(g: Setting, rs: seq<Result>, r: Result) {
    || r.status == Pass
    || r.status == Skip
    || OwnExcuse(g, r)
    || (r.status == Fail && !Listed(g, r.test) && SubtestsExcuse(g, rs, r.test))
  }

  // ----- the same through the map, the scan and the lines -----

  lemma RaceTextMeans(text: string)
    ensures RaceReported(text) <==> RaceText(text)
  {
    var m := RACE_MARKERS;
    assert RaceReported(text) <==>
           || Contains(text, m[0]) || Contains(text, m[1]) || Contains(text, m[2]) || Contains(text, m[3])
           || Contains(text, m[4]) || Contains(text, m[5]) || Contains(text, m[6]);
  }

  lemma {:induction false} DecidingEntry(entries: seq<Entry>, t: string)
    ensures t in ByID(entries) <==> exists i :: 0 <= i < |entries| && entries[i].test == t
    ensures t in ByID(entries) ==>
              exists i :: 0 <= i < |entries| && Decides(entries, i) && entries[i].test == t && ByID(entries)[t] == entries[i]
  {
    EntriesNamed(entries, t);
    if entries != [] {
      var n := |entries| - 1;
      DecidingEntry(entries[..n], t);
      if entries[n].test == t {
        assert Decides(entries, n);
      } else if t in ByID(entries[..n]) {
        var i :| 0 <= i < n && Decides(entries[..n], i) && entries[..n][i].test == t && ByID(entries[..n])[t] == entries[..n][i];
        assert forall k :: 0 <= k < n ==> entries[..n][k] == entries[k];
        assert Decides(entries, i) && entries[i].test == t && ByID(entries)[t] == entries[i];
      }
    }
  }

  /** Two entries that decide for one test are one. */
  lemma OneDecides(entries: seq<Entry>, i: nat, j: nat)
    requires Decides(entries, i) && Decides(entries, j) && entries[i].test == entries[j].test
    ensures i == j
  {
  }

  lemma ExcusedMeans(g: Setting, r: Result)
    ensures Excused(RulesIn(g), r) <==> OwnExcuse(g, r)
    ensures Unlisted(RulesIn(g), r) <==> r.status == Fail && !Listed(g, r.test)
  {
    RaceTextMeans(r.output);
    DecidingEntry(g.entries, r.test);
    if r.test in ByID(g.entries) {
      var i :| 0 <= i < |g.entries| && Decides(g.entries, i) && g.entries[i].test == r.test
               && ByID(g.entries)[r.test] == g.entries[i];
      forall j | 0 <= j < |g.entries| && Decides(g.entries, j) && EntryExcuses(g, g.entries[j], r) ensures j == i {
        OneDecides(g.entries, i, j);
      }
    }
  }

  lemma {:induction false} ExcusedSomewhere(g: Setting, rs: seq<Result>, c: string)
    ensures SomeExcused(RulesIn(g), rs, c) <==> SomeOwnExcuse(g, rs, c)
    ensures SomeUnlisted(RulesIn(g), rs, c) <==> SomeFail(rs, c) && !Listed(g, c)
  {
    forall i | 0 <= i < |rs|
      ensures Excused(RulesIn(g), rs[i]) <==> OwnExcuse(g, rs[i])
      ensures Unlisted(RulesIn(g), rs[i]) <==> rs[i].status == Fail && !Listed(g, rs[i].test)
    {
      ExcusedMeans(g, rs[i]);
    }
  }

  lemma {:induction false} KidsAreFailsBelow(rules: Rules, rs: seq<Result>, t: string, c: string)
    ensures c in Kids(ScanOf(rules, rs).failing, t) <==> exists i :: 0 <= i < |rs| && rs[i].test == c && FailsBelow(rs[i], t)
  {
    KidsMean(ScanOf(rules, rs).failing, t, c);
    ScanFailing(rules, rs, c);
  }

  lemma {:induction false} KidMeans(g: Setting, rs: seq<Result>, t: string, c: string)
    requires c in Kids(ScanOf(RulesIn(g), rs).failing, t)
    ensures KidCovered(ScanOf(RulesIn(g), rs), Kids(ScanOf(RulesIn(g), rs).failing, t), c) <==> KidExcused(g, rs, c)
  {
    var rules := RulesIn(g);
    var s := ScanOf(rules, rs);
    var kids := Kids(s.failing, t);
    ScanMeans(rules, rs, c);
    ExcusedSomewhere(g, rs, c);
    KidsAreFailsBelow(rules, rs, t, c);
    InnerMeans(rules, rs, t, c);
  }

  /** A failing subtest below a failing subtest is below the parent too. */
  lemma {:induction false} InnerMeans(rules: Rules, rs: seq<Result>, t: string, c: string)
    requires Below(c, t)
    ensures HasInner(Kids(ScanOf(rules, rs).failing, t), c) <==> SomeFailsBelow(rs, c)
  {
    var kids := Kids(ScanOf(rules, rs).failing, t);
    if HasInner(kids, c) {
      var i :| 0 <= i < |kids| && Below(kids[i], c);
      KidsAreFailsBelow(rules, rs, t, kids[i]);
    }
    if SomeFailsBelow(rs, c) {
      var i :| 0 <= i < |rs| && FailsBelow(rs[i], c);
      BelowTrans(rs[i].test, c, t);
      KidsAreFailsBelow(rules, rs, t, rs[i].test);
    }
  }

  lemma {:induction false} CoveredExcuses(g: Setting, rs: seq<Result>, t: string)
    requires Covered(ScanOf(RulesIn(g), rs), t)
    ensures SomeFailsBelow(rs, t) && KidsExcused(g, rs, t)
  {
    var kids := Kids(ScanOf(RulesIn(g), rs).failing, t);
    KidsAreFailsBelow(RulesIn(g), rs, t, kids[0]);
    forall i | 0 <= i < |rs| && FailsBelow(rs[i], t) ensures KidExcused(g, rs, rs[i].test) {
      KidsAreFailsBelow(RulesIn(g), rs, t, rs[i].test);
      KidMeans(g, rs, t, rs[i].test);
    }
  }

  lemma {:induction false} ExcusesCovered(g: Setting, rs: seq<Result>, t: string)
    requires SomeFailsBelow(rs, t) && KidsExcused(g, rs, t)
    ensures Covered(ScanOf(RulesIn(g), rs), t)
  {
    var s := ScanOf(RulesIn(g), rs);
    var kids := Kids(s.failing, t);
    var i :| 0 <= i < |rs| && FailsBelow(rs[i], t);
    KidsAreFailsBelow(RulesIn(g), rs, t, rs[i].test);
    forall k | 0 <= k < |kids| ensures KidCovered(s, kids, kids[k]) {
      KidsAreFailsBelow(RulesIn(g), rs, t, kids[k]);
      KidMeans(g, rs, t, kids[k]);
    }
  }

  /** The output kept for a failing test is that of its last failing result. */
  lemma {:induction false} KeptOutput(rules: Rules, rs: seq<Result>, j: nat)
    requires LastFail(rs, j)
    ensures OutputOf(ScanOf(rules, rs), rs[j].test) == rs[j].output
  {
    var n := |rs| - 1;
    if j < n {
      assert forall k :: 0 <= k < n ==> rs[..n][k] == rs[k];
      assert LastFail(rs[..n], j);
      KeptOutput(rules, rs[..n], j);
    }
  }

  lemma {:induction false} LastFailOf(rs: seq<Result>, t: string) returns (j: nat)
    requires SomeFail(rs, t)
    ensures LastFail(rs, j) && rs[j].test == t
  {
    var n := |rs| - 1;
    if rs[n].status == Fail && rs[n].test == t {
      return n;
    }
    assert forall k :: 0 <= k < n ==> rs[..n][k] == rs[k];
    assert SomeFail(rs[..n], t);
    j := LastFailOf(rs[..n], t);
  }

  lemma {:induction false} KidOutputsMean(s: Scan, kids: seq<string>, l: string)
    ensures (exists k :: 0 <= k < |KidOutputs(s, kids)| && l in Split(KidOutputs(s, kids)[k], '\n')) <==>
            exists i :: 0 <= i < |kids| && l in Split(OutputOf(s, kids[i]), '\n')
  {
    if kids != [] {
      var n := |kids| - 1;
      KidOutputsMean(s, kids[..n], l);
      assert forall i :: 0 <= i < n ==> kids[..n][i] == kids[i];
      var before := KidOutputs(s, kids[..n]);
      assert KidOutputs(s, kids) == before + [OutputOf(s, kids[n])];
      assert (before + [OutputOf(s, kids[n])])[|before|] == OutputOf(s, kids[n]);
      assert forall k :: 0 <= k < |before| ==> (before + [OutputOf(s, kids[n])])[k] == before[k];
    }
  }

  lemma {:induction false} KidPrintedMeans(rules: Rules, rs: seq<Result>, t: string, l: string)
    ensures (exists i :: 0 <= i < |Kids(ScanOf(rules, rs).failing, t)|
                      && l in Split(OutputOf(ScanOf(rules, rs), Kids(ScanOf(rules, rs).failing, t)[i]), '\n'))
            <==> KidPrinted(rs, t, l)
  {
    var s := ScanOf(rules, rs);
    var kids := Kids(s.failing, t);
    if i :| 0 <= i < |kids| && l in Split(OutputOf(s, kids[i]), '\n') {
      KidsAreFailsBelow(rules, rs, t, kids[i]);
      var j := LastFailOf(rs, kids[i]);
      KeptOutput(rules, rs, j);
      assert FailsBelow(rs[j], t);
    }
    if KidPrinted(rs, t, l) {
      var k :| 0 <= k < |rs| && LastFail(rs, k) && FailsBelow(rs[k], t) && l in Split(rs[k].output, '\n');
      KeptOutput(rules, rs, k);
      KidsAreFailsBelow(rules, rs, t, rs[k].test);
    }
  }

  lemma {:induction false} OwnLineMeans(rules: Rules, rs: seq<Result>, t: string, l: string)
    ensures var s := ScanOf(rules, rs);
            !OwnLine(l, NameOf(t), KidOutputs(s, Kids(s.failing, t))) <==>
            BlankLine(l) || Framing(l, NameOf(t)) || KidPrinted(rs, t, l)
  {
    var s := ScanOf(rules, rs);
    KidOutputsMean(s, Kids(s.failing, t), l);
    KidPrintedMeans(rules, rs, t, l);
  }

  lemma {:induction false} NoOwnLineMeans(rules: Rules, rs: seq<Result>, t: string)
    ensures !HasOwnLine(ScanOf(rules, rs), t) <==> NoOwnLine(rs, t, OutputOf(ScanOf(rules, rs), t))
  {
    forall l ensures var s := ScanOf(rules, rs);
                     !OwnLine(l, NameOf(t), KidOutputs(s, Kids(s.failing, t))) <==>
                     BlankLine(l) || Framing(l, NameOf(t)) || KidPrinted(rs, t, l)
    {
      OwnLineMeans(rules, rs, t, l);
    }
  }

  lemma {:induction false} ParentMeans(g: Setting, rs: seq<Result>, t: string)
    requires SomeFail(rs, t)
    ensures ParentExcused(ScanOf(RulesIn(g), rs), t) <==> SubtestsExcuse(g, rs, t)
  {
    var s := ScanOf(RulesIn(g), rs);
    var j := LastFailOf(rs, t);
    KeptOutput(RulesIn(g), rs, j);
    forall k | 0 <= k < |rs| && LastFail(rs, k) && rs[k].test == t ensures k == j {
    }
    RaceTextMeans(rs[j].output);
    if Covered(s, t) {
      CoveredExcuses(g, rs, t);
    }
    if SubtestsExcuse(g, rs, t) {
      ExcusesCovered(g, rs, t);
    }
    NoOwnLineMeans(RulesIn(g), rs, t);
  }

  lemma {:induction false} PassesMeans(g: Setting, rs: seq<Result>, i: nat)
    requires i < |rs|
    ensures Good(rs[i]) || (rs[i].status == Fail && Accounted(g, rs, rs[i])) <==> Passes(g, rs, rs[i])
  {
    ExcusedMeans(g, rs[i]);
    if rs[i].status == Fail {
      ParentMeans(g, rs, rs[i].test);
    }
  }

  /** The report is not red exactly when the registry is in order and every result passes. */
  lemma {:induction false} ReportExactly(g: Setting, rs: seq<Result>)
    ensures !AnyRed(Reports(g.entries, g.errs, RulesIn(g), rs, g.today)) <==>
            && g.errs == [] && (forall i :: 0 <= i < |g.entries| ==> g.entries[i].deadline >= g.today)
            && forall i :: 0 <= i < |rs| ==> Passes(g, rs, rs[i])
  {
    var rules := RulesIn(g);
    AnyRedConcat(Errors(g.errs) + Expired(g.entries, g.today), Lines(rules, ScanOf(rules, rs), rs));
    RegistryRed(g);
    LinesRed(rules, ScanOf(rules, rs), rs);
    RedIffNotAccounted(g, rs);
    forall i | 0 <= i < |rs|
      ensures Good(rs[i]) || (rs[i].status == Fail && Accounted(g, rs, rs[i])) <==> Passes(g, rs, rs[i])
    {
      PassesMeans(g, rs, i);
    }
  }

  /** The results an entry of their own excuses. */
  function OwnExcused(g: Setting, rs: seq<Result>): set<nat> {
    set i: nat | i < |rs| && OwnExcuse(g, rs[i])
  }

  lemma {:induction false} OwnExcusedMore(g: Setting, rs: seq<Result>, r: Result)
    ensures |OwnExcused(g, rs + [r])| == |OwnExcused(g, rs)| + if OwnExcuse(g, r) then 1 else 0
  {
    var n, more, before := |rs|, OwnExcused(g, rs + [r]), OwnExcused(g, rs);
    forall i: nat ensures i in more <==> i in before || (i == n && OwnExcuse(g, r)) {
      if i < n {
        assert (rs + [r])[i] == rs[i];
      }
    }
    assert n !in before;
    assert more == if OwnExcuse(g, r) then before + {n} else before;
  }

  lemma {:induction false} ExcusedCounted(g: Setting, rs: seq<Result>)
    ensures ScanOf(RulesIn(g), rs).excused == |OwnExcused(g, rs)|
  {
    if rs != [] {
      var n := |rs| - 1;
      ExcusedCounted(g, rs[..n]);
      ExcusedMeans(g, rs[n]);
      OwnExcusedMore(g, rs[..n], rs[n]);
      assert rs[..n] + [rs[n]] == rs;
    }
  }

  /** A run is not red exactly when it was read, every line is an event, something ran, the registry is in
  order, and every result passes: passed, skipped, excused by its own entry, or excused by its subtests. */
  lemma {:induction false} NotRedExactly(h: seq<Kind>, unread: bool, g: Setting)
    ensures !RedRun(h, unread, g) <==>
            && !unread && (forall i :: 0 <= i < |h| ==> !h[i].Bad?) && ResultsOf(h) != []
            && g.errs == [] && (forall i :: 0 <= i < |g.entries| ==> g.entries[i].deadline >= g.today)
            && forall i :: 0 <= i < |ResultsOf(h)| ==> Passes(g, ResultsOf(h), ResultsOf(h)[i])
  {
    BadLines(h);
    ReportExactly(g, ResultsOf(h));
  }

  lemma {:induction false} BadLines(h: seq<Kind>)
    ensures BadLinesOf(h) == [] <==> forall i :: 0 <= i < |h| ==> !h[i].Bad?
  {
    if h != [] {
      BadLines(h[..|h| - 1]);
    }
  }

  /** A result its entry excuses is a test of the stream that finished and failed, and every run that failed
  carries the entry's signature in its own output. */
  lemma {:induction false} OwnExcuseCarries(h: seq<Kind>, g: Setting, r: Result, i: nat)
    requires r in ResultsOf(h) && Decides(g.entries, i) && EntryExcuses(g, g.entries[i], r)
    ensures var runs := Cut(EventsOf(h, r.test));
            && r.test in OrderOf(h) && SomeFailed(runs.closed) && !Started(runs.tail)
            && forall k :: 0 <= k < |runs.closed| && Ended(runs.closed[k], Failed) ==>
                 Contains(Outputs(runs.closed[k]), g.entries[i].sig)
  {
    ExcusedMeans(g, r);
    DecidingEntry(g.entries, r.test);
    var j :| 0 <= j < |g.entries| && Decides(g.entries, j) && g.entries[j].test == r.test
             && ByID(g.entries)[r.test] == g.entries[j];
    OneDecides(g.entries, i, j);
    ExcusedCarriesSignature(h, g, r);
  }

  // ----- the edited packages -----

  predicate OneEntryEach(entries: seq<Entry>) {
    forall i, j :: 0 <= i < j < |entries| ==> entries[i].test != entries[j].test
  }

  lemma {:induction false} EditedDoesNotPass(g: Setting, rs: seq<Result>, r: Result, i: nat)
    requires OneEntryEach(g.entries) && r.status == Fail
    requires i < |g.entries| && g.entries[i].test == r.test && g.entries[i].pkg in g.edited
    ensures !Passes(g, rs, r)
  {
    assert Listed(g, r.test);
    forall j | 0 <= j < |g.entries| && g.entries[j].test == r.test ensures j == i {
    }
  }

  /** An entry in an edited package excuses nothing. */
  lemma {:induction false} EditedReds(h: seq<Kind>, unread: bool, g: Setting, k: nat, i: nat)
    requires OneEntryEach(g.entries) && k < |ResultsOf(h)| && ResultsOf(h)[k].status == Fail
    requires i < |g.entries| && g.entries[i].test == ResultsOf(h)[k].test && g.entries[i].pkg in g.edited
    ensures RedRun(h, unread, g)
  {
    NotRedExactly(h, unread, g);
    EditedDoesNotPass(g, ResultsOf(h), ResultsOf(h)[k], i);
  }

  /** Edited packages of no entry change nothing. */
  lemma {:induction false} UneditedSame(h: seq<Kind>, unread: bool, g: Setting)
    requires forall i :: 0 <= i < |g.entries| ==> g.entries[i].pkg !in g.edited
    ensures RedRun(h, unread, g) <==> RedRun(h, unread, g.(edited := []))
    ensures ExitFor(h, unread, g) == ExitFor(h, unread, g.(edited := []))
  {
    var u := g.(edited := []);
    NotRedExactly(h, unread, g);
    NotRedExactly(h, unread, u);
    PassesUnedited(g, u, ResultsOf(h));
  }

  lemma {:induction false} PassesUnedited(g: Setting, u: Setting, rs: seq<Result>)
    requires u == g.(edited := []) && forall i :: 0 <= i < |g.entries| ==> g.entries[i].pkg !in g.edited
    ensures forall i :: 0 <= i < |rs| ==> (Passes(g, rs, rs[i]) <==> Passes(u, rs, rs[i]))
  {
    forall r ensures OwnExcuse(g, r) <==> OwnExcuse(u, r) {
      OwnExcuseUnedited(g, u, r);
    }
    assert forall t :: Listed(g, t) <==> Listed(u, t);
    forall c ensures KidExcused(g, rs, c) <==> KidExcused(u, rs, c) {
      assert SomeOwnExcuse(g, rs, c) <==> SomeOwnExcuse(u, rs, c);
    }
    forall t ensures SubtestsExcuse(g, rs, t) <==> SubtestsExcuse(u, rs, t) {
    }
  }

  lemma OwnExcuseUnedited(g: Setting, u: Setting, r: Result)
    requires u == g.(edited := []) && forall i :: 0 <= i < |g.entries| ==> g.entries[i].pkg !in g.edited
    ensures OwnExcuse(g, r) <==> OwnExcuse(u, r)
  {
    forall i | 0 <= i < |g.entries| ensures EntryExcuses(g, g.entries[i], r) <==> EntryExcuses(u, u.entries[i], r) {
    }
  }

  // ----- the name of a test -----

  /** The name follows the first "::" of the id; an id without one has no name. */
  lemma {:induction false} NameFollowsColons(before: string, after: string)
    requires !Contains(before + ":", "::")
    ensures NameOf(before + "::" + after) == after
  {
    var t := before + "::" + after;
    if before == "" {
      assert t[..2] == "::" && t[2..] == after;
    } else {
      assert t[..2] == (before + ":")[..2] && !At(before + ":", 0, "::");
      assert t[1..] == before[1..] + "::" + after;
      forall i | 0 <= i <= |before[1..] + ":"| ensures !At(before[1..] + ":", i, "::") {
        assert (before + ":")[1..] == before[1..] + ":";
        assert !At(before + ":", i + 1, "::");
      }
      NameFollowsColons(before[1..], after);
    }
  }

  lemma {:induction false} NoColonsNoName(t: string)
    requires !Contains(t, "::")
    ensures NameOf(t) == ""
  {
    if |t| >= 2 {
      assert !At(t, 0, "::");
      forall i | 0 <= i <= |t[1..]| ensures !At(t[1..], i, "::") {
        assert !At(t, i + 1, "::");
      }
      NoColonsNoName(t[1..]);
    }
  }

  // ----- the lines of the stream -----

  predicate BuildLine(l: Line) {
    l.Event? && l.pkg == "" && l.importPath != "" && |l.action| >= 6 && l.action[..6] == "build-"
  }

  /** A line that is no JSON, or an event without a package or an action, other than a build's. */
  predicate BrokenLine(l: Line) {
    l.NotJson? || (l.Event? && (l.pkg == "" || l.action == "") && !BuildLine(l))
  }

  /** What a line is, by its own fields. */
  lemma LineMeans(l: Line)
    ensures Classify(l).Bad? <==> BrokenLine(l)
    ensures Classify(l).Nothing? <==> l.Blank?
    ensures Classify(l).Build? <==> BuildLine(l)
    ensures BuildLine(l) ==> Classify(l) == Build(l.importPath, l.action == "build-fail")
    ensures Classify(l).OfTest? <==> l.Event? && l.pkg != "" && l.action != "" && l.test != ""
    ensures Classify(l).OfTest? ==> Classify(l) == OfTest(l.pkg, l.test, TestEvent(ActionOf(l.action), l.output))
    ensures Classify(l).OfPackage? <==> l.Event? && l.pkg != "" && l.action != "" && l.test == ""
    ensures Classify(l).OfPackage? ==> Classify(l) == OfPackage(l.pkg, TestEvent(ActionOf(l.action), l.output))
  {
    assert l.Event? ==> ("build-" <= l.action <==> |l.action| >= 6 && l.action[..6] == "build-");
  }

  lemma ActionMeans(s: string)
    ensures (ActionOf(s) == Run <==> s == "run") && (ActionOf(s) == Output <==> s == "output")
    ensures (ActionOf(s) == Passed <==> s == "pass") && (ActionOf(s) == Skipped <==> s == "skip")
    ensures ActionOf(s) == Failed <==> s == "fail"
  {
  }

  /** A test, package or build failure, as the test command writes it. */
  predicate FailureWritten(l: Line) {
    l.Event? && ((l.pkg != "" && l.action == "fail") || (l.pkg == "" && l.importPath != "" && l.action == "build-fail"))
  }

  /** A broken line reds the run, and a written failure keeps it from being green, whatever the registry
  says; in the full tier it reds the run. */
  lemma {:induction false} LinesDecide(stream: seq<Line>, unread: bool, g: Setting, i: nat)
    requires i < |stream|
    ensures BrokenLine(stream[i]) ==> ExitFor(Kinds(stream), unread, g) == 1
    ensures FailureWritten(stream[i]) ==> ExitFor(Kinds(stream), unread, g) != 0
    ensures FailureWritten(stream[i]) && g.full ==> ExitFor(Kinds(stream), unread, g) == 1
  {
    var h, l := Kinds(stream), stream[i];
    LineMeans(l);
    assert h[i] == Classify(l);
    if BrokenLine(l) {
      BadLines(h);
    }
    if FailureWritten(l) {
      assert "build-fail"[..6] == "build-";
      ActionMeans(l.action);
      assert FailLine(h[i]);
      FailLineNotGreen(h, unread, g, i);
    }
  }

  lemma {:induction false} FailLineNotGreen(h: seq<Kind>, unread: bool, g: Setting, i: nat)
    requires i < |h| && FailLine(h[i])
    ensures ExitFor(h, unread, g) != 0 && (g.full ==> ExitFor(h, unread, g) == 1)
  {
    GreenExact(h, unread, g);
    CountsFailed(ResultsOf(h));
    if g.full {
      FullTierPromise(h, unread, g, i);
    }
  }
}
