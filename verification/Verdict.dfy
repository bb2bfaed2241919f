/** What the verdict of a run promises: soundness of green and excused, and what can never be excused. */
module Verdict {
  import opened TestStream
  import opened TestOutput
  import opened Collecting
  import opened Quarantine

  // ----- what the scan holds -----

  predicate SomeFail(rs: seq<Result>, t: string) {
    exists i :: 0 <= i < |rs| && rs[i].status == Fail && rs[i].test == t
  }

  predicate SomeExcused(rules: Rules, rs: seq<Result>, t: string) {
    exists i :: 0 <= i < |rs| && Excused(rules, rs[i]) && rs[i].test == t
  }

  predicate SomeUnlisted(rules: Rules, rs: seq<Result>, t: string) {
    exists i :: 0 <= i < |rs| && Unlisted(rules, rs[i]) && rs[i].test == t
  }

  lemma {:induction false} ScanMeans(rules: Rules, rs: seq<Result>, t: string)
    ensures var s := ScanOf(rules, rs);
            && (t in s.failing <==> SomeFail(rs, t))
            && (t in s.quarantined <==> SomeExcused(rules, rs, t))
            && (t in s.unlistedIDs <==> SomeUnlisted(rules, rs, t))
  {
    ScanFailing(rules, rs, t);
    ScanExcused(rules, rs, t);
    ScanUnlisted(rules, rs, t);
  }

  lemma {:induction false} ScanFailing(rules: Rules, rs: seq<Result>, t: string)
    ensures t in ScanOf(rules, rs).failing <==> SomeFail(rs, t)
  {
    if rs != [] {
      var n, r := |rs| - 1, rs[|rs| - 1];
      ScanFailing(rules, rs[..n], t);
      assert forall i :: 0 <= i < n ==> rs[..n][i] == rs[i];
      assert SomeFail(rs, t) <==> SomeFail(rs[..n], t) || (r.status == Fail && r.test == t);
    }
  }

  lemma {:induction false} ScanExcused(rules: Rules, rs: seq<Result>, t: string)
    ensures t in ScanOf(rules, rs).quarantined <==> SomeExcused(rules, rs, t)
  {
    if rs != [] {
      var n, r := |rs| - 1, rs[|rs| - 1];
      ScanExcused(rules, rs[..n], t);
      assert forall i :: 0 <= i < n ==> rs[..n][i] == rs[i];
      assert SomeExcused(rules, rs, t) <==> SomeExcused(rules, rs[..n], t) || (Excused(rules, r) && r.test == t);
    }
  }

  lemma {:induction false} ScanUnlisted(rules: Rules, rs: seq<Result>, t: string)
    ensures t in ScanOf(rules, rs).unlistedIDs <==> SomeUnlisted(rules, rs, t)
  {
    if rs != [] {
      var n, r := |rs| - 1, rs[|rs| - 1];
      ScanUnlisted(rules, rs[..n], t);
      assert forall i :: 0 <= i < n ==> rs[..n][i] == rs[i];
      assert SomeUnlisted(rules, rs, t) <==> SomeUnlisted(rules, rs[..n], t) || (Unlisted(rules, r) && r.test == t);
    }
  }

  /** The number of excused failures. */
  function ExcusedCount(rules: Rules, rs: seq<Result>): nat {
    if rs == [] then 0
    else ExcusedCount(rules, rs[..|rs| - 1]) + if Excused(rules, rs[|rs| - 1]) then 1 else 0
  }

  lemma {:induction false} CountsExcused(rules: Rules, rs: seq<Result>)
    ensures ScanOf(rules, rs).excused == ExcusedCount(rules, rs)
    ensures ExcusedCount(rules, rs) > 0 <==> exists i :: 0 <= i < |rs| && Excused(rules, rs[i])
  {
    if rs != [] {
      var n := |rs| - 1;
      CountsExcused(rules, rs[..n]);
      assert forall i :: 0 <= i < n ==> rs[..n][i] == rs[i];
    }
  }

  // ----- the lines -----

  /** A result that reds the run. */
  ghost predicate RedResult(rules: Rules, s: Scan, r: Result) {
    || r.status == NoResult
    || (r.status == Fail && !Excused(rules, r) && !(Unlisted(rules, r) && ParentExcused(s, r.test)))
  }

  lemma {:induction false} LinesRed(rules: Rules, s: Scan, rs: seq<Result>)
    ensures AnyRed(Lines(rules, s, rs)) <==> exists i :: 0 <= i < |rs| && RedResult(rules, s, rs[i])
  {
    if rs != [] {
      var n, r := |rs| - 1, rs[|rs| - 1];
      LinesRed(rules, s, rs[..n]);
      var last := if Unlisted(rules, r) then [ParentReport(s, r.test)] else Drafted(rules, r);
      AnyRedConcat(Lines(rules, s, rs[..n]), last);
      assert forall i :: 0 <= i < n ==> rs[..n][i] == rs[i];
      assert AnyRed(last) <==> last != [] && IsRed(last[0]);
      assert AnyRed(last) <==> RedResult(rules, s, r);
    }
  }

  // ----- a covered parent rests on quarantined subtests -----

  lemma {:induction false} KidsMean(failing: seq<string>, t: string, c: string)
    ensures c in Kids(failing, t) <==> c in failing && Below(c, t)
  {
    if failing != [] {
      KidsMean(failing[..|failing| - 1], t, c);
    }
  }

  lemma BelowTrans(a: string, b: string, c: string)
    requires Below(a, b) && Below(b, c)
    ensures Below(a, c) && |a| > |b|
  {
  }

  function Longest(kids: seq<string>): nat {
    if kids == [] then 0
    else
      var before, n := Longest(kids[..|kids| - 1]), |kids[|kids| - 1]|;
      if n > before then n else before
  }

  lemma {:induction false} LongestBounds(kids: seq<string>, c: string)
    requires c in kids
    ensures |c| <= Longest(kids)
  {
    if c != kids[|kids| - 1] {
      LongestBounds(kids[..|kids| - 1], c);
    }
  }

  /** Under a covered parent every failing subtest is quarantined or has a quarantined one below it: a
  longest failing subtest has nothing below to lean on. */
  lemma {:induction false} CoveredBelow(s: Scan, t: string, c: string) returns (q: string)
    requires Covered(s, t) && c in Kids(s.failing, t)
    ensures q in Kids(s.failing, t) && q in s.quarantined && (q == c || Below(q, c))
    decreases Longest(Kids(s.failing, t)) - |c|
  {
    var kids := Kids(s.failing, t);
    assert KidCovered(s, kids, c);
    if c in s.quarantined {
      return c;
    }
    var i :| 0 <= i < |kids| && Below(kids[i], c);
    LongestBounds(kids, kids[i]);
    q := CoveredBelow(s, t, kids[i]);
    if q != kids[i] {
      BelowTrans(q, kids[i], c);
    }
  }

  lemma CoveredHasQuarantined(s: Scan, t: string) returns (q: string)
    requires Covered(s, t)
    ensures q in s.quarantined && Below(q, t)
  {
    q := CoveredBelow(s, t, Kids(s.failing, t)[0]);
    KidsMean(s.failing, t, q);
  }

  /** The branch of the exit decision with failures, none excused, and no red line cannot happen. */
  lemma FailuresNeedAnExcuse(rules: Rules, rs: seq<Result>, i: nat)
    requires i < |rs| && rs[i].status == Fail
    requires !AnyRed(Lines(rules, ScanOf(rules, rs), rs))
    ensures ScanOf(rules, rs).excused > 0
  {
    var s := ScanOf(rules, rs);
    LinesRed(rules, s, rs);
    CountsExcused(rules, rs);
    assert !RedResult(rules, s, rs[i]);
    if !Excused(rules, rs[i]) {
      var q := CoveredHasQuarantined(s, rs[i].test);
      ScanMeans(rules, rs, q);
    }
  }

  /** In the full tier any failure reds the run, whatever the registry and the subtest tree. */
  lemma FullTierReds(rules: Rules, rs: seq<Result>, i: nat)
    requires rules.full && i < |rs| && rs[i].status == Fail
    ensures AnyRed(Lines(rules, ScanOf(rules, rs), rs))
  {
    if !AnyRed(Lines(rules, ScanOf(rules, rs), rs)) {
      FailuresNeedAnExcuse(rules, rs, i);
      CountsExcused(rules, rs);
    }
  }

  /** A failure with no entry of its own and none below it reds the run. */
  lemma NoEntryNoExcuse(rules: Rules, rs: seq<Result>, i: nat)
    requires i < |rs| && rs[i].status == Fail
    requires forall id :: id in rules.byID ==> id != rs[i].test && !Below(id, rs[i].test)
    ensures AnyRed(Lines(rules, ScanOf(rules, rs), rs))
  {
    var s := ScanOf(rules, rs);
    LinesRed(rules, s, rs);
    if Covered(s, rs[i].test) {
      var q := CoveredHasQuarantined(s, rs[i].test);
      ScanMeans(rules, rs, q);
    }
    assert RedResult(rules, s, rs[i]);
  }

  // ----- the exit decision -----

  function FailedCount(rs: seq<Result>): nat {
    if rs == [] then 0
    else FailedCount(rs[..|rs| - 1]) + if rs[|rs| - 1].status == Fail then 1 else 0
  }

  const EXIT_GREEN := 0
  const EXIT_RED := 1
  const EXIT_EXCUSED := 3

  function Exit(red: bool, excused: nat, failed: nat): int {
    if red then EXIT_RED
    else if excused > 0 then EXIT_EXCUSED
    else if failed > 0 then EXIT_RED
    else EXIT_GREEN
  }

  lemma {:induction false} CountsFailed(rs: seq<Result>)
    ensures FailedCount(rs) > 0 <==> exists i :: 0 <= i < |rs| && rs[i].status == Fail
  {
    if rs != [] {
      var n := |rs| - 1;
      CountsFailed(rs[..n]);
      assert forall i :: 0 <= i < n ==> rs[..n][i] == rs[i];
    }
  }

  /** The decision is exact: red is red, and otherwise excused exactly when something failed. */
  lemma ExitExact(rules: Rules, rs: seq<Result>, red: bool)
    requires AnyRed(Lines(rules, ScanOf(rules, rs), rs)) ==> red
    ensures var exit := Exit(red, ScanOf(rules, rs).excused, FailedCount(rs));
            && (exit == EXIT_RED <==> red)
            && (exit == EXIT_EXCUSED <==> !red && FailedCount(rs) > 0)
            && (exit == EXIT_GREEN <==> !red && FailedCount(rs) == 0)
  {
    CountsFailed(rs);
    CountsExcused(rules, rs);
    if !red && FailedCount(rs) > 0 {
      var i :| 0 <= i < |rs| && rs[i].status == Fail;
      FailuresNeedAnExcuse(rules, rs, i);
    }
  }
}
