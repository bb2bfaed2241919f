/** evaluate: which failures of a run the quarantine registry excuses, and what is reported of each. */
module Quarantine {
  import opened Splitting
  import opened TestStream
  import opened TestOutput
  import opened Collecting

  /** A registry entry; a date is a day number. */
  datatype Entry = Entry(test: string, pkg: string, sig: string, deadline: int)

  /** One report line. */
  datatype Report =
    | Unwritten
    | RedRegistry(error: string)
    | RedExpired(test: string)
    | ListedOk(test: string, status: Status)
    | RedNoResult(test: string)
    | RedRace(test: string)
    | RedFullTier(test: string)
    | RedEdited(test: string)
    | RedSignature(test: string)
    | Quarantined(test: string)
    | RedFailed(test: string)
    | RedOwnOutput(test: string)
    | QuarantinedParent(test: string, subtests: seq<string>)

  predicate IsRed(r: Report) {
    !(r.Unwritten? || r.ListedOk? || r.Quarantined? || r.QuarantinedParent?)
  }

  predicate AnyRed(rs: seq<Report>) {
    exists i :: 0 <= i < |rs| && IsRed(rs[i])
  }

  /** What a failure is judged by. */
  datatype Rules = Rules(byID: map<string, Entry>, full: bool, edited: set<string>)

  // ----- one result at a time -----

  /** Only its own entry excuses a listed failure: in the fast tier, outside the edited packages, without a
  race report, and with the signature in every run that failed. */
  predicate Excused(rules: Rules, r: Result) {
    && r.status == Fail
    && r.test in rules.byID
    && !RaceReported(r.output)
    && !rules.full
    && rules.byID[r.test].pkg !in rules.edited
    && Carried(r.failedRuns, rules.byID[r.test].sig)
  }

  predicate Unlisted(rules: Rules, r: Result) {
    r.status == Fail && r.test !in rules.byID
  }

  /** The line of a result that needs no other result; an unlisted failure is written later. */
  function Drafted(rules: Rules, r: Result): seq<Report> {
    match r.status
    case Pass => if r.test in rules.byID then [ListedOk(r.test, Pass)] else []
    case Skip => if r.test in rules.byID then [ListedOk(r.test, Skip)] else []
    case NoResult => [RedNoResult(r.test)]
    case Fail =>
      if r.test !in rules.byID then [Unwritten]
      else if RaceReported(r.output) then [RedRace(r.test)]
      else if rules.full then [RedFullTier(r.test)]
      else if rules.byID[r.test].pkg in rules.edited then [RedEdited(r.test)]
      else if !Carried(r.failedRuns, rules.byID[r.test].sig) then [RedSignature(r.test)]
      else [Quarantined(r.test)]
  }

  datatype Pending = Pending(idx: nat, test: string)

  /** What the first loop over the results gathers. */
  datatype Scan = Scan(
    out: seq<Report>, excused: nat, failing: seq<string>, outputs: map<string, string>,
    quarantined: set<string>, unlisted: seq<Pending>, unlistedIDs: set<string>)

  const NO_SCAN := Scan([], 0, [], map[], {}, [], {})

  function ScanStep(rules: Rules, s: Scan, r: Result): Scan {
    var t := s.(out := s.out + Drafted(rules, r));
    if r.status != Fail then t
    else
      var u := t.(failing := s.failing + [r.test], outputs := s.outputs[r.test := r.output]);
      if r.test !in rules.byID then
        u.(unlisted := s.unlisted + [Pending(|s.out|, r.test)], unlistedIDs := s.unlistedIDs + {r.test})
      else if Excused(rules, r) then u.(quarantined := s.quarantined + {r.test}, excused := s.excused + 1)
      else u
  }

  function ScanOf(rules: Rules, rs: seq<Result>): Scan {
    if rs == [] then NO_SCAN else ScanStep(rules, ScanOf(rules, rs[..|rs| - 1]), rs[|rs| - 1])
  }

  // ----- a parent and its subtests -----

  predicate Below(c: string, t: string) {
    t + "/" <= c
  }

  function Kids(failing: seq<string>, t: string): seq<string> {
    if failing == [] then []
    else
      var n := |failing| - 1;
      Kids(failing[..n], t) + if Below(failing[n], t) then [failing[n]] else []
  }

  predicate HasInner(kids: seq<string>, c: string) {
    exists i :: 0 <= i < |kids| && Below(kids[i], c)
  }

  predicate KidCovered(s: Scan, kids: seq<string>, c: string) {
    c in s.quarantined || (c in s.unlistedIDs && HasInner(kids, c))
  }

  /** It has a failing subtest, and each one is quarantined or an unlisted parent of a failing one. */
  predicate Covered(s: Scan, t: string) {
    var kids := Kids(s.failing, t);
    kids != [] && forall i :: 0 <= i < |kids| ==> KidCovered(s, kids, kids[i])
  }

  /** The name of a test: what follows the first "::" of its id. */
  function NameOf(t: string): string {
    if |t| < 2 then "" else if t[..2] == "::" then t[2..] else NameOf(t[1..])
  }

  function OutputOf(s: Scan, t: string): string {
    if t in s.outputs then s.outputs[t] else ""
  }

  function KidOutputs(s: Scan, kids: seq<string>): seq<string> {
    if kids == [] then [] else KidOutputs(s, kids[..|kids| - 1]) + [OutputOf(s, kids[|kids| - 1])]
  }

  ghost predicate HasOwnLine(s: Scan, t: string) {
    var kidOutputs := KidOutputs(s, Kids(s.failing, t));
    exists l :: l in Split(OutputOf(s, t), '\n') && OwnLine(l, NameOf(t), kidOutputs)
  }

  /** An unlisted parent is excused through its subtests alone. */
  ghost predicate ParentExcused(s: Scan, t: string) {
    !RaceReported(OutputOf(s, t)) && Covered(s, t) && !HasOwnLine(s, t)
  }

  function InSet(kids: seq<string>, q: set<string>): seq<string> {
    if kids == [] then []
    else
      var n := |kids| - 1;
      InSet(kids[..n], q) + if kids[n] in q then [kids[n]] else []
  }

  ghost function ParentReport(s: Scan, t: string): Report {
    if RaceReported(OutputOf(s, t)) then RedRace(t)
    else if !Covered(s, t) then RedFailed(t)
    else if HasOwnLine(s, t) then RedOwnOutput(t)
    else QuarantinedParent(t, InSet(Kids(s.failing, t), s.quarantined))
  }

  // ----- all the lines -----

  /** The line of each result, in the order of the results. */
  ghost function Lines(rules: Rules, s: Scan, rs: seq<Result>): seq<Report> {
    if rs == [] then []
    else
      var n, r := |rs| - 1, rs[|rs| - 1];
      Lines(rules, s, rs[..n]) + if Unlisted(rules, r) then [ParentReport(s, r.test)] else Drafted(rules, r)
  }

  function Expired(entries: seq<Entry>, today: int): seq<Report> {
    if entries == [] then []
    else
      var n, e := |entries| - 1, entries[|entries| - 1];
      Expired(entries[..n], today) + if e.deadline < today then [RedExpired(e.test)] else []
  }

  function Errors(errs: seq<string>): seq<Report> {
    if errs == [] then [] else Errors(errs[..|errs| - 1]) + [RedRegistry(errs[|errs| - 1])]
  }

  function ByID(entries: seq<Entry>): map<string, Entry> {
    if entries == [] then map[]
    else
      var n := |entries| - 1;
      ByID(entries[..n])[entries[n].test := entries[n]]
  }

  ghost function Reports(entries: seq<Entry>, errs: seq<string>, rules: Rules, rs: seq<Result>, today: int): seq<Report> {
    Errors(errs) + Expired(entries, today) + Lines(rules, ScanOf(rules, rs), rs)
  }

  // ----- the code -----

  lemma AnyRedConcat(a: seq<Report>, b: seq<Report>)
    ensures AnyRed(a + b) <==> AnyRed(a) || AnyRed(b)
  {
    var c := a + b;
    if AnyRed(a) {
      var i :| 0 <= i < |a| && IsRed(a[i]);
      assert IsRed(c[i]);
    }
    if AnyRed(b) {
      var i :| 0 <= i < |b| && IsRed(b[i]);
      assert IsRed(c[|a| + i]);
    }
  }

  /** The first loop's switch on one result. */
  method ScanOne(rules: Rules, s: Scan, r: Result) returns (t: Scan, red: bool)
    ensures t == ScanStep(rules, s, r)
    ensures red <==> AnyRed(Drafted(rules, r))
  {
    red, t := false, s;
    match r.status {
      case Pass =>
        if r.test in rules.byID {
          t := t.(out := t.out + [ListedOk(r.test, Pass)]);
        }
        return;
      case Skip =>
        if r.test in rules.byID {
          t := t.(out := t.out + [ListedOk(r.test, Skip)]);
        }
        return;
      case NoResult =>
        t := t.(out := t.out + [RedNoResult(r.test)]);
        assert IsRed(Drafted(rules, r)[0]);
        return t, true;
      case Fail =>
    }
    t := t.(failing := t.failing + [r.test], outputs := t.outputs[r.test := r.output]);
    if r.test !in rules.byID {
      t := t.(unlisted := t.unlisted + [Pending(|t.out|, r.test)], unlistedIDs := t.unlistedIDs + {r.test});
      t := t.(out := t.out + [Unwritten]);
      return;
    }
    var line: Report;
    line, red := JudgeListed(rules, r, rules.byID[r.test]);
    if line.Quarantined? {
      t := t.(quarantined := t.quarantined + {r.test}, excused := t.excused + 1);
    }
    t := t.(out := t.out + [line]);
    assert Drafted(rules, r)[0] == line;
  }

  /** The listed failure's switch. */
  method JudgeListed(rules: Rules, r: Result, e: Entry) returns (line: Report, red: bool)
    requires r.status == Fail && r.test in rules.byID && e == rules.byID[r.test]
    ensures [line] == Drafted(rules, r)
    ensures red <==> IsRed(line)
    ensures line.Quarantined? <==> Excused(rules, r)
  {
    var marker := RaceMarker(r.output);
    var carried := CarriedByEveryRun(r.failedRuns, e.sig);
    if marker != "" {
      return RedRace(r.test), true;
    } else if rules.full {
      return RedFullTier(r.test), true;
    } else if e.pkg in rules.edited {
      return RedEdited(r.test), true;
    } else if !carried {
      return RedSignature(r.test), true;
    } else {
      return Quarantined(r.test), false;
    }
  }

  /** The first loop. */
  method ScanResults(rules: Rules, results: seq<Result>) returns (s: Scan, red: bool)
    ensures s == ScanOf(rules, results)
    ensures red <==> AnyRed(s.out)
  {
    s, red := NO_SCAN, false;
    for i := 0 to |results|
      invariant s == ScanOf(rules, results[..i])
      invariant red <==> AnyRed(s.out)
    {
      assert results[..i + 1][..i] == results[..i];
      AnyRedConcat(s.out, Drafted(rules, results[i]));
      var here: bool;
      s, here := ScanOne(rules, s, results[i]);
      red := red || here;
    }
    assert results[..|results|] == results;
  }

  /** The failing subtests, in order. */
  method FailingBelow(failing: seq<string>, t: string) returns (kids: seq<string>)
    ensures kids == Kids(failing, t)
  {
    kids := [];
    for i := 0 to |failing|
      invariant kids == Kids(failing[..i], t)
    {
      assert failing[..i + 1][..i] == failing[..i];
      if t + "/" <= failing[i] {
        kids := kids + [failing[i]];
      }
    }
    assert failing[..|failing|] == failing;
  }

  method CoversAll(s: Scan, kids: seq<string>) returns (covered: bool)
    ensures covered <==> kids != [] && forall i :: 0 <= i < |kids| ==> KidCovered(s, kids, kids[i])
  {
    for i := 0 to |kids|
      invariant forall k :: 0 <= k < i ==> KidCovered(s, kids, kids[k])
    {
      var c := kids[i];
      if c in s.quarantined {
        continue;
      }
      var inner := false;
      if c in s.unlistedIDs {
        for j := 0 to |kids|
          invariant !inner && forall k :: 0 <= k < j ==> !Below(kids[k], c)
        {
          if c + "/" <= kids[j] {
            inner := true;
            assert Below(kids[j], c);
            break;
          }
        }
      }
      if !inner {
        assert !KidCovered(s, kids, kids[i]);
        return false;
      }
    }
    covered := |kids| > 0;
  }

  method OutputsOfKids(s: Scan, kids: seq<string>) returns (kidOut: seq<string>)
    ensures kidOut == KidOutputs(s, kids)
  {
    kidOut := [];
    for i := 0 to |kids|
      invariant kidOut == KidOutputs(s, kids[..i])
    {
      assert kids[..i + 1][..i] == kids[..i];
      kidOut := kidOut + [OutputOf(s, kids[i])];
    }
    assert kids[..|kids|] == kids;
  }

  method QuarantinedKids(s: Scan, kids: seq<string>) returns (q: seq<string>)
    ensures q == InSet(kids, s.quarantined)
  {
    q := [];
    for i := 0 to |kids|
      invariant q == InSet(kids[..i], s.quarantined)
    {
      assert kids[..i + 1][..i] == kids[..i];
      if kids[i] in s.quarantined {
        q := q + [kids[i]];
      }
    }
    assert kids[..|kids|] == kids;
  }

  /** The second loop's body: an unlisted failure, now that every result is read. */
  method JudgeUnlisted(s: Scan, t: string) returns (line: Report)
    ensures line == ParentReport(s, t)
  {
    var marker := RaceMarker(OutputOf(s, t));
    if marker != "" {
      return RedRace(t);
    }
    var kids := FailingBelow(s.failing, t);
    var covered := CoversAll(s, kids);
    var own := "";
    if covered {
      var kidOut := OutputsOfKids(s, kids);
      own := OwnFailure(NameOf(t), OutputOf(s, t), kidOut);
    }
    if covered && own != "" {
      return RedOwnOutput(t);
    } else if covered {
      var q := QuarantinedKids(s, kids);
      return QuarantinedParent(t, q);
    } else {
      return RedFailed(t);
    }
  }

  /** The places left open, filled one after the other. */
  ghost function Filled(s: Scan, out: seq<Report>, ps: seq<Pending>): (r: seq<Report>)
    requires forall i :: 0 <= i < |ps| ==> ps[i].idx < |out|
    ensures |r| == |out|
  {
    if ps == [] then out
    else
      var n := |ps| - 1;
      Filled(s, out, ps[..n])[ps[n].idx := ParentReport(s, ps[n].test)]
  }

  lemma {:induction false} FilledBefore(s: Scan, out: seq<Report>, more: seq<Report>, ps: seq<Pending>)
    requires forall i :: 0 <= i < |ps| ==> ps[i].idx < |out|
    ensures Filled(s, out + more, ps) == Filled(s, out, ps) + more
    decreases ps
  {
    if ps != [] {
      FilledBefore(s, out, more, ps[..|ps| - 1]);
    }
  }

  predicate InRange(ps: seq<Pending>, out: seq<Report>) {
    forall i :: 0 <= i < |ps| ==> ps[i].idx < |out|
  }

  lemma {:induction false} OpenPlaces(rules: Rules, rs: seq<Result>)
    ensures InRange(ScanOf(rules, rs).unlisted, ScanOf(rules, rs).out)
  {
    if rs != [] {
      OpenPlaces(rules, rs[..|rs| - 1]);
    }
  }

  /** Writing the open places of the scan gives every result its line, in order. */
  lemma {:induction false} FilledIsLines(rules: Rules, s: Scan, rs: seq<Result>)
    ensures var t := ScanOf(rules, rs);
            InRange(t.unlisted, t.out) && Filled(s, t.out, t.unlisted) == Lines(rules, s, rs)
  {
    OpenPlaces(rules, rs);
    if rs != [] {
      var n, r := |rs| - 1, rs[|rs| - 1];
      var t := ScanOf(rules, rs[..n]);
      FilledIsLines(rules, s, rs[..n]);
      FilledBefore(s, t.out, Drafted(rules, r), t.unlisted);
      if Unlisted(rules, r) {
        var u := ScanOf(rules, rs).unlisted;
        assert u[..|t.unlisted|] == t.unlisted;
      }
    }
  }

  /** The second loop: every open place gets its line. */
  method WriteUnlisted(s: Scan, before: bool) returns (out: seq<Report>, red: bool)
    requires InRange(s.unlisted, s.out) && (before <==> AnyRed(s.out))
    requires forall i :: 0 <= i < |s.unlisted| ==> s.out[s.unlisted[i].idx] == Unwritten
    requires forall i, j :: 0 <= i < j < |s.unlisted| ==> s.unlisted[i].idx != s.unlisted[j].idx
    ensures out == Filled(s, s.out, s.unlisted)
    ensures red <==> AnyRed(out)
  {
    out, red := s.out, before;
    for k := 0 to |s.unlisted|
      invariant InRange(s.unlisted[..k], s.out) && out == Filled(s, s.out, s.unlisted[..k])
      invariant |out| == |s.out|
      invariant forall i :: k <= i < |s.unlisted| ==> out[s.unlisted[i].idx] == Unwritten
      invariant red <==> AnyRed(out)
    {
      var u := s.unlisted[k];
      assert s.unlisted[..k + 1][..k] == s.unlisted[..k];
      var line := JudgeUnlisted(s, u.test);
      RedUpdate(out, u.idx, line);
      out := out[u.idx := line];
      red := red || IsRed(line);
    }
    assert s.unlisted[..|s.unlisted|] == s.unlisted;
  }

  lemma RedUpdate(out: seq<Report>, i: nat, line: Report)
    requires i < |out| && out[i] == Unwritten
    ensures AnyRed(out[i := line]) <==> AnyRed(out) || IsRed(line)
  {
    var more := out[i := line];
    assert more[i] == line;
    if AnyRed(out) {
      var k :| 0 <= k < |out| && IsRed(out[k]);
      assert more[k] == out[k];
    }
  }

  lemma {:induction false} PlacesOpen(rules: Rules, rs: seq<Result>)
    ensures var s := ScanOf(rules, rs);
            && InRange(s.unlisted, s.out)
            && (forall i :: 0 <= i < |s.unlisted| ==> s.out[s.unlisted[i].idx] == Unwritten)
            && (forall i, j :: 0 <= i < j < |s.unlisted| ==> s.unlisted[i].idx != s.unlisted[j].idx)
  {
    OpenPlaces(rules, rs);
    if rs != [] {
      var n := |rs| - 1;
      OpenPlaces(rules, rs[..n]);
      PlacesOpen(rules, rs[..n]);
    }
  }

  function RulesOf(entries: seq<Entry>, full: bool, edited: seq<string>): Rules {
    Rules(ByID(entries), full, set p | p in edited)
  }

  /** The registry's own lines: its errors, then the entries past their deadline. */
  method CheckRegistry(entries: seq<Entry>, errs: seq<string>, today: int)
    returns (red: bool, lines: seq<Report>, byID: map<string, Entry>)
    ensures lines == Errors(errs) + Expired(entries, today)
    ensures red <==> AnyRed(lines)
    ensures byID == ByID(entries)
  {
    red, lines, byID := false, [], map[];
    for i := 0 to |errs|
      invariant lines == Errors(errs[..i])
      invariant red <==> AnyRed(lines)
    {
      assert errs[..i + 1][..i] == errs[..i];
      AnyRedConcat(lines, [RedRegistry(errs[i])]);
      assert IsRed([RedRegistry(errs[i])][0]);
      lines, red := lines + [RedRegistry(errs[i])], true;
    }
    assert errs[..|errs|] == errs;
    for i := 0 to |entries|
      invariant lines == Errors(errs) + Expired(entries[..i], today)
      invariant red <==> AnyRed(lines)
      invariant byID == ByID(entries[..i])
    {
      var e := entries[i];
      assert entries[..i + 1][..i] == entries[..i];
      if e.deadline < today {
        AnyRedConcat(lines, [RedExpired(e.test)]);
        assert IsRed([RedExpired(e.test)][0]);
        lines, red := lines + [RedExpired(e.test)], true;
      }
      byID := byID[e.test := e];
    }
    assert entries[..|entries|] == entries;
  }

  /** evaluate as written, on a parsed registry: the verdict, how many failures were excused, the lines. */
  method Evaluate(entries: seq<Entry>, errs: seq<string>, results: seq<Result>, full: bool, edited: seq<string>, today: int)
    returns (red: bool, excused: nat, lines: seq<Report>)
    ensures lines == Reports(entries, errs, RulesOf(entries, full, edited), results, today)
    ensures red <==> AnyRed(lines)
    ensures excused == ScanOf(RulesOf(entries, full, edited), results).excused
  {
    var first, head, byID := CheckRegistry(entries, errs, today);
    var rules := Rules(byID, full, set p | p in edited);
    var s, second := ScanResults(rules, results);
    PlacesOpen(rules, results);
    FilledIsLines(rules, s, results);
    var out, third := WriteUnlisted(s, second);
    AnyRedConcat(head, out);
    return first || third, s.excused, head + out;
  }
}
