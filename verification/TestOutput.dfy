/** What the quarantine rules read in a test's output: race reports, recorded signatures, and a parent's
own lines among the harness's and its subtests'. */
module TestOutput {
  import opened Splitting

  predicate At(s: string, i: nat, sub: string) {
    i + |sub| <= |s| && s[i..i + |sub|] == sub
  }

  predicate Contains(s: string, sub: string) {
    exists i :: 0 <= i <= |s| && At(s, i, sub)
  }

  const RACE_MARKERS: seq<string> := [
    "WARNING: DATA RACE",
    "race detected during execution of test",
    "ThreadSanitizer",
    "AddressSanitizer",
    "UndefinedBehaviorSanitizer",
    "LeakSanitizer",
    "MemorySanitizer"]

  predicate RaceReported(text: string) {
    exists i :: 0 <= i < |RACE_MARKERS| && Contains(text, RACE_MARKERS[i])
  }

  /** The first marker of the table, from an index on, that the text carries; empty when none. */
  function MarkerFrom(text: string, i: nat): string
    requires i <= |RACE_MARKERS|
    decreases |RACE_MARKERS| - i
  {
    if i == |RACE_MARKERS| then ""
    else if Contains(text, RACE_MARKERS[i]) then RACE_MARKERS[i]
    else MarkerFrom(text, i + 1)
  }

  /** raceMarker as written. */
  method RaceMarker(text: string) returns (m: string)
    ensures m == MarkerFrom(text, 0)
    ensures m != "" <==> RaceReported(text)
  {
    MarkersNamed();
    for i := 0 to |RACE_MARKERS|
      invariant MarkerFrom(text, 0) == MarkerFrom(text, i)
      invariant forall k :: 0 <= k < i ==> !Contains(text, RACE_MARKERS[k])
    {
      if Contains(text, RACE_MARKERS[i]) {
        return RACE_MARKERS[i];
      }
    }
    m := "";
  }

  lemma MarkersNamed()
    ensures forall i :: 0 <= i < |RACE_MARKERS| ==> RACE_MARKERS[i] != ""
  {
  }

  lemma {:induction false} MarkerMeans(text: string, i: nat)
    requires i <= |RACE_MARKERS|
    ensures MarkerFrom(text, i) != "" ==> exists k :: i <= k < |RACE_MARKERS| && MarkerFrom(text, i) == RACE_MARKERS[k]
    ensures MarkerFrom(text, i) != "" <==> exists k :: i <= k < |RACE_MARKERS| && Contains(text, RACE_MARKERS[k])
    decreases |RACE_MARKERS| - i
  {
    MarkersNamed();
    if i < |RACE_MARKERS| {
      MarkerMeans(text, i + 1);
    }
  }

  /** A text that ends with a marker reports a race. */
  lemma MarkerReported(before: string, text: string)
    requires MarkerFrom(text, 0) != ""
    ensures RaceReported(before + MarkerFrom(text, 0))
  {
    var m := MarkerFrom(text, 0);
    MarkerMeans(text, 0);
    assert At(before + m, |before|, m);
  }

  predicate Carried(runs: seq<string>, sig: string) {
    runs != [] && forall i :: 0 <= i < |runs| ==> Contains(runs[i], sig)
  }

  /** carriedByEveryRun as written. */
  method CarriedByEveryRun(runs: seq<string>, sig: string) returns (yes: bool)
    ensures yes <==> Carried(runs, sig)
  {
    for i := 0 to |runs|
      invariant forall k :: 0 <= k < i ==> Contains(runs[k], sig)
    {
      if !Contains(runs[i], sig) {
        return false;
      }
    }
    yes := |runs| > 0;
  }

  // ----- a parent's own lines -----

  /** White space of a trimmed line (Unicode). */
  predicate Space(c: char) {
    '\t' <= c <= '\r' || c == ' ' || c == '\U{85}' || c == '\U{A0}' || c == '\U{1680}' ||
    '\U{2000}' <= c <= '\U{200A}' || c == '\U{2028}' || c == '\U{2029}' || c == '\U{202F}' ||
    c == '\U{205F}' || c == '\U{3000}'
  }

  /** White space of the framing pattern. */
  predicate PatternSpace(c: char) {
    c == '\t' || c == '\n' || c == '\U{0C}' || c == '\r' || c == ' '
  }

  predicate BlankLine(l: string) {
    forall i :: 0 <= i < |l| ==> Space(l[i])
  }

  const FRAMES: seq<string> :=
    ["=== RUN", "=== PAUSE", "=== CONT", "=== NAME", "--- PASS:", "--- FAIL:", "--- SKIP:"]

  /** How many characters at the front are (or are not) pattern space. */
  function Leading(s: string, space: bool): (n: nat)
    ensures n <= |s| && forall i :: 0 <= i < n ==> PatternSpace(s[i]) == space
    ensures n < |s| ==> PatternSpace(s[n]) != space
  {
    if s == "" || PatternSpace(s[0]) != space then 0 else 1 + Leading(s[1..], space)
  }

  /** At least one blank, then the name up to the next blank; empty when there is none. */
  function NameAfter(t: string): string {
    var n := Leading(t, true);
    if n == 0 then "" else t[n..][..Leading(t[n..], false)]
  }

  predicate FrameAt(s: string, k: nat) {
    k < |FRAMES| && FRAMES[k] <= s
  }

  /** The name the frame captures on a line without its leading blanks; empty when it does not match. */
  function Captured(s: string, k: nat): string {
    if FrameAt(s, k) then NameAfter(s[|FRAMES[k]|..]) else ""
  }

  function Unindented(l: string): string {
    l[Leading(l, true)..]
  }

  /** The line is harness framing that names this test: blanks, a frame, blanks, the name. */
  predicate Frames(l: string, name: string) {
    name != "" && exists k :: 0 <= k < |FRAMES| && Captured(Unindented(l), k) == name
  }

  predicate AtOrBelow(test: string, name: string) {
    test == name || name + "/" <= test
  }

  /** The harness wrote this line for the test or for one of its subtests. */
  ghost predicate Framing(l: string, name: string) {
    exists test :: Frames(l, test) && AtOrBelow(test, name)
  }

  /** A line that may be a failure the parent reported itself. */
  ghost predicate OwnLine(l: string, name: string, kidOutputs: seq<string>) {
    && !BlankLine(l)
    && !Framing(l, name)
    && forall k :: 0 <= k < |kidOutputs| ==> l !in Split(kidOutputs[k], '\n')
  }

  ghost predicate FirstOwn(lines: seq<string>, own: string, name: string, kidOutputs: seq<string>) {
    exists i :: 0 <= i < |lines| && lines[i] == own && OwnLine(own, name, kidOutputs)
             && forall k :: 0 <= k < i ==> !OwnLine(lines[k], name, kidOutputs)
  }

  /** framingRE on a line: the name it captures, empty when it does not match. */
  method FramedName(l: string) returns (name: string)
    ensures name != "" ==> Frames(l, name)
    ensures forall test :: Frames(l, test) ==> test == name
  {
    var s := Unindented(l);
    for k := 0 to |FRAMES|
      invariant forall j :: 0 <= j < k ==> Captured(s, j) == ""
    {
      name := Captured(s, k);
      if name != "" {
        OneCapture(s, k);
        return;
      }
    }
    name := "";
  }

  lemma OneCapture(s: string, k: nat)
    requires k < |FRAMES| && Captured(s, k) != ""
    ensures forall j :: 0 <= j < |FRAMES| && Captured(s, j) != "" ==> j == k
  {
    forall j | 0 <= j < |FRAMES| && Captured(s, j) != "" ensures j == k {
      OneFrame(s, j, k);
    }
  }

  /** No frame is the start of another, so a line has at most one. */
  lemma OneFrame(s: string, j: nat, k: nat)
    requires FrameAt(s, j) && FrameAt(s, k)
    ensures j == k
  {
    FrameHead(j);
    FrameHead(k);
    assert FRAMES[j][0] == s[0] == FRAMES[k][0];
    assert FRAMES[j][4] == s[4] == FRAMES[k][4];
  }

  lemma FrameHead(k: nat)
    requires k < |FRAMES|
    ensures |FRAMES[k]| > 4
    ensures FRAMES[k][0] == (if k < 4 then '=' else '-') && FRAMES[k][4] == "RPCNPFS"[k]
  {
  }

  // ----- the framing pattern in one piece -----

  /** The seven words the harness starts a line with. */
  predicate FrameWord(f: string) {
    || f == "=== RUN" || f == "=== PAUSE" || f == "=== CONT" || f == "=== NAME"
    || f == "--- PASS:" || f == "--- FAIL:" || f == "--- SKIP:"
  }

  predicate Blanks(s: string) {
    forall i :: 0 <= i < |s| ==> s[i] in "\t\n\U{0C}\r "
  }

  predicate NoBlank(s: string) {
    forall i :: 0 <= i < |s| ==> s[i] !in "\t\n\U{0C}\r "
  }

  /** Blanks, a frame word, at least one blank, and the whole word after it. */
  predicate FrameParts(l: string, indent: string, frame: string, gap: string, name: string, rest: string) {
    && l == indent + (frame + (gap + (name + rest))) && Blanks(indent) && FrameWord(frame)
    && gap != "" && Blanks(gap) && name != "" && NoBlank(name) && (rest == "" || rest[0] in "\t\n\U{0C}\r ")
  }

  ghost predicate FrameLine(l: string, name: string) {
    exists indent, frame, gap, rest :: FrameParts(l, indent, frame, gap, name, rest)
  }

  lemma BlankChars(c: char)
    ensures PatternSpace(c) <==> c in "\t\n\U{0C}\r "
  {
  }

  lemma FrameWords(k: nat)
    requires k < |FRAMES|
    ensures FrameWord(FRAMES[k])
  {
  }

  lemma FrameIndex(f: string) returns (k: nat)
    requires FrameWord(f)
    ensures k < |FRAMES| && FRAMES[k] == f
  {
    k := if f == "=== RUN" then 0 else if f == "=== PAUSE" then 1 else if f == "=== CONT" then 2
         else if f == "=== NAME" then 3 else if f == "--- PASS:" then 4 else if f == "--- FAIL:" then 5 else 6;
  }

  lemma LeadingIs(a: string, b: string, space: bool)
    requires forall i :: 0 <= i < |a| ==> PatternSpace(a[i]) == space
    requires b == "" || PatternSpace(b[0]) != space
    ensures Leading(a + b, space) == |a| && (a + b)[..|a|] == a && (a + b)[|a|..] == b
  {
    var s, n := a + b, Leading(a + b, space);
    assert |a| < |s| ==> s[|a|] == b[0];
  }

  lemma NameIs(gap: string, name: string, rest: string)
    requires gap != "" && Blanks(gap) && name != "" && NoBlank(name) && (rest == "" || rest[0] in "\t\n\U{0C}\r ")
    ensures NameAfter(gap + (name + rest)) == name
  {
    LeadingIs(gap, name + rest, true);
    LeadingIs(name, rest, false);
  }

  lemma PartsFrame(l: string, indent: string, frame: string, gap: string, name: string, rest: string)
    requires FrameParts(l, indent, frame, gap, name, rest)
    ensures Frames(l, name)
  {
    var more := gap + (name + rest);
    var k := FrameIndex(frame);
    FrameHead(k);
    LeadingIs(indent, frame + more, true);
    assert FRAMES[k] <= frame + more && (frame + more)[|frame|..] == more;
    NameIs(gap, name, rest);
    assert Captured(Unindented(l), k) == name;
  }

  lemma LeadingParts(s: string)
    ensures Blanks(s[..Leading(s, true)]) && NoBlank(s[..Leading(s, false)])
    ensures Leading(s, false) == |s| || s[Leading(s, false)] in "\t\n\U{0C}\r "
  {
    forall i | 0 <= i < |s| ensures PatternSpace(s[i]) <==> s[i] in "\t\n\U{0C}\r " {
      BlankChars(s[i]);
    }
  }

  lemma NameHasParts(t: string) returns (gap: string, rest: string)
    requires NameAfter(t) != ""
    ensures t == gap + (NameAfter(t) + rest) && gap != "" && Blanks(gap) && NoBlank(NameAfter(t))
    ensures rest == "" || rest[0] in "\t\n\U{0C}\r "
  {
    var n := Leading(t, true);
    var u := t[n..];
    LeadingParts(t);
    LeadingParts(u);
    gap, rest := t[..n], u[Leading(u, false)..];
  }

  lemma Rejoined(l: string, i: nat, frame: string)
    requires i <= |l| && frame <= l[i..]
    ensures l == l[..i] + (frame + l[i..][|frame|..])
  {
  }

  lemma FrameHasParts(l: string, frame: string, name: string)
    requires FrameWord(frame) && frame <= Unindented(l) && name != "" && NameAfter(Unindented(l)[|frame|..]) == name
    ensures FrameLine(l, name)
  {
    var i := Leading(l, true);
    LeadingParts(l);
    Rejoined(l, i, frame);
    var gap, rest := NameHasParts(l[i..][|frame|..]);
    assert FrameParts(l, l[..i], frame, gap, name, rest);
  }

  /** The line matches the framing pattern with this name exactly when it has these parts. */
  lemma FramesExactly(l: string, name: string)
    ensures Frames(l, name) <==> FrameLine(l, name)
  {
    if Frames(l, name) {
      var k :| 0 <= k < |FRAMES| && Captured(Unindented(l), k) == name;
      FrameWords(k);
      FrameHasParts(l, FRAMES[k], name);
    }
    if FrameLine(l, name) {
      var indent, frame, gap, rest :| FrameParts(l, indent, frame, gap, name, rest);
      PartsFrame(l, indent, frame, gap, name, rest);
    }
  }

  /** The white space characters, one by one. */
  lemma SpaceListed(c: char)
    ensures Space(c) <==>
            c in "\t\n\U{0B}\U{0C}\r \U{85}\U{A0}\U{1680}\U{2000}\U{2001}\U{2002}\U{2003}\U{2004}\U{2005}\U{2006}\U{2007}\U{2008}\U{2009}\U{200A}\U{2028}\U{2029}\U{202F}\U{205F}\U{3000}"
  {
    var all := "\t\n\U{0B}\U{0C}\r \U{85}\U{A0}\U{1680}\U{2000}\U{2001}\U{2002}\U{2003}\U{2004}\U{2005}\U{2006}\U{2007}\U{2008}\U{2009}\U{200A}\U{2028}\U{2029}\U{202F}\U{205F}\U{3000}";
    if '\t' <= c <= '\r' {
      assert c == all[c as int - 9];
    } else if '\U{2000}' <= c <= '\U{200A}' {
      assert c == all[9 + c as int - 0x2000];
    }
  }

  /** ownFailure as written: the first line of the parent's own output that is not accounted for. */
  method OwnFailure(name: string, output: string, kidOutputs: seq<string>) returns (own: string)
    ensures own != "" ==> FirstOwn(Split(output, '\n'), own, name, kidOutputs)
    ensures own == "" <==> forall l :: l in Split(output, '\n') ==> !OwnLine(l, name, kidOutputs)
  {
    var kidLines: set<string> := {};
    for k := 0 to |kidOutputs|
      invariant forall l :: l in kidLines <==> exists j :: 0 <= j < k && l in Split(kidOutputs[j], '\n')
    {
      var ls := Split(kidOutputs[k], '\n');
      kidLines := kidLines + set l | l in ls;
    }
    var lines := Split(output, '\n');
    for i := 0 to |lines|
      invariant forall j :: 0 <= j < i ==> !OwnLine(lines[j], name, kidOutputs)
    {
      var l := lines[i];
      if BlankLine(l) || l in kidLines {
        continue;
      }
      var test := FramedName(l);
      if test != "" && (test == name || name + "/" <= test) {
        continue;
      }
      return l;
    }
    own := "";
  }
}
