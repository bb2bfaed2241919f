/** The test ids a registry entry may name (splitTestID). */
module TestIDs {
  import opened Splitting
  import opened TestOutput

  predicate Word(c: char) {
    'A' <= c <= 'Z' || 'a' <= c <= 'z' || '0' <= c <= '9' || c == '_'
  }

  predicate PathChar(c: char) {
    'A' <= c <= 'Z' || 'a' <= c <= 'z' || '0' <= c <= '9' || c == '.' || c == '_' || c == '~' || c == '-'
  }

  /** Non-empty segments of path characters, joined by "/". */
  predicate ImportPath(s: string) {
    var segs := Split(s, '/');
    forall i :: 0 <= i < |segs| ==> segs[i] != "" && forall k :: 0 <= k < |segs[i]| ==> PathChar(segs[i][k])
  }

  predicate Words(s: string) {
    forall i :: 0 <= i < |s| ==> Word(s[i])
  }

  predicate GoName(s: string) {
    Words(s) && ("Test" <= s || "Example" <= s || "Fuzz" <= s)
  }

  predicate NoSpace(s: string) {
    s != "" && forall i :: 0 <= i < |s| ==> !PatternSpace(s[i])
  }

  predicate SubtestPath(s: string) {
    s == "" || (s[0] == '/' && NoSpace(s[1..]))
  }

  predicate GoParts(id: string, pkg: string, name: string, sub: string) {
    id == pkg + "::" + name + sub && ImportPath(pkg) && GoName(name) && SubtestPath(sub)
  }

  ghost predicate GoID(id: string) {
    exists pkg, name, sub :: GoParts(id, pkg, name, sub)
  }

  predicate Identifier(s: string) {
    s != "" && Words(s) && !('0' <= s[0] <= '9')
  }

  ghost predicate SwiftID(id: string) {
    && !Contains(id, "::")
    && exists target, suite, test ::
         id == target + "/" + suite + "/" + test && Identifier(target) && Identifier(suite) && NoSpace(test)
  }

  ghost predicate TestID(id: string) {
    GoID(id) || SwiftID(id)
  }

  lemma PathNotEmpty(s: string)
    requires ImportPath(s)
    ensures s != ""
  {
    assert Split("", '/')[0] == "";
  }

  lemma NoColonInPath(s: string)
    requires ImportPath(s)
    ensures ':' !in s
  {
    JoinOfSplit(s, '/');
    NoColonInJoin(Split(s, '/'));
  }

  lemma {:induction false} NoColonInJoin(segs: seq<string>)
    requires |segs| > 0 && forall i :: 0 <= i < |segs| ==> ':' !in segs[i]
    ensures ':' !in Join(segs, '/')
  {
    if |segs| > 1 {
      NoColonInJoin(segs[1..]);
    }
  }

  /** A path that is itself a test id with a subtest path, which may be empty so far. */
  predicate FiledUnder(p: string, pkg: string, name: string, sub: string) {
    p == pkg + "::" + name + "/" + sub && ImportPath(pkg) && GoName(name)
    && forall i :: 0 <= i < |sub| ==> !PatternSpace(sub[i])
  }

  ghost predicate Fileable(p: string) {
    exists pkg, name, sub :: FiledUnder(p, pkg, name, sub)
  }

  /** Where the pattern cuts an id that continues a path p with "::(": inside p, after a whole test name. */
  lemma CutInside(p: string, rest: string, pkg: string, name: string, sub: string)
    requires rest != "" && rest[0] == '(' && GoParts(p + "::" + rest, pkg, name, sub)
    ensures |pkg| + 2 + |name| < |p| && sub != ""
  {
    var id := p + "::" + rest;
    NoColonInPath(pkg);
    GoInitial(name);
    assert id == pkg + "::" + name + sub;
    assert id[|p|] == ':' && id[|p| + 1] == ':' && id[|p| + 2] == '(';
    assert forall k :: 0 <= k < |pkg| ==> id[k] == pkg[k];
    assert forall k :: 0 <= k < |name| ==> id[|pkg| + 2 + k] == name[k];
    assert |p| >= |pkg|;
    assert name[0] == id[|pkg| + 2];
    assert forall k :: 0 <= k < |name| ==> Word(name[k]);
    assert sub != "" ==> id[|pkg| + 2 + |name|] == sub[0];
  }

  /** Only below such a path can an id be filed that continues it with "::(". */
  lemma OnlyFileable(p: string, rest: string)
    requires rest != "" && rest[0] == '(' && TestID(p + "::" + rest)
    ensures Fileable(p)
  {
    var id := p + "::" + rest;
    assert At(id, |p|, "::");
    var pkg, name, sub :| GoParts(id, pkg, name, sub);
    CutInside(p, rest, pkg, name, sub);
    var n := |pkg| + 3 + |name|;
    assert id == pkg + "::" + name + sub && sub[0] == '/';
    assert id[..n] == pkg + "::" + name + "/";
    assert p == id[..|p|] == id[..n] + id[n..|p|];
    assert forall k :: n <= k < |p| ==> id[k] == sub[1..][k - n];
    assert FiledUnder(p, pkg, name, id[n..|p|]);
  }

  /** Below every such path one can. */
  lemma FileableHasID(p: string, what: string)
    requires Fileable(p) && NoSpace(what)
    ensures TestID(p + "::" + what + "/x")
  {
    var pkg, name, sub :| FiledUnder(p, pkg, name, sub);
    FiledID(p, pkg, name, sub, what);
  }

  lemma FiledID(p: string, pkg: string, name: string, sub: string, what: string)
    requires FiledUnder(p, pkg, name, sub) && NoSpace(what)
    ensures GoParts(p + "::" + what + "/x", pkg, name, "/" + (sub + "::" + what + "/x"))
  {
    var more := sub + "::" + what + "/x";
    assert p + "::" + what + "/x" == pkg + "::" + name + ("/" + more);
    assert ("/" + more)[1..] == more;
  }

  /** A path admits an id below one of its failures outside any test exactly when it is fileable. */
  lemma FileableExactly(p: string, what: string)
    requires NoSpace(what) && what[0] == '('
    ensures Fileable(p) <==> exists id :: TestID(id) && p + "::" + what + "/" <= id
  {
    if Fileable(p) {
      FileableHasID(p, what);
      assert p + "::" + what + "/" <= p + "::" + what + "/x";
    }
    if id :| TestID(id) && p + "::" + what + "/" <= id {
      var rest := id[|p| + 2..];
      assert id == p + "::" + rest && rest[0] == what[0];
      OnlyFileable(p, rest);
    }
  }

  /** In particular no path without "::" does. */
  lemma FileableHasColons(p: string)
    requires Fileable(p)
    ensures Contains(p, "::")
  {
    var pkg, name, sub :| FiledUnder(p, pkg, name, sub);
    assert At(p, |pkg|, "::");
  }

  lemma GoInitial(name: string)
    requires GoName(name)
    ensures name != "" && name[0] != '('
  {
  }
}
