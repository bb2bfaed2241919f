/** The set of paths of one artifact: no duplicate, no collision under case folding, and no name that
is a file of one path and a directory of another. */
module PathSets {
  import opened Paths
  import opened Splitting
  import opened Vocabulary

  const MAX_PATHS := 4096

  datatype SetFault =
    | TooMany
    | Invalid(fault: Fault)
    | Duplicate
    | CaseCollision
    | FileAndDirectory

  /** A case-insensitive volume knows a path by its folded components. */
  function Name(p: string): seq<string> {
    Components(Fold(p))
  }

  /** On such a volume the first path is a directory on the way to the second. */
  predicate DirectoryOf(a: string, b: string) {
    Name(a) < Name(b)
  }

  /** The rule: few enough paths, each valid, no two with one name, none a directory of another. */
  ghost predicate GoodSet(paths: seq<string>) {
    && |paths| <= 4096
    && (forall p :: p in paths ==> ValidPath(p))
    && DistinctNames(paths)
    && (forall a, b :: a in paths && b in paths ==> !DirectoryOf(a, b))
  }

  predicate DistinctNames(paths: seq<string>) {
    forall i, j :: 0 <= i < j < |paths| ==> Name(paths[i]) != Name(paths[j])
  }

  ghost predicate GoodBefore(paths: seq<string>, n: nat) {
    n <= |paths| && DistinctNames(paths[..n]) && forall p :: p in paths[..n] ==> ValidPath(p)
  }

  ghost predicate Culprit(paths: seq<string>, n: nat, fault: SetFault) {
    && n < |paths|
    && match fault
       case Invalid(f) => FirstBroken(paths[n], f)
       case Duplicate => ValidPath(paths[n]) && paths[n] in paths[..n]
       case CaseCollision =>
         && ValidPath(paths[n]) && paths[n] !in paths[..n]
         && exists i :: 0 <= i < n && Fold(paths[i]) == Fold(paths[n])
       case _ => false
  }

  /** What each fault says of the paths: the first offender in the list, or a clash among good paths. */
  ghost predicate Blames(paths: seq<string>, fault: SetFault) {
    match fault
    case TooMany => |paths| > 4096
    case FileAndDirectory => GoodBefore(paths, |paths|) && exists a, b :: a in paths && b in paths && DirectoryOf(a, b)
    case _ => exists n: nat :: GoodBefore(paths, n) && Culprit(paths, n, fault)
  }

  /** The verdict on a list: accepted exactly when good, refused for its size first, else for the fault. */
  ghost predicate Reports(paths: seq<string>, fault: Option<SetFault>) {
    && (fault.None? <==> GoodSet(paths))
    && (fault == Some(TooMany) <==> |paths| > 4096)
    && (fault.Some? ==> Blames(paths, fault.value))
  }

  // ----- names against folded strings -----

  lemma SameName(a: string, b: string)
    ensures Name(a) == Name(b) <==> Fold(a) == Fold(b)
  {
    JoinOfSplit(Fold(a), '/');
    JoinOfSplit(Fold(b), '/');
  }

  /** Being a proper prefix by components is being a prefix that ends at a separator. */
  lemma DirectoryPrefix(a: string, b: string)
    ensures DirectoryOf(a, b) <==> exists i :: 0 <= i < |b| && Fold(b)[i] == '/' && Fold(b)[..i] == Fold(a)
  {
    var f, g := Fold(a), Fold(b);
    if DirectoryOf(a, b) {
      var rest := Components(g)[|Components(f)|..];
      assert Components(g) == Components(f) + rest;
      JoinOfSplit(f, '/');
      JoinOfSplit(g, '/');
      JoinOfConcat(Components(f), rest, '/');
      assert g == f + "/" + Join(rest, '/');
      assert g[..|f|] == f && g[|f|] == '/';
    }
    if i :| 0 <= i < |b| && g[i] == '/' && g[..i] == f {
      assert g == f + "/" + g[i + 1..];
      SplitAtSeparator(f, g[i + 1..], '/');
    }
  }

  /** ValidatePathSet as written, with its two maps. */
  method ValidatePathSet(paths: seq<string>) returns (fault: Option<SetFault>)
    ensures Reports(paths, fault)
  {
    if |paths| > MAX_PATHS {
      return Some(TooMany);
    }
    var folded;
    fault, folded := CheckEach(paths);
    if fault.Some? {
      return;
    }
    var a, b, clash := CheckDirectories(paths, folded);
    if clash {
      assert paths[..|paths|] == paths;
      assert a in paths && b in paths && DirectoryOf(a, b);
      return Some(FileAndDirectory);
    }
  }

  /** The folded map holds every path under its folded name and nothing else. */
  ghost predicate Indexes(folded: map<string, string>, paths: seq<string>) {
    && (forall p :: p in paths ==> Fold(p) in folded)
    && (forall f :: f in folded ==> folded[f] in paths && Fold(folded[f]) == f)
  }

  lemma DistinctNamesSnoc(paths: seq<string>, p: string)
    requires DistinctNames(paths) && forall q :: q in paths ==> Fold(q) != Fold(p)
    ensures DistinctNames(paths + [p])
  {
    forall i | 0 <= i < |paths| ensures Name(paths[i]) != Name(p) {
      SameName(paths[i], p);
    }
  }

  method CheckEach(paths: seq<string>) returns (fault: Option<SetFault>, folded: map<string, string>)
    ensures fault.None? ==> Indexes(folded, paths)
    ensures fault.None? <==> && (forall p :: p in paths ==> ValidPath(p))
                             && DistinctNames(paths)
    ensures fault.Some? ==> fault.value != TooMany && Blames(paths, fault.value)
  {
    var exact: set<string> := {};
    folded := map[];
    for n := 0 to |paths|
      invariant Indexes(folded, paths[..n])
      invariant forall p :: p in exact <==> p in paths[..n]
      invariant forall p :: p in paths[..n] ==> ValidPath(p)
      invariant DistinctNames(paths[..n])
    {
      var p := paths[n];
      var invalid := ValidatePath(p);
      if invalid.Some? {
        assert GoodBefore(paths, n) && Culprit(paths, n, Invalid(invalid.value));
        assert p in paths && Breaks(p, invalid.value);
        return Some(Invalid(invalid.value)), folded;
      }
      if p in exact {
        assert exists i :: 0 <= i < n && paths[i] == paths[n];
        assert !DistinctNames(paths);
        assert GoodBefore(paths, n) && Culprit(paths, n, Duplicate);
        return Some(Duplicate), folded;
      }
      exact := exact + {p};
      var f := Fold(p);
      if f in folded {
        ghost var i :| 0 <= i < n && paths[i] == folded[f];
        assert Name(paths[i]) == Name(paths[n]);
        assert GoodBefore(paths, n) && Culprit(paths, n, CaseCollision);
        return Some(CaseCollision), folded;
      }
      folded := folded[f := p];
      assert paths[..n + 1] == paths[..n] + [p];
      DistinctNamesSnoc(paths[..n], p);
    }
    assert paths[..|paths|] == paths;
    fault := None;
  }

  method CheckDirectories(paths: seq<string>, folded: map<string, string>) returns (a: string, b: string, clash: bool)
    requires Indexes(folded, paths)
    ensures clash ==> a in paths && b in paths && DirectoryOf(a, b)
    ensures !clash ==> forall x, y :: x in paths && y in paths ==> !DirectoryOf(x, y)
  {
    for n := 0 to |paths|
      invariant forall x, j :: x in paths && 0 <= j < n ==> !DirectoryOf(x, paths[j])
    {
      var p := paths[n];
      var f := Fold(p);
      for i := 0 to |f|
        invariant forall k :: 0 <= k < i && f[k] == '/' ==> f[..k] !in folded
      {
        if f[i] != '/' {
          continue;
        }
        if f[..i] in folded {
          DirectoryPrefix(folded[f[..i]], p);
          return folded[f[..i]], p, true;
        }
      }
      forall x | x in paths ensures !DirectoryOf(x, p) {
        DirectoryPrefix(x, p);
      }
    }
    return "", "", false;
  }

  // ----- what the rule means -----

  /** The documented promise: the order of the paths does not matter to acceptance. */
  lemma OrderDoesNotMatter(a: seq<string>, b: seq<string>)
    requires multiset(a) == multiset(b)
    ensures GoodSet(a) <==> GoodSet(b)
  {
    if GoodSet(a) {
      OneOrder(a, b);
    }
    if GoodSet(b) {
      OneOrder(b, a);
    }
  }

  lemma OneOrder(a: seq<string>, b: seq<string>)
    requires multiset(a) == multiset(b) && GoodSet(a)
    ensures GoodSet(b)
  {
    assert |multiset(a)| == |a| && |multiset(b)| == |b|;
    forall p | p in b ensures p in a {
      assert p in multiset(b);
      assert p in multiset(a);
    }
    DistinctInAnyOrder(a, b);
  }

  lemma DistinctInAnyOrder(a: seq<string>, b: seq<string>)
    requires multiset(a) == multiset(b)
    requires DistinctNames(a)
    ensures DistinctNames(b)
  {
    forall i, j | 0 <= i < j < |b| ensures Name(b[i]) != Name(b[j]) {
      if b[i] == b[j] {
        TwiceIn(b, i, j);
        OnceIn(a, b[i]);
      } else {
        assert b[i] in multiset(a) && b[j] in multiset(a) by {
          assert b[i] in multiset(b) && b[j] in multiset(b);
        }
        var k :| 0 <= k < |a| && a[k] == b[i];
        var l :| 0 <= l < |a| && a[l] == b[j];
        assert Name(a[if k < l then k else l]) != Name(a[if k < l then l else k]);
      }
    }
  }

  lemma TwiceIn(b: seq<string>, i: nat, j: nat)
    requires i < j < |b| && b[i] == b[j]
    ensures multiset(b)[b[i]] >= 2
  {
    assert b == b[..i] + [b[i]] + b[i + 1..j] + [b[j]] + b[j + 1..];
  }

  lemma {:induction false} OnceIn(a: seq<string>, p: string)
    requires DistinctNames(a)
    ensures multiset(a)[p] <= 1
  {
    if a != [] {
      assert a == [a[0]] + a[1..];
      assert forall k :: 0 <= k < |a[1..]| ==> a[1..][k] == a[k + 1];
      OnceIn(a[1..], p);
      assert a[0] !in a[1..];
    }
  }
}
