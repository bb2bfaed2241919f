/** Which fault a set of paths is refused for, over every order of the list: acceptance does not depend on
the order, the fault can. */
module PathOrder {
  import opened Vocabulary
  import opened Paths
  import opened PathSets
  import Sequences

  predicate Reorders(order: seq<string>, paths: seq<string>) {
    multiset(order) == multiset(paths)
  }

  /** A fault that some order of the paths is refused for. */
  ghost predicate Candidate(paths: seq<string>, fault: SetFault) {
    match fault
    case TooMany => |paths| > 4096
    case Invalid(f) => exists p :: p in paths && FirstBroken(p, f)
    case Duplicate => exists p :: p in paths && ValidPath(p) && multiset(paths)[p] >= 2
    case CaseCollision =>
      exists p, q :: p in paths && q in paths && p != q && ValidPath(p) && ValidPath(q) && Fold(p) == Fold(q)
    case FileAndDirectory => Blames(paths, FileAndDirectory)
  }

  lemma SameMembers(order: seq<string>, paths: seq<string>)
    requires Reorders(order, paths)
    ensures |order| == |paths| && forall p :: p in order <==> p in paths
  {
    assert |order| == |multiset(order)| == |multiset(paths)| == |paths|;
    forall p ensures p in order <==> p in paths {
      assert p in order <==> p in multiset(order);
      assert p in paths <==> p in multiset(paths);
    }
  }

  /** Good lists without a clash are good in every order, clash or no clash of directories. */
  lemma GoodInAnyOrder(order: seq<string>, paths: seq<string>)
    requires Reorders(order, paths) && GoodBefore(paths, |paths|)
    ensures GoodBefore(order, |order|)
  {
    SameMembers(order, paths);
    assert paths[..|paths|] == paths && order[..|order|] == order;
    DistinctInAnyOrder(paths, order);
  }

  /** Every order is refused for a candidate. */
  lemma BlamedIsCandidate(order: seq<string>, paths: seq<string>, fault: SetFault)
    requires Reorders(order, paths) && Blames(order, fault)
    ensures Candidate(paths, fault)
  {
    SameMembers(order, paths);
    match fault
    case TooMany =>
    case FileAndDirectory => GoodInAnyOrder(paths, order);
    case Invalid(f) =>
      var n: nat :| GoodBefore(order, n) && Culprit(order, n, fault);
      assert order[n] in paths;
    case Duplicate =>
      var n: nat :| GoodBefore(order, n) && Culprit(order, n, fault);
      var i :| 0 <= i < n && order[i] == order[n];
      TwiceIn(order, i, n);
      assert order[n] in paths;
    case CaseCollision =>
      var n: nat :| GoodBefore(order, n) && Culprit(order, n, fault);
      var i :| 0 <= i < n && Fold(order[i]) == Fold(order[n]);
      assert order[i] in order[..n] && order[i] in paths && order[n] in paths;
  }

  lemma ToFront(paths: seq<string>, p: string) returns (rest: seq<string>)
    requires p in paths
    ensures multiset([p] + rest) == multiset(paths)
  {
    var k :| 0 <= k < |paths| && paths[k] == p;
    Sequences.SplitAt(paths, k);
    rest := paths[..k] + paths[k + 1..];
  }

  lemma BothToFront(paths: seq<string>, p: string, q: string) returns (order: seq<string>)
    requires p in paths && (multiset(paths) - multiset{p})[q] > 0
    ensures Reorders(order, paths) && |order| >= 2 && order[0] == p && order[1] == q
  {
    var rest := ToFront(paths, p);
    assert multiset(rest) == multiset(paths) - multiset{p};
    assert q in multiset(rest);
    var last := ToFront(rest, q);
    order := [p] + ([q] + last);
  }

  /** A valid path in front of the offender. */
  lemma SecondBlamed(order: seq<string>, fault: SetFault)
    requires |order| >= 2 && ValidPath(order[0]) && Culprit(order, 1, fault)
    requires fault == Duplicate || fault == CaseCollision
    ensures Blames(order, fault)
  {
    assert order[..1] == [order[0]];
    assert GoodBefore(order, 1);
  }

  /** Every candidate is what some order is refused for. */
  lemma CandidateIsBlamed(paths: seq<string>, fault: SetFault) returns (order: seq<string>)
    requires Candidate(paths, fault)
    ensures Reorders(order, paths) && Blames(order, fault)
  {
    match fault
    case TooMany => order := paths;
    case FileAndDirectory => order := paths;
    case Invalid(f) =>
      var p :| p in paths && FirstBroken(p, f);
      var rest := ToFront(paths, p);
      order := [p] + rest;
      assert order[..0] == [] && GoodBefore(order, 0) && Culprit(order, 0, fault);
    case Duplicate =>
      var p :| p in paths && ValidPath(p) && multiset(paths)[p] >= 2;
      order := BothToFront(paths, p, p);
      assert order[..1] == [p];
      SecondBlamed(order, fault);
    case CaseCollision =>
      var p, q :| p in paths && q in paths && p != q && ValidPath(p) && ValidPath(q) && Fold(p) == Fold(q);
      order := BothToFront(paths, p, q);
      assert order[..1] == [p];
      SecondBlamed(order, fault);
  }

  /** The faults reported over all orders of a list are exactly its candidates. */
  lemma FaultsOverOrders(paths: seq<string>, fault: SetFault)
    requires |paths| <= 4096
    ensures (exists order :: Reorders(order, paths) && Reports(order, Some(fault))) <==> Candidate(paths, fault)
  {
    if order :| Reorders(order, paths) && Reports(order, Some(fault)) {
      BlamedIsCandidate(order, paths, fault);
    }
    if Candidate(paths, fault) {
      var order := CandidateIsBlamed(paths, fault);
      SameMembers(order, paths);
      BlamedIsNotGood(order, fault);
      assert Reports(order, Some(fault));
    }
  }

  lemma BlamedIsNotGood(paths: seq<string>, fault: SetFault)
    requires Blames(paths, fault)
    ensures !GoodSet(paths)
  {
    match fault
    case TooMany =>
    case FileAndDirectory =>
    case Invalid(f) =>
      var n: nat :| GoodBefore(paths, n) && Culprit(paths, n, fault);
      assert paths[n] in paths && Breaks(paths[n], f);
    case Duplicate =>
      var n: nat :| GoodBefore(paths, n) && Culprit(paths, n, fault);
      var i :| 0 <= i < n && paths[i] == paths[n];
      assert Name(paths[i]) == Name(paths[n]);
    case CaseCollision =>
      var n: nat :| GoodBefore(paths, n) && Culprit(paths, n, fault);
      var i :| 0 <= i < n && Fold(paths[i]) == Fold(paths[n]);
      assert Name(paths[i]) == Name(paths[n]);
  }

  ghost predicate SameInEveryOrder(paths: seq<string>) {
    forall a, b, f, g :: Reorders(a, paths) && Reorders(b, paths) && Reports(a, f) && Reports(b, g) ==> f == g
  }

  /** Every order gets the same verdict exactly when there is at most one candidate. */
  lemma SameFaultExactly(paths: seq<string>)
    requires |paths| <= 4096
    ensures SameInEveryOrder(paths) <==> forall f, g :: Candidate(paths, f) && Candidate(paths, g) ==> f == g
  {
    if SameInEveryOrder(paths) {
      forall f, g | Candidate(paths, f) && Candidate(paths, g) ensures f == g {
        FaultsOverOrders(paths, f);
        FaultsOverOrders(paths, g);
      }
    }
    if forall f, g :: Candidate(paths, f) && Candidate(paths, g) ==> f == g {
      forall a, b, f, g | Reorders(a, paths) && Reorders(b, paths) && Reports(a, f) && Reports(b, g) ensures f == g {
        OrderDoesNotMatter(a, b);
        if f.Some? && g.Some? {
          BlamedIsCandidate(a, paths, f.value);
          BlamedIsCandidate(b, paths, g.value);
        }
      }
    }
  }

  /** One set, two orders, two faults. */
  lemma TwoOrdersTwoFaults()
    ensures Reorders(["", "/"], ["/", ""])
    ensures Reports(["/", ""], Some(Invalid(Absolute))) && Reports(["", "/"], Some(Invalid(Empty)))
  {
    var a, b := ["/", ""], ["", "/"];
    assert FirstBroken("/", Absolute) && FirstBroken("", Empty);
    assert a[..0] == [] && GoodBefore(a, 0) && Culprit(a, 0, Invalid(Absolute));
    assert b[..0] == [] && GoodBefore(b, 0) && Culprit(b, 0, Invalid(Empty));
    BlamedIsNotGood(a, Invalid(Absolute));
    BlamedIsNotGood(b, Invalid(Empty));
  }
}
