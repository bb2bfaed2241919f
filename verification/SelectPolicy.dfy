/** SelectPolicy: the policy that applies to a node, and the ones it wins over in precedence order. */
module SelectPolicy {
  import opened Vocabulary

  type Labels = map<string, string>

  datatype Policy = Policy(name: string, priority: int, selector: Labels)

  /** The order of byte strings. */
  predicate Less(a: string, b: string) {
    b != "" && (a == "" || a[0] < b[0] || (a[0] == b[0] && Less(a[1..], b[1..])))
  }

  /** Higher priority first, then the smaller name. */
  predicate Precedes(p: Policy, q: Policy) {
    if p.priority != q.priority then p.priority > q.priority else Less(p.name, q.name)
  }

  /** The smaller name at the first byte where they differ, or the shorter of two that do not. */
  ghost predicate NameBefore(a: string, b: string) {
    exists k :: 0 <= k <= |a| && k < |b| && a[..k] == b[..k] && (k == |a| || a[k] < b[k])
  }

  ghost predicate Beats(p: Policy, q: Policy) {
    p.priority > q.priority || (p.priority == q.priority && NameBefore(p.name, q.name))
  }

  predicate Selected(p: Policy, labels: Labels) {
    forall k :: k in p.selector ==> k in labels && labels[k] == p.selector[k]
  }

  /** The policies that select the node, in input order. */
  function Selecting(policies: seq<Policy>, labels: Labels): seq<Policy> {
    if policies == [] then []
    else
      var n := |policies| - 1;
      Selecting(policies[..n], labels) + if Selected(policies[n], labels) then [policies[n]] else []
  }

  lemma {:induction false} SelectingMembers(policies: seq<Policy>, labels: Labels, p: Policy)
    ensures p in Selecting(policies, labels) <==> p in policies && Selected(p, labels)
  {
    if policies != [] {
      SelectingMembers(policies[..|policies| - 1], labels, p);
    }
  }

  /** No policy stands behind one it precedes. */
  predicate InPrecedence(s: seq<Policy>) {
    forall i, j :: 0 <= i < j < |s| ==> !Precedes(s[j], s[i])
  }

  ghost predicate Ranked(s: seq<Policy>) {
    forall i, j :: 0 <= i < j < |s| ==> !Beats(s[j], s[i])
  }

  predicate Arranges(order: seq<Policy>, policies: seq<Policy>) {
    multiset(order) == multiset(policies) && InPrecedence(order)
  }

  function Names(s: seq<Policy>): (r: seq<string>)
    ensures |r| == |s| && forall i :: 0 <= i < |s| ==> r[i] == s[i].name
  {
    seq(|s|, i requires 0 <= i < |s| => s[i].name)
  }

  // ----- the order -----

  lemma {:induction false} NotLessTransitive(a: string, b: string, c: string)
    requires !Less(b, a) && !Less(c, b)
    ensures !Less(c, a)
    decreases a
  {
    if a != "" && c != "" && b != "" && a[0] == b[0] == c[0] {
      NotLessTransitive(a[1..], b[1..], c[1..]);
    }
  }

  lemma {:induction false} NotLessBothWays(a: string, b: string)
    requires !Less(a, b) && !Less(b, a)
    ensures a == b
    decreases a
  {
    if a != "" && b != "" {
      NotLessBothWays(a[1..], b[1..]);
      assert a == [a[0]] + a[1..] && b == [b[0]] + b[1..];
    }
  }

  lemma {:induction false} LessIsBefore(a: string, b: string)
    ensures Less(a, b) <==> NameBefore(a, b)
    decreases a
  {
    if b != "" && a == "" {
      assert a[..0] == b[..0];
    } else if b != "" && a[0] == b[0] {
      LessIsBefore(a[1..], b[1..]);
      if NameBefore(a[1..], b[1..]) {
        var k :| 0 <= k <= |a[1..]| && k < |b[1..]| && a[1..][..k] == b[1..][..k] && (k == |a[1..]| || a[1..][k] < b[1..][k]);
        assert a[..k + 1] == [a[0]] + a[1..][..k] && b[..k + 1] == [b[0]] + b[1..][..k];
      }
      if NameBefore(a, b) {
        var k :| 0 <= k <= |a| && k < |b| && a[..k] == b[..k] && (k == |a| || a[k] < b[k]);
        assert a[1..][..k - 1] == a[..k][1..] && b[1..][..k - 1] == b[..k][1..];
      }
    } else if b != "" {
      assert a[..0] == b[..0];
      forall k | 0 < k <= |a| && k < |b| ensures a[..k] != b[..k] {
        assert a[..k][0] != b[..k][0];
      }
    }
  }

  lemma PrecedesIsBeats(p: Policy, q: Policy)
    ensures Precedes(p, q) <==> Beats(p, q)
  {
    LessIsBefore(p.name, q.name);
  }

  lemma NotPrecedesTransitive(p: Policy, q: Policy, r: Policy)
    requires !Precedes(q, p) && !Precedes(r, q)
    ensures !Precedes(r, p)
  {
    if p.priority == q.priority == r.priority {
      NotLessTransitive(p.name, q.name, r.name);
    }
  }

  // ----- a stable sort by precedence -----

  function Insert(p: Policy, s: seq<Policy>): (r: seq<Policy>)
    ensures multiset(r) == multiset(s) + multiset{p}
  {
    if s == [] || !Precedes(s[0], p) then [p] + s
    else
      assert s == [s[0]] + s[1..];
      [s[0]] + Insert(p, s[1..])
  }

  function Sort(s: seq<Policy>): (r: seq<Policy>)
    ensures multiset(r) == multiset(s)
  {
    if s == [] then []
    else
      assert s == [s[0]] + s[1..];
      Insert(s[0], Sort(s[1..]))
  }

  lemma {:induction false} InsertKeepsOrder(p: Policy, s: seq<Policy>)
    requires InPrecedence(s)
    ensures InPrecedence(Insert(p, s))
  {
    if s == [] {
    } else if !Precedes(s[0], p) {
      forall j | 0 <= j < |s| ensures !Precedes(s[j], p) {
        if j > 0 {
          NotPrecedesTransitive(p, s[0], s[j]);
        }
      }
    } else {
      var t := Insert(p, s[1..]);
      InsertKeepsOrder(p, s[1..]);
      forall j | 0 <= j < |t| ensures !Precedes(t[j], s[0]) {
        AfterHead(p, s, t, j);
      }
    }
  }

  lemma AfterHead(p: Policy, s: seq<Policy>, t: seq<Policy>, j: nat)
    requires InPrecedence(s) && s != [] && Precedes(s[0], p)
    requires multiset(t) == multiset(s[1..]) + multiset{p} && j < |t|
    ensures !Precedes(t[j], s[0])
  {
    assert t[j] in multiset(t);
    if t[j] == p {
      Asymmetric(s[0], p);
    } else {
      assert t[j] in multiset(s[1..]);
      var k :| 0 <= k < |s[1..]| && s[1..][k] == t[j];
      assert s[k + 1] == t[j];
    }
  }

  lemma Asymmetric(p: Policy, q: Policy)
    requires Precedes(p, q)
    ensures !Precedes(q, p)
  {
    if p.priority == q.priority {
      LessAsymmetric(p.name, q.name);
    }
  }

  lemma {:induction false} LessAsymmetric(a: string, b: string)
    requires Less(a, b)
    ensures !Less(b, a)
    decreases a
  {
    if a != "" && a[0] == b[0] {
      LessAsymmetric(a[1..], b[1..]);
    }
  }

  lemma {:induction false} SortArranges(s: seq<Policy>)
    ensures Arranges(Sort(s), s)
  {
    if s != [] {
      SortArranges(s[1..]);
      InsertKeepsOrder(s[0], Sort(s[1..]));
    }
  }

  // ----- the operations -----

  method Selects(p: Policy, labels: Labels) returns (yes: bool)
    ensures yes <==> Selected(p, labels)
  {
    var rest := p.selector.Keys;
    while rest != {}
      invariant rest <= p.selector.Keys
      invariant forall k :: k in p.selector && k !in rest ==> k in labels && labels[k] == p.selector[k]
      decreases |rest|
    {
      var k :| k in rest;
      if k !in labels || labels[k] != p.selector[k] {
        return false;
      }
      rest := rest - {k};
    }
    yes := true;
  }

  /** SelectPolicy as written: filter, sort, first and the rest's names. */
  method SelectPolicy(policies: seq<Policy>, labels: Labels) returns (winner: Option<Policy>, losers: seq<string>)
    ensures winner.None? <==> forall p :: p in policies ==> !Selected(p, labels)
    ensures winner.None? ==> losers == []
    ensures winner.Some? ==> winner.value in policies && Selected(winner.value, labels)
    ensures winner.Some? ==> forall p :: p in policies && Selected(p, labels) ==> !Beats(p, winner.value)
    ensures winner.Some? ==> exists order: seq<Policy> ::
              && Arranges([winner.value] + order, Selecting(policies, labels)) && losers == Names(order)
              && Ranked([winner.value] + order)
  {
    var sel := Filter(policies, labels);
    forall p ensures p in sel <==> p in policies && Selected(p, labels) {
      SelectingMembers(policies, labels, p);
    }
    if sel == [] {
      return None, [];
    }
    var order := Sort(sel);
    SortArranges(sel);
    FirstIsBest(order, sel);
    losers := NamesOf(order[1..]);
    assert order == [order[0]] + order[1..];
    winner := Some(order[0]);
    OrderIsRanked(order);
    forall p | p in sel ensures !Beats(p, order[0]) {
      PrecedesIsBeats(p, order[0]);
    }
  }

  lemma OrderIsRanked(s: seq<Policy>)
    requires InPrecedence(s)
    ensures Ranked(s)
  {
    forall i, j | 0 <= i < j < |s| ensures !Beats(s[j], s[i]) {
      PrecedesIsBeats(s[j], s[i]);
    }
  }

  method NamesOf(order: seq<Policy>) returns (names: seq<string>)
    ensures names == Names(order)
  {
    names := [];
    for i := 0 to |order|
      invariant names == Names(order[..i])
    {
      names := names + [order[i].name];
    }
    assert order[..|order|] == order;
  }

  method Filter(policies: seq<Policy>, labels: Labels) returns (sel: seq<Policy>)
    ensures sel == Selecting(policies, labels)
  {
    sel := [];
    for i := 0 to |policies|
      invariant sel == Selecting(policies[..i], labels)
    {
      assert policies[..i + 1][..i] == policies[..i];
      var yes := Selects(policies[i], labels);
      if yes {
        sel := sel + [policies[i]];
      }
    }
    assert policies[..|policies|] == policies;
  }

  lemma FirstIsBest(order: seq<Policy>, sel: seq<Policy>)
    requires Arranges(order, sel) && sel != []
    ensures |order| == |sel| && order[0] in sel && forall p :: p in sel ==> !Precedes(p, order[0])
  {
    assert |multiset(order)| == |order| && |multiset(sel)| == |sel|;
    assert order[0] in multiset(order);
    forall p | p in sel ensures !Precedes(p, order[0]) {
      assert p in multiset(sel) && p in multiset(order);
      var k :| 0 <= k < |order| && order[k] == p;
      if k == 0 && Precedes(p, p) {
        Asymmetric(p, p);
      }
    }
  }

  // ----- the result does not depend on the order of the policies -----

  predicate UniqueNames(s: seq<Policy>) {
    forall p, q :: p in s && q in s && p.name == q.name ==> p == q
  }

  /** Policies with unique names have one arrangement. */
  lemma {:induction false} OneArrangement(a: seq<Policy>, b: seq<Policy>)
    requires Arranges(a, b) && InPrecedence(b) && UniqueNames(b)
    ensures a == b
  {
    assert |a| == |multiset(a)| == |multiset(b)| == |b|;
    if a != [] {
      SameFirst(a, b);
      DropFirst(a);
      DropFirst(b);
      OneArrangement(a[1..], b[1..]);
      assert a == [a[0]] + a[1..] && b == [b[0]] + b[1..];
    }
  }

  lemma SameFirst(a: seq<Policy>, b: seq<Policy>)
    requires Arranges(a, b) && InPrecedence(b) && UniqueNames(b) && a != [] && b != []
    ensures a[0] == b[0]
  {
    FirstIsBest(a, b);
    FirstIsBest(b, b);
    NotLessBothWays(a[0].name, b[0].name);
  }

  lemma DropFirst(a: seq<Policy>)
    requires InPrecedence(a) && a != []
    ensures InPrecedence(a[1..]) && multiset(a[1..]) == multiset(a) - multiset{a[0]}
    ensures UniqueNames(a) ==> UniqueNames(a[1..])
  {
    assert a == [a[0]] + a[1..];
    assert forall p :: p in a[1..] ==> p in a;
  }

  lemma {:induction false} SelectingCounts(policies: seq<Policy>, labels: Labels, p: Policy)
    ensures multiset(Selecting(policies, labels))[p] == if Selected(p, labels) then multiset(policies)[p] else 0
  {
    if policies != [] {
      var n := |policies| - 1;
      SelectingCounts(policies[..n], labels, p);
      assert policies == policies[..n] + [policies[n]];
    }
  }

  /** However the policies are listed, the node gets the same policy and the same list of losers. */
  lemma ListingDoesNotMatter(x: seq<Policy>, y: seq<Policy>, labels: Labels, a: seq<Policy>, b: seq<Policy>)
    requires multiset(x) == multiset(y) && UniqueNames(x)
    requires Arranges(a, Selecting(x, labels)) && Arranges(b, Selecting(y, labels))
    ensures a == b
  {
    forall p ensures multiset(Selecting(x, labels))[p] == multiset(Selecting(y, labels))[p] {
      SelectingCounts(x, labels, p);
      SelectingCounts(y, labels, p);
    }
    assert multiset(Selecting(x, labels)) == multiset(Selecting(y, labels));
    forall p | p in b ensures p in x {
      assert p in multiset(b) && p in multiset(Selecting(x, labels));
      SelectingMembers(x, labels, p);
    }
    OneArrangement(a, b);
  }
}
