/** checkDuplicateKeys: an explicit-stack walk over the tokens of one JSON value that refuses an object
naming a key twice (unique names, section 4 of RFC 8259). */
module DuplicateKeys {
  datatype Json =
    | Scalar
    | Str(s: string)
    | Arr(items: seq<Json>)
    | Obj(members: seq<Member>)

  datatype Member = Member(key: string, value: Json)

  datatype Token = LeftBrace | RightBrace | LeftBracket | RightBracket | Text(s: string) | Atom

  // ----- the token stream of a value -----

  function Tokens(v: Json): seq<Token>
    decreases v, 0
  {
    match v
    case Scalar => [Atom]
    case Str(s) => [Text(s)]
    case Arr(items) => [LeftBracket] + ItemTokens(items) + [RightBracket]
    case Obj(members) => [LeftBrace] + MemberTokens(members) + [RightBrace]
  }

  function ItemTokens(items: seq<Json>): seq<Token>
    decreases items
  {
    if items == [] then [] else Tokens(items[0]) + ItemTokens(items[1..])
  }

  function MemberTokens(members: seq<Member>): seq<Token>
    decreases members
  {
    if members == [] then []
    else [Text(members[0].key)] + Tokens(members[0].value) + MemberTokens(members[1..])
  }

  /** Some object of the tree names a key twice. */
  predicate HasDuplicate(v: Json) {
    match v
    case Scalar => false
    case Str(_) => false
    case Arr(items) => exists i :: 0 <= i < |items| && HasDuplicate(items[i])
    case Obj(members) =>
      || (exists i, j :: 0 <= i < j < |members| && members[i].key == members[j].key)
      || (exists i :: 0 <= i < |members| && HasDuplicate(members[i].value))
  }

  /** Some object of the tree names this key twice. */
  predicate NamesTwice(v: Json, k: string)
    decreases v
  {
    match v
    case Scalar => false
    case Str(_) => false
    case Arr(items) => exists i :: 0 <= i < |items| && NamesTwice(items[i], k)
    case Obj(members) => Blames({}, members, k)
  }

  /** The key is one of the taken ones, or repeats among the members, or repeats below. */
  predicate Blames(keys: set<string>, members: seq<Member>, k: string)
    decreases members
  {
    || (exists i :: 0 <= i < |members| && members[i].key == k && k in keys)
    || (exists i, j :: 0 <= i < j < |members| && members[i].key == k == members[j].key)
    || (exists i :: 0 <= i < |members| && NamesTwice(members[i].value, k))
  }

  // ----- the machine -----

  datatype Frame = Frame(obj: bool, expectKey: bool, keys: set<string>)
  datatype Outcome = Accepted | Repeated(key: string) | PopOfEmptyStack

  function Top(stack: seq<Frame>): Frame
    requires stack != []
  {
    stack[|stack| - 1]
  }

  /** A finished value puts an enclosing object back in key position. */
  function ValueDone(stack: seq<Frame>): (r: seq<Frame>)
    ensures |r| == |stack|
  {
    if stack != [] && Top(stack).obj then stack[|stack| - 1 := Top(stack).(expectKey := true)] else stack
  }

  predicate KeyPosition(stack: seq<Frame>) {
    stack != [] && Top(stack).obj && Top(stack).expectKey
  }

  function KeyOf(t: Token): string {
    if t.Text? then t.s else ""
  }

  /** The walk as a function of the tokens still to come and the stack. */
  function Walk(ts: seq<Token>, stack: seq<Frame>): Outcome
    decreases |ts|
  {
    if ts == [] then Accepted
    else if KeyPosition(stack) then
      if ts[0] == RightBrace then Walk(ts[1..], ValueDone(stack[..|stack| - 1]))
      else if KeyOf(ts[0]) in Top(stack).keys then Repeated(KeyOf(ts[0]))
      else
        var top := Frame(true, false, Top(stack).keys + {KeyOf(ts[0])});
        Walk(ts[1..], stack[|stack| - 1 := top])
    else if (ts[0] == RightBrace || ts[0] == RightBracket) && stack == [] then PopOfEmptyStack
    else
      var next := match ts[0]
        case LeftBrace => stack + [Frame(true, true, {})]
        case LeftBracket => stack + [Frame(false, false, {})]
        case RightBrace => ValueDone(stack[..|stack| - 1])
        case RightBracket => ValueDone(stack[..|stack| - 1])
        case _ => ValueDone(stack);
      if next == [] then Accepted else Walk(ts[1..], next)
  }

  /** checkDuplicateKeys as written, over the tokens of the one value the decoder has already accepted. */
  method CheckDuplicateKeys(tokens: seq<Token>, ghost v: Json) returns (r: Outcome)
    requires tokens == Tokens(v)
    ensures r.Repeated? <==> HasDuplicate(v)
    ensures r.Repeated? ==> NamesTwice(v, r.key)
    ensures r.Accepted? <==> !HasDuplicate(v)
  {
    WalkExact(v);
    var stack: seq<Frame> := [];
    assert tokens[0..] == tokens;
    for i := 0 to |tokens|
      invariant Walk(tokens[i..], stack) == Walk(tokens, [])
    {
      var tok := tokens[i];
      assert tokens[i..][1..] == tokens[i + 1..];
      var n := |stack|;
      if n > 0 && stack[n - 1].obj && stack[n - 1].expectKey {
        if tok == RightBrace {
          stack := ValueDone(stack[..n - 1]);
          continue;
        }
        var k := KeyOf(tok);
        if k in stack[n - 1].keys {
          return Repeated(k);
        }
        stack := stack[n - 1 := Frame(true, false, stack[n - 1].keys + {k})];
        continue;
      }
      match tok {
        case LeftBrace => stack := stack + [Frame(true, true, {})];
        case LeftBracket => stack := stack + [Frame(false, false, {})];
        case RightBrace => stack := ValueDone(stack[..n - 1]);
        case RightBracket => stack := ValueDone(stack[..n - 1]);
        case _ => stack := ValueDone(stack);
      }
      if stack == [] {
        return Accepted;
      }
    }
    r := Accepted;
  }

  // ----- the walk decides HasDuplicate -----

  /** A key of the members is taken, repeats among them, or a value below has a duplicate. */
  predicate Clash(keys: set<string>, members: seq<Member>)
    decreases members
  {
    members != []
    && (members[0].key in keys || HasDuplicate(members[0].value) || Clash(keys + {members[0].key}, members[1..]))
  }

  lemma {:induction false} ClashMeans(keys: set<string>, members: seq<Member>)
    ensures Clash(keys, members) <==>
            || (exists i :: 0 <= i < |members| && members[i].key in keys)
            || (exists i, j :: 0 <= i < j < |members| && members[i].key == members[j].key)
            || (exists i :: 0 <= i < |members| && HasDuplicate(members[i].value))
    decreases members
  {
    if members != [] {
      var rest, more := members[1..], keys + {members[0].key};
      ClashMeans(more, rest);
      assert forall i :: 0 <= i < |rest| ==> rest[i] == members[i + 1];
      assert forall i :: 1 <= i < |members| ==> members[i] == rest[i - 1];
    }
  }

  predicate Refuses(r: Outcome, v: Json) {
    r.Repeated? && NamesTwice(v, r.key)
  }

  /** The walk through one value in value position: it stops on a duplicate or finishes the value. */
  lemma {:induction false} WalkValue(v: Json, rest: seq<Token>, stack: seq<Frame>)
    requires stack != [] && !KeyPosition(stack)
    ensures HasDuplicate(v) ==> Refuses(Walk(Tokens(v) + rest, stack), v)
    ensures !HasDuplicate(v) ==> Walk(Tokens(v) + rest, stack) == Walk(rest, ValueDone(stack))
    decreases v, 0
  {
    var ts := Tokens(v) + rest;
    match v
    case Scalar => assert ts[1..] == rest;
    case Str(_) => assert ts[1..] == rest;
    case Arr(items) =>
      var inner := stack + [Frame(false, false, {})];
      var after := [RightBracket] + rest;
      assert ts[1..] == ItemTokens(items) + after;
      WalkItems(items, after, inner);
      assert after[1..] == rest && inner[..|inner| - 1] == stack;
    case Obj(members) =>
      var inner := stack + [Frame(true, true, {})];
      var after := [RightBrace] + rest;
      assert ts[1..] == MemberTokens(members) + after;
      WalkMembers(members, after, stack, {});
      ClashMeans({}, members);
      assert after[1..] == rest;
      var closed := stack + [Frame(true, true, Keys({}, members))];
      assert closed[..|closed| - 1] == stack;
  }

  lemma {:induction false} WalkItems(items: seq<Json>, rest: seq<Token>, stack: seq<Frame>)
    requires stack != [] && !Top(stack).obj
    ensures (exists i :: 0 <= i < |items| && HasDuplicate(items[i])) ==>
              Refuses(Walk(ItemTokens(items) + rest, stack), Arr(items))
    ensures !(exists i :: 0 <= i < |items| && HasDuplicate(items[i])) ==>
              Walk(ItemTokens(items) + rest, stack) == Walk(rest, stack)
    decreases items
  {
    if items == [] {
      assert ItemTokens(items) + rest == rest;
    } else {
      var more := ItemTokens(items[1..]) + rest;
      assert ItemTokens(items) + rest == Tokens(items[0]) + more;
      WalkValue(items[0], more, stack);
      WalkItems(items[1..], rest, stack);
      assert forall i :: 0 <= i < |items[1..]| ==> items[1..][i] == items[i + 1];
      assert forall i :: 1 <= i < |items| ==> items[i] == items[1..][i - 1];
    }
  }

  function Keys(keys: set<string>, members: seq<Member>): set<string>
    decreases members
  {
    if members == [] then keys else Keys(keys + {members[0].key}, members[1..])
  }

  lemma {:induction false} WalkMembers(members: seq<Member>, rest: seq<Token>, stack: seq<Frame>, keys: set<string>)
    ensures Clash(keys, members) ==>
              var r := Walk(MemberTokens(members) + rest, stack + [Frame(true, true, keys)]);
              r.Repeated? && Blames(keys, members, r.key)
    ensures !Clash(keys, members) ==>
              Walk(MemberTokens(members) + rest, stack + [Frame(true, true, keys)])
              == Walk(rest, stack + [Frame(true, true, Keys(keys, members))])
    decreases members
  {
    if members == [] {
      assert MemberTokens(members) + rest == rest;
    } else {
      var m, more := members[0], MemberTokens(members[1..]) + rest;
      assert MemberTokens(members) + rest == [Text(m.key)] + (Tokens(m.value) + more);
      NameKey(m.key, Tokens(m.value) + more, stack, keys);
      if m.key !in keys {
        var named := stack + [Frame(true, false, keys + {m.key})];
        WalkValue(m.value, more, named);
        assert ValueDone(named) == stack + [Frame(true, true, keys + {m.key})];
        WalkMembers(members[1..], rest, stack, keys + {m.key});
        BlamesTail(keys, members);
      }
    }
  }

  lemma BlamesTail(keys: set<string>, members: seq<Member>)
    requires members != []
    ensures forall k :: Blames(keys + {members[0].key}, members[1..], k) ==> Blames(keys, members, k)
  {
    assert forall i :: 0 <= i < |members[1..]| ==> members[1..][i] == members[i + 1];
  }

  /** The walk over one key token of an open object. */
  lemma NameKey(k: string, ts: seq<Token>, stack: seq<Frame>, keys: set<string>)
    ensures Walk([Text(k)] + ts, stack + [Frame(true, true, keys)])
            == if k in keys then Repeated(k) else Walk(ts, stack + [Frame(true, false, keys + {k})])
  {
    var open := stack + [Frame(true, true, keys)];
    assert ([Text(k)] + ts)[1..] == ts;
    assert open[|open| - 1 := Frame(true, false, keys + {k})] == stack + [Frame(true, false, keys + {k})];
  }

  /** The outermost closing token ends the walk, an array by stopping and an object by running out. */
  lemma OutermostClose(f: Frame)
    requires f.obj == f.expectKey
    ensures Walk([if f.obj then RightBrace else RightBracket], [f]) == Accepted
  {
    assert [f][..0] == [];
  }

  lemma WalkArray(items: seq<Json>)
    ensures Walk(Tokens(Arr(items)), []).Repeated? <==> HasDuplicate(Arr(items))
    ensures HasDuplicate(Arr(items)) ==> Refuses(Walk(Tokens(Arr(items)), []), Arr(items))
    ensures Walk(Tokens(Arr(items)), []) != PopOfEmptyStack
  {
    var inner := [Frame(false, false, {})];
    assert Tokens(Arr(items))[1..] == ItemTokens(items) + [RightBracket];
    assert [] + inner == inner;
    assert Walk(Tokens(Arr(items)), []) == Walk(ItemTokens(items) + [RightBracket], inner);
    WalkItems(items, [RightBracket], inner);
    OutermostClose(inner[0]);
  }

  lemma WalkObject(members: seq<Member>)
    ensures Walk(Tokens(Obj(members)), []).Repeated? <==> HasDuplicate(Obj(members))
    ensures HasDuplicate(Obj(members)) ==> Refuses(Walk(Tokens(Obj(members)), []), Obj(members))
    ensures Walk(Tokens(Obj(members)), []) != PopOfEmptyStack
  {
    var inner := [] + [Frame(true, true, {})];
    assert Tokens(Obj(members))[1..] == MemberTokens(members) + [RightBrace];
    assert Walk(Tokens(Obj(members)), []) == Walk(MemberTokens(members) + [RightBrace], inner);
    WalkMembers(members, [RightBrace], [], {});
    ClashMeans({}, members);
    var closed := Frame(true, true, Keys({}, members));
    OutermostClose(closed);
    assert [] + [closed] == [closed];
  }

  /** On the token stream of any value, of any depth, the walk reports a repeated key exactly when some
  object of the tree has one, and it never pops an empty stack. */
  lemma WalkExact(v: Json)
    ensures Walk(Tokens(v), []).Repeated? <==> HasDuplicate(v)
    ensures HasDuplicate(v) ==> Refuses(Walk(Tokens(v), []), v)
    ensures Walk(Tokens(v), []) != PopOfEmptyStack
  {
    match v
    case Scalar =>
    case Str(_) =>
    case Arr(items) => WalkArray(items);
    case Obj(members) => WalkObject(members);
  }
}
