/** Splitting a string at a separator and joining it back. */
module Splitting {
  function Split(s: string, sep: char): (cs: seq<string>)
    ensures |cs| > 0
  {
    if s == "" then [""] else Put(s[0], Split(s[1..], sep), sep)
  }

  /** One more character in front: a separator starts a piece, any other character joins the first. */
  function Put(c: char, cs: seq<string>, sep: char): (r: seq<string>)
    requires |cs| > 0
    ensures |r| > 0
  {
    if c == sep then [""] + cs else [[c] + cs[0]] + cs[1..]
  }

  function Join(cs: seq<string>, sep: char): string
    requires |cs| > 0
  {
    if |cs| == 1 then cs[0] else cs[0] + [sep] + Join(cs[1..], sep)
  }

  function Count(s: string, c: char): nat {
    if s == "" then 0 else (if s[0] == c then 1 else 0) + Count(s[1..], c)
  }

  predicate Free(cs: seq<string>, sep: char) {
    forall i :: 0 <= i < |cs| ==> sep !in cs[i]
  }

  /** Splitting loses nothing, leaves no separator in a piece, and has one piece more than separators. */
  lemma {:induction false} JoinOfSplit(s: string, sep: char)
    ensures Join(Split(s, sep), sep) == s && Free(Split(s, sep), sep) && |Split(s, sep)| == Count(s, sep) + 1
  {
    if s != "" {
      JoinOfSplit(s[1..], sep);
      JoinOfPut(s[0], Split(s[1..], sep), sep);
      FreePut(s[0], Split(s[1..], sep), sep);
      assert [s[0]] + s[1..] == s;
    }
  }

  lemma {:induction false} JoinOfPut(c: char, cs: seq<string>, sep: char)
    requires |cs| > 0
    ensures Join(Put(c, cs, sep), sep) == [c] + Join(cs, sep)
  {
    if c == sep {
      assert Put(c, cs, sep)[1..] == cs;
    } else if |cs| > 1 {
      assert Put(c, cs, sep)[1..] == cs[1..];
      var rest := Join(cs[1..], sep);
      assert ([c] + cs[0]) + [sep] + rest == [c] + (cs[0] + [sep] + rest);
    }
  }

  lemma FreePut(c: char, cs: seq<string>, sep: char)
    requires |cs| > 0 && Free(cs, sep)
    ensures Free(Put(c, cs, sep), sep)
  {
  }

  lemma {:induction false} SplitAtSeparator(a: string, b: string, sep: char)
    ensures Split(a + [sep] + b, sep) == Split(a, sep) + Split(b, sep)
  {
    var s := a + [sep] + b;
    if a == "" {
      assert s[1..] == b && Split(a, sep) == [""];
    } else {
      assert s[1..] == a[1..] + [sep] + b;
      SplitAtSeparator(a[1..], b, sep);
      PutBefore(s[0], Split(a[1..], sep), Split(b, sep), sep);
    }
  }

  lemma PutBefore(c: char, cs: seq<string>, ds: seq<string>, sep: char)
    requires |cs| > 0
    ensures Put(c, cs + ds, sep) == Put(c, cs, sep) + ds
  {
    assert (cs + ds)[1..] == cs[1..] + ds;
  }

  lemma {:induction false} OnePiece(c: string, sep: char)
    requires sep !in c
    ensures Split(c, sep) == [c]
  {
    if c != "" {
      assert forall x :: x in c[1..] ==> x in c;
      OnePiece(c[1..], sep);
      assert [c[0]] + c[1..] == c && [c[1..]][1..] == [];
    }
  }

  /** Joining is undone by splitting, so a string and its pieces determine each other. */
  lemma {:induction false} SplitOfJoin(cs: seq<string>, sep: char)
    requires |cs| > 0 && Free(cs, sep)
    ensures Split(Join(cs, sep), sep) == cs
  {
    OnePiece(cs[0], sep);
    if |cs| > 1 {
      SplitOfJoin(cs[1..], sep);
      SplitAtSeparator(cs[0], Join(cs[1..], sep), sep);
      assert [cs[0]] + cs[1..] == cs;
    }
  }

  lemma {:induction false} JoinOfConcat(cs: seq<string>, ds: seq<string>, sep: char)
    requires |cs| > 0 && |ds| > 0
    ensures Join(cs + ds, sep) == Join(cs, sep) + [sep] + Join(ds, sep)
  {
    if |cs| == 1 {
      assert (cs + ds)[1..] == ds;
    } else {
      assert (cs + ds)[1..] == cs[1..] + ds;
      JoinOfConcat(cs[1..], ds, sep);
      var rest := Join(cs[1..], sep);
      assert cs[0] + [sep] + (rest + [sep] + Join(ds, sep)) == (cs[0] + [sep] + rest) + [sep] + Join(ds, sep);
    }
  }
}
