/** ChipSlug: a raw chip fact as a Kubernetes label value. The one-pass code against the four steps it
documents; case folding is a parameter. */
module ChipSlug {
  const MAX_LABEL_VALUE := 63

  type Lowering = char -> char

  predicate Alnum(c: char) {
    'a' <= c <= 'z' || '0' <= c <= '9'
  }

  // ----- the four documented steps -----

  function Lowered(raw: string, lower: Lowering): (r: string)
    ensures |r| == |raw| && forall i :: 0 <= i < |r| ==> r[i] == lower(raw[i])
  {
    seq(|raw|, i requires 0 <= i < |raw| => lower(raw[i]))
  }

  predicate EndsDashed(s: string) {
    s != "" && s[|s| - 1] == '-'
  }

  /** Every run of other characters becomes one dash. */
  function Collapsed(s: string): string {
    if s == "" then ""
    else Extended(Collapsed(s[..|s| - 1]), s[|s| - 1])
  }

  function Extended(s: string, c: char): string {
    if Alnum(c) then s + [c] else if EndsDashed(s) then s else s + "-"
  }

  function TrimLeft(s: string): string {
    if s != "" && s[0] == '-' then TrimLeft(s[1..]) else s
  }

  function TrimRight(s: string): string {
    if EndsDashed(s) then TrimRight(s[..|s| - 1]) else s
  }

  function Truncated(s: string): string {
    if |s| <= 63 then s else s[..63]
  }

  function Slug(raw: string, lower: Lowering): string {
    TrimRight(Truncated(TrimRight(TrimLeft(Collapsed(Lowered(raw, lower))))))
  }

  // ----- the code -----

  function Pending(b: string, dash: bool): string {
    if dash then b + "-" else b
  }

  /** ChipSlug as written: one pass with a pending dash, then the length limit. */
  method ComputeSlug(raw: string, lower: Lowering) returns (s: string)
    ensures s == Slug(raw, lower)
  {
    var rs := Lowered(raw, lower);
    var b, pendingDash := "", false;
    for i := 0 to |rs|
      invariant TrimLeft(Collapsed(rs[..i])) == Pending(b, pendingDash)
      invariant !EndsDashed(b) && (b == "" ==> !pendingDash)
    {
      assert rs[..i + 1][..i] == rs[..i];
      TrimExtended(Collapsed(rs[..i]), rs[i]);
      if ('a' <= rs[i] && rs[i] <= 'z') || ('0' <= rs[i] && rs[i] <= '9') {
        if pendingDash {
          b, pendingDash := b + "-", false;
        }
        b := b + [rs[i]];
        continue;
      }
      if |b| > 0 {
        pendingDash := true;
      }
    }
    assert rs[..|rs|] == rs;
    TrimPending(b, pendingDash);
    s := b;
    if |s| > MAX_LABEL_VALUE {
      s := TrimRight(s[..MAX_LABEL_VALUE]);
    }
  }

  lemma {:induction false} TrimExtended(s: string, c: char)
    ensures TrimLeft(Extended(s, c)) == if TrimLeft(s) == "" && !Alnum(c) then "" else Extended(TrimLeft(s), c)
  {
    if s == "" {
      assert s + [c] == [c] && "-"[1..] == "";
    } else if s[0] == '-' {
      TrimExtended(s[1..], c);
      var r := Extended(s, c);
      if |s| > 1 {
        assert EndsDashed(s) == EndsDashed(s[1..]);
        assert r[1..] == Extended(s[1..], c);
      } else {
        assert s[1..] == "" && TrimLeft(s) == "";
        assert Alnum(c) ==> r[1..] == [c] && "" + [c] == [c];
      }
    }
  }

  lemma TrimPending(b: string, dash: bool)
    requires !EndsDashed(b)
    ensures TrimRight(Pending(b, dash)) == b
  {
    if dash {
      assert (b + "-")[..|b|] == b;
    }
  }

  // ----- what the value promises -----

  /** A label value of this writer: letters, digits and single inner dashes. */
  predicate IsSlug(s: string) {
    && |s| <= 63
    && DashForm(s)
    && (s != "" ==> Alnum(s[0]) && Alnum(s[|s| - 1]))
  }

  predicate DashForm(s: string) {
    && (forall i :: 0 <= i < |s| ==> Alnum(s[i]) || s[i] == '-')
    && (forall i :: 0 < i < |s| ==> Alnum(s[i - 1]) || Alnum(s[i]))
  }

  lemma {:induction false} CollapsedForm(s: string)
    ensures DashForm(Collapsed(s))
  {
    if s != "" {
      CollapsedForm(s[..|s| - 1]);
    }
  }

  lemma {:induction false} TrimLeftForm(s: string)
    requires DashForm(s)
    ensures DashForm(TrimLeft(s)) && (TrimLeft(s) != "" ==> Alnum(TrimLeft(s)[0]))
  {
    if s != "" && s[0] == '-' {
      assert DashForm(s[1..]) by {
        assert forall i :: 0 <= i < |s[1..]| ==> s[1..][i] == s[i + 1];
      }
      TrimLeftForm(s[1..]);
    }
  }

  lemma {:induction false} TrimRightForm(s: string)
    requires DashForm(s) && (s != "" ==> Alnum(s[0]))
    ensures var t := TrimRight(s);
            DashForm(t) && |t| <= |s| && (t != "" ==> Alnum(t[0]) && Alnum(t[|t| - 1]))
  {
    if EndsDashed(s) {
      TrimRightForm(s[..|s| - 1]);
    }
  }

  /** The result is always a valid label value. */
  lemma SlugIsLabelValue(raw: string, lower: Lowering)
    ensures IsSlug(Slug(raw, lower))
  {
    var c := Collapsed(Lowered(raw, lower));
    CollapsedForm(Lowered(raw, lower));
    TrimLeftForm(c);
    TrimRightForm(TrimLeft(c));
    TrimRightForm(Truncated(TrimRight(TrimLeft(c))));
  }

  /** The letters and digits of a string, in order. */
  function Kept(s: string): string {
    if s == "" then "" else Kept(s[..|s| - 1]) + if Alnum(s[|s| - 1]) then [s[|s| - 1]] else ""
  }

  lemma {:induction false} CollapsedKeeps(s: string)
    ensures Kept(Collapsed(s)) == Kept(s)
  {
    if s != "" {
      var n := |s| - 1;
      CollapsedKeeps(s[..n]);
      var c := Collapsed(s[..n]);
      assert (c + [s[n]])[..|c|] == c && (c + "-")[..|c|] == c;
    }
  }

  lemma {:induction false} KeptConcat(a: string, b: string)
    ensures Kept(a + b) == Kept(a) + Kept(b)
  {
    if b == "" {
      assert a + b == a;
    } else {
      var n := |b| - 1;
      assert (a + b)[..|a + b| - 1] == a + b[..n];
      KeptConcat(a, b[..n]);
    }
  }

  lemma {:induction false} TrimLeftKeeps(s: string)
    ensures Kept(TrimLeft(s)) == Kept(s)
  {
    if s != "" && s[0] == '-' {
      TrimLeftKeeps(s[1..]);
      assert s == "-" + s[1..];
      KeptConcat("-", s[1..]);
      assert "-"[..0] == "";
    }
  }

  lemma {:induction false} TrimRightKeeps(s: string)
    ensures Kept(TrimRight(s)) == Kept(s)
  {
    if EndsDashed(s) {
      TrimRightKeeps(s[..|s| - 1]);
    }
  }

  lemma {:induction false} KeptEmpty(s: string)
    ensures Kept(s) == "" <==> forall i :: 0 <= i < |s| ==> !Alnum(s[i])
  {
    if s != "" {
      KeptEmpty(s[..|s| - 1]);
    }
  }

  /** The value before the length limit. */
  function Whole(raw: string, lower: Lowering): string {
    TrimRight(TrimLeft(Collapsed(Lowered(raw, lower))))
  }

  /** The value keeps the letters and digits in order: all of them within the limit, and past it those of
  the first 63 characters. */
  lemma SlugKeeps(raw: string, lower: Lowering)
    ensures Kept(Slug(raw, lower)) <= Kept(Lowered(raw, lower))
    ensures |Whole(raw, lower)| <= 63 ==> Kept(Slug(raw, lower)) == Kept(Lowered(raw, lower))
    ensures |Whole(raw, lower)| > 63 ==> Kept(Slug(raw, lower)) == Kept(Whole(raw, lower)[..63])
  {
    var s := Lowered(raw, lower);
    var t := Whole(raw, lower);
    TrimmedKeeps(s);
    TrimRightKeeps(Truncated(t));
    if |t| > 63 {
      assert t == t[..63] + t[63..];
      KeptConcat(t[..63], t[63..]);
    }
  }

  lemma TrimmedKeeps(s: string)
    ensures Kept(TrimRight(TrimLeft(Collapsed(s)))) == Kept(s)
  {
    CollapsedKeeps(s);
    TrimLeftKeeps(Collapsed(s));
    TrimRightKeeps(TrimLeft(Collapsed(s)));
  }

  /** The value is empty exactly when folding leaves no letter or digit. */
  lemma SlugEmpty(raw: string, lower: Lowering)
    ensures Slug(raw, lower) == "" <==> forall i :: 0 <= i < |raw| ==> !Alnum(lower(raw[i]))
  {
    var s := Lowered(raw, lower);
    var t := TrimRight(TrimLeft(Collapsed(s)));
    KeptEmpty(s);
    KeptEmpty(t);
    KeptEmpty(Truncated(t));
    KeptEmpty(Slug(raw, lower));
    TrimmedKeeps(s);
    TrimRightKeeps(Truncated(t));
    SlugIsLabelValue(raw, lower);
    FirstKept(s);
  }

  lemma FirstKept(s: string)
    ensures var t := TrimRight(TrimLeft(Collapsed(s))); t != "" ==> Alnum(t[0])
  {
    CollapsedForm(s);
    TrimLeftForm(Collapsed(s));
    TrimRightForm(TrimLeft(Collapsed(s)));
  }

  predicate FixesSlugs(lower: Lowering) {
    forall c :: Alnum(c) || c == '-' ==> lower(c) == c
  }

  /** A slug is its own slug. */
  lemma SlugIdempotent(raw: string, lower: Lowering)
    requires FixesSlugs(lower)
    ensures Slug(Slug(raw, lower), lower) == Slug(raw, lower)
  {
    var s := Slug(raw, lower);
    SlugIsLabelValue(raw, lower);
    assert Lowered(s, lower) == s;
    CollapsedFixed(s);
  }

  lemma {:induction false} CollapsedFixed(s: string)
    requires DashForm(s)
    ensures Collapsed(s) == s
  {
    if s != "" {
      CollapsedFixed(s[..|s| - 1]);
    }
  }

  /** The rule looks at the folded fact, so a raw fact without a letter or digit of the value's own kind
  need not be empty. */
  lemma FoldingComesFirst(lower: Lowering)
    requires lower('M') == 'm'
    ensures Slug("M", lower) == "m" && forall i :: 0 <= i < |"M"| ==> !Alnum("M"[i])
  {
    assert Lowered("M", lower) == "m";
    assert "m"[..0] == "" && Collapsed("m") == Extended(Collapsed(""), 'm') == "m";
  }
}
