/** mergeUnknownWindows: the windowed counts whose reason a reader cannot name are summed into one entry
per window, with a saturating sum. */
module UnknownWindows {
  import opened Vocabulary
  import opened Observation
  import opened Sequences

  predicate IsUnknown(w: WindowCount) {
    w.reason == UNKNOWN
  }

  predicate UnknownOf(w: WindowCount, window: string) {
    IsUnknown(w) && w.window == window
  }

  /** An int64 sum wraps. */
  function WrapI64(x: int): I64 {
    (x - I64_MIN) % 0x1_0000_0000_0000_0000 + I64_MIN
  }

  /** One step of the sum: it saturates above, and only above. */
  function AddCount(a: I64, b: I64): I64 {
    if b > 0 && a > I64_MAX - b then I64_MAX else WrapI64(a + b)
  }

  /** The counts of the window's unknown entries, added in order to a. */
  function AddUnknown(a: I64, ws: seq<WindowCount>, window: string): I64
    decreases |ws|
  {
    if ws == [] then a
    else if UnknownOf(ws[0], window) then AddUnknown(AddCount(a, ws[0].count), ws[1..], window)
    else AddUnknown(a, ws[1..], window)
  }

  function DropUnknown(ws: seq<WindowCount>, window: string): (r: seq<WindowCount>)
    ensures |r| <= |ws|
  {
    if ws == [] then []
    else (if UnknownOf(ws[0], window) then [] else [ws[0]]) + DropUnknown(ws[1..], window)
  }

  /** The merged list: the first unknown entry of a window stands for all of them, where it stood. */
  function Merged(ws: seq<WindowCount>): seq<WindowCount>
    decreases |ws|
  {
    if ws == [] then []
    else if !IsUnknown(ws[0]) then [ws[0]] + Merged(ws[1..])
    else
      [ws[0].(count := AddUnknown(ws[0].count, ws[1..], ws[0].window))]
      + Merged(DropUnknown(ws[1..], ws[0].window))
  }

  /** At most one unknown entry per window. */
  predicate UnknownOnce(ws: seq<WindowCount>) {
    forall i, j :: 0 <= i < j < |ws| && IsUnknown(ws[i]) && IsUnknown(ws[j]) ==> ws[i].window != ws[j].window
  }

  lemma {:induction false} DropNone(ws: seq<WindowCount>, rest: seq<WindowCount>, window: string)
    requires forall i :: 0 <= i < |ws| ==> !UnknownOf(ws[i], window)
    ensures DropUnknown(ws + rest, window) == ws + DropUnknown(rest, window)
  {
    if ws == [] {
      assert ws + rest == rest;
    } else {
      DropNone(ws[1..], rest, window);
      assert (ws + rest)[1..] == ws[1..] + rest;
    }
  }

  lemma {:induction false} AddNone(a: I64, ws: seq<WindowCount>, rest: seq<WindowCount>, window: string)
    requires forall i :: 0 <= i < |ws| ==> !UnknownOf(ws[i], window)
    ensures AddUnknown(a, ws + rest, window) == AddUnknown(a, rest, window)
  {
    if ws == [] {
      assert ws + rest == rest;
    } else {
      AddNone(a, ws[1..], rest, window);
      assert (ws + rest)[1..] == ws[1..] + rest;
    }
  }

  lemma AbsorbHead(out: seq<WindowCount>, w: WindowCount, rest: seq<WindowCount>)
    requires out != [] && UnknownOnce(out) && IsUnknown(w) && UnknownOf(out[0], w.window)
    ensures Merged(out + [w] + rest) == Merged(out[0 := out[0].(count := AddCount(out[0].count, w.count))] + rest)
  {
    var tail, more, window := out[1..], [w] + rest, w.window;
    var before, after := out + [w] + rest, out[0 := out[0].(count := AddCount(out[0].count, w.count))] + rest;
    assert before[1..] == tail + more && after[1..] == tail + rest && more[1..] == rest;
    forall i | 0 <= i < |tail| ensures !UnknownOf(tail[i], window) {
      assert tail[i] == out[i + 1];
    }
    AddNone(out[0].count, tail, more, window);
    AddNone(after[0].count, tail, rest, window);
    assert AddUnknown(out[0].count, more, window) == AddUnknown(after[0].count, rest, window);
    DropNone(tail, more, window);
    DropNone(tail, rest, window);
    assert DropUnknown(more, window) == DropUnknown(rest, window);
  }

  /** Merging past a head whose window does not occur in what follows it at once. */
  lemma {:induction false} MergedPast(u: WindowCount, tail: seq<WindowCount>, more: seq<WindowCount>)
    requires IsUnknown(u) && forall i :: 0 <= i < |tail| ==> !UnknownOf(tail[i], u.window)
    ensures Merged([u] + (tail + more)) ==
            [u.(count := AddUnknown(u.count, more, u.window))] + Merged(tail + DropUnknown(more, u.window))
  {
    assert ([u] + (tail + more))[1..] == tail + more;
    AddNone(u.count, tail, more, u.window);
    DropNone(tail, more, u.window);
  }

  lemma OnceTail(ws: seq<WindowCount>)
    requires ws != [] && UnknownOnce(ws)
    ensures UnknownOnce(ws[1..])
    ensures IsUnknown(ws[0]) ==> forall i :: 0 <= i < |ws[1..]| ==> !UnknownOf(ws[1..][i], ws[0].window)
  {
    assert forall i :: 0 <= i < |ws[1..]| ==> ws[1..][i] == ws[i + 1];
  }

  /** Folding an entry into an earlier one of its window does not change the merged list. */
  lemma {:induction false} Absorb(out: seq<WindowCount>, k: nat, w: WindowCount, rest: seq<WindowCount>)
    requires k < |out| && UnknownOnce(out) && IsUnknown(w) && UnknownOf(out[k], w.window)
    ensures Merged(out + [w] + rest) == Merged(out[k := out[k].(count := AddCount(out[k].count, w.count))] + rest)
    decreases |out|
  {
    if k == 0 {
      AbsorbHead(out, w, rest);
    } else {
      var u, tail := out[0], out[1..];
      var tail' := tail[k - 1 := out[k].(count := AddCount(out[k].count, w.count))];
      assert out + [w] + rest == [u] + (tail + ([w] + rest));
      assert out[k := tail'[k - 1]] + rest == [u] + (tail' + rest);
      OnceTail(out);
      assert tail[k - 1] == out[k];
      if IsUnknown(u) {
        AbsorbPast(u, tail, tail', w, rest);
        Absorb(tail, k - 1, w, DropUnknown(rest, u.window));
      } else {
        Absorb(tail, k - 1, w, rest);
        assert tail + [w] + rest == tail + ([w] + rest);
        assert ([u] + (tail + ([w] + rest)))[1..] == tail + ([w] + rest);
        assert ([u] + (tail' + rest))[1..] == tail' + rest;
      }
    }
  }

  lemma {:induction false} AbsorbPast(u: WindowCount, tail: seq<WindowCount>, tail': seq<WindowCount>, w: WindowCount, rest: seq<WindowCount>)
    requires IsUnknown(u) && w.window != u.window
    requires forall i :: 0 <= i < |tail| ==> !UnknownOf(tail[i], u.window)
    requires forall i :: 0 <= i < |tail'| ==> !UnknownOf(tail'[i], u.window)
    ensures var less := DropUnknown(rest, u.window);
            Merged(tail + [w] + less) == Merged(tail' + less) ==>
            Merged([u] + (tail + ([w] + rest))) == Merged([u] + (tail' + rest))
  {
    var less := DropUnknown(rest, u.window);
    MergedPast(u, tail, [w] + rest);
    MergedPast(u, tail', rest);
    AddNone(u.count, [w], rest, u.window);
    DropNone([w], rest, u.window);
    assert tail + ([w] + less) == tail + [w] + less;
  }

  lemma {:induction false} MergedFixed(ws: seq<WindowCount>)
    requires UnknownOnce(ws)
    ensures Merged(ws) == ws
    decreases |ws|
  {
    if ws != [] {
      var tail := ws[1..];
      forall i, j | 0 <= i < j < |tail| && IsUnknown(tail[i]) && IsUnknown(tail[j]) ensures tail[i].window != tail[j].window {
        assert tail[i] == ws[i + 1] && tail[j] == ws[j + 1];
      }
      if IsUnknown(ws[0]) {
        forall i | 0 <= i < |tail| ensures !UnknownOf(tail[i], ws[0].window) {
          assert tail[i] == ws[i + 1];
        }
        assert tail + [] == tail;
        AddNone(ws[0].count, tail, [], ws[0].window);
        DropNone(tail, [], ws[0].window);
      }
      MergedFixed(tail);
    }
  }

  /** at holds the index of every unknown entry of out, by window. */
  ghost predicate Indexes(at: map<string, nat>, out: seq<WindowCount>) {
    && (forall window :: window in at ==> at[window] < |out| && UnknownOf(out[at[window]], window))
    && (forall j :: 0 <= j < |out| && IsUnknown(out[j]) ==> out[j].window in at && at[out[j].window] == j)
  }

  lemma IndexesOnce(at: map<string, nat>, out: seq<WindowCount>)
    requires Indexes(at, out)
    ensures UnknownOnce(out)
  {
  }

  lemma IndexesUpdate(at: map<string, nat>, out: seq<WindowCount>, k: nat, count: I64)
    requires Indexes(at, out) && k < |out|
    ensures Indexes(at, out[k := out[k].(count := count)])
  {
  }

  method MachineSum(a: I64, b: I64) returns (sum: I64)
    ensures sum == AddCount(a, b)
  {
    sum := WrapI64(a + b);
    if b > 0 && a > I64_MAX - b {
      sum := I64_MAX;
    }
  }

  /** mergeUnknownWindows as written: an output list and the index of each window's unknown entry. */
  method MergeUnknownWindows(ws: seq<WindowCount>) returns (out: seq<WindowCount>)
    ensures out == Merged(ws)
  {
    out := [];
    var at: map<string, nat> := map[];
    assert [] + ws[0..] == ws;
    for i := 0 to |ws|
      invariant Merged(out + ws[i..]) == Merged(ws) && Indexes(at, out)
    {
      var w := ws[i];
      assert out + ws[i..] == out + [w] + ws[i + 1..];
      if w.reason != UNKNOWN {
        out := out + [w];
        continue;
      }
      if w.window !in at {
        at := at[w.window := |out|];
        out := out + [w];
        continue;
      }
      var k := at[w.window];
      IndexesOnce(at, out);
      Absorb(out, k, w, ws[i + 1..]);
      var sum := MachineSum(out[k].count, w.count);
      IndexesUpdate(at, out, k, sum);
      out := out[k := out[k].(count := sum)];
    }
    assert out + ws[|ws|..] == out;
    IndexesOnce(at, out);
    MergedFixed(out);
  }

  // ----- what the merged list keeps -----

  function Named(ws: seq<WindowCount>): seq<WindowCount> {
    if ws == [] then []
    else (if IsUnknown(ws[0]) then [] else [ws[0]]) + Named(ws[1..])
  }

  lemma {:induction false} NamedDrop(ws: seq<WindowCount>, window: string)
    ensures Named(DropUnknown(ws, window)) == Named(ws)
  {
    if ws != [] {
      NamedDrop(ws[1..], window);
      var d := DropUnknown(ws, window);
      if !UnknownOf(ws[0], window) {
        assert d[1..] == DropUnknown(ws[1..], window);
      } else {
        assert d == DropUnknown(ws[1..], window);
      }
    }
  }

  /** Every named entry is kept, in order. */
  lemma {:induction false} NamedKept(ws: seq<WindowCount>)
    ensures Named(Merged(ws)) == Named(ws)
    decreases |ws|
  {
    if ws != [] {
      var m := Merged(ws);
      if IsUnknown(ws[0]) {
        NamedKept(DropUnknown(ws[1..], ws[0].window));
        NamedDrop(ws[1..], ws[0].window);
        assert m[1..] == Merged(DropUnknown(ws[1..], ws[0].window));
      } else {
        NamedKept(ws[1..]);
        assert m[1..] == Merged(ws[1..]);
      }
    }
  }

  lemma {:induction false} DropMembers(ws: seq<WindowCount>, window: string, x: WindowCount)
    ensures x in DropUnknown(ws, window) <==> x in ws && !UnknownOf(x, window)
  {
    if ws != [] {
      DropMembers(ws[1..], window, x);
    }
  }

  /** Every entry of the merged list has the window and reason of one that was there. */
  lemma {:induction false} MergedMembers(ws: seq<WindowCount>, x: WindowCount)
    requires x in Merged(ws)
    ensures exists y :: y in ws && y.window == x.window && y.reason == x.reason
    decreases |ws|
  {
    if IsUnknown(ws[0]) {
      var rest := DropUnknown(ws[1..], ws[0].window);
      if x in Merged(rest) {
        MergedMembers(rest, x);
        var y :| y in rest && y.window == x.window && y.reason == x.reason;
        DropMembers(ws[1..], ws[0].window, y);
      } else {
        assert ws[0] in ws;
      }
    } else if x in Merged(ws[1..]) {
      MergedMembers(ws[1..], x);
    }
  }

  lemma {:induction false} MergedUnknownOnce(ws: seq<WindowCount>)
    ensures UnknownOnce(Merged(ws))
    decreases |ws|
  {
    if ws != [] {
      var m := Merged(ws);
      if IsUnknown(ws[0]) {
        var rest := DropUnknown(ws[1..], ws[0].window);
        MergedUnknownOnce(rest);
        assert m[1..] == Merged(rest);
        forall j | 1 <= j < |m| && IsUnknown(m[j]) ensures m[j].window != m[0].window {
          assert m[j] == Merged(rest)[j - 1];
          MergedMembers(rest, m[j]);
          var y :| y in rest && y.window == m[j].window && y.reason == m[j].reason;
          DropMembers(ws[1..], ws[0].window, y);
        }
        forall i, j | 0 <= i < j < |m| && IsUnknown(m[i]) && IsUnknown(m[j]) ensures m[i].window != m[j].window {
          if i > 0 { assert m[i] == Merged(rest)[i - 1] && m[j] == Merged(rest)[j - 1]; }
        }
      } else {
        MergedUnknownOnce(ws[1..]);
        forall i, j | 0 <= i < j < |m| && IsUnknown(m[i]) && IsUnknown(m[j]) ensures m[i].window != m[j].window {
          assert m[i] == Merged(ws[1..])[i - 1] && m[j] == Merged(ws[1..])[j - 1];
        }
      }
    }
  }

  lemma MergeIdempotent(ws: seq<WindowCount>)
    ensures Merged(Merged(ws)) == Merged(ws)
  {
    MergedUnknownOnce(ws);
    MergedFixed(Merged(ws));
  }

  // ----- the counts -----

  /** The true sum of the window's unknown counts. */
  function Total(ws: seq<WindowCount>, window: string): int {
    if ws == [] then 0
    else (if UnknownOf(ws[0], window) then ws[0].count else 0) + Total(ws[1..], window)
  }

  predicate CountsNonNegative(ws: seq<WindowCount>) {
    forall i :: 0 <= i < |ws| ==> ws[i].count >= 0
  }

  function Min(a: int, b: int): int {
    if a < b then a else b
  }

  lemma {:induction false} TotalNonNegative(ws: seq<WindowCount>, window: string)
    requires CountsNonNegative(ws)
    ensures Total(ws, window) >= 0
  {
    if ws != [] {
      TotalNonNegative(ws[1..], window);
    }
  }

  lemma {:induction false} SaturatingSum(a: I64, ws: seq<WindowCount>, window: string)
    requires a >= 0 && CountsNonNegative(ws)
    ensures AddUnknown(a, ws, window) == Min(a + Total(ws, window), I64_MAX)
    decreases |ws|
  {
    if ws != [] {
      TotalNonNegative(ws[1..], window);
      if UnknownOf(ws[0], window) {
        assert AddCount(a, ws[0].count) == Min(a + ws[0].count, I64_MAX);
        SaturatingSum(AddCount(a, ws[0].count), ws[1..], window);
      } else {
        SaturatingSum(a, ws[1..], window);
      }
    }
  }

  lemma {:induction false} TotalDrop(ws: seq<WindowCount>, dropped: string, window: string)
    requires dropped != window
    ensures Total(DropUnknown(ws, dropped), window) == Total(ws, window)
  {
    if ws != [] {
      TotalDrop(ws[1..], dropped, window);
      var d := DropUnknown(ws, dropped);
      if !UnknownOf(ws[0], dropped) {
        assert d[1..] == DropUnknown(ws[1..], dropped);
      } else {
        assert d == DropUnknown(ws[1..], dropped);
      }
    }
  }

  lemma DropNonNegative(ws: seq<WindowCount>, window: string)
    requires CountsNonNegative(ws)
    ensures CountsNonNegative(DropUnknown(ws, window))
  {
    var d := DropUnknown(ws, window);
    forall i | 0 <= i < |d| ensures d[i].count >= 0 {
      DropMembers(ws, window, d[i]);
    }
  }

  /** Without negative counts, each unknown entry holds the smaller of the true sum and the int64 maximum,
  and every window with an unknown entry keeps one. */
  lemma {:induction false} UnknownCounts(ws: seq<WindowCount>, x: WindowCount)
    requires CountsNonNegative(ws) && x in Merged(ws) && IsUnknown(x)
    ensures x.count == Min(Total(ws, x.window), I64_MAX)
    decreases |ws|
  {
    if IsUnknown(ws[0]) {
      var h := ws[0].window;
      var rest := DropUnknown(ws[1..], h);
      DropNonNegative(ws[1..], h);
      if x in Merged(rest) {
        UnknownCounts(rest, x);
        MergedMembers(rest, x);
        var y :| y in rest && y.window == x.window && y.reason == x.reason;
        DropMembers(ws[1..], h, y);
        TotalDrop(ws[1..], h, x.window);
      } else {
        SaturatingSum(ws[0].count, ws[1..], h);
      }
    } else {
      UnknownCounts(ws[1..], x);
    }
  }

  lemma {:induction false} UnknownWindowKept(ws: seq<WindowCount>, w: WindowCount)
    requires w in ws && IsUnknown(w)
    ensures exists x :: x in Merged(ws) && UnknownOf(x, w.window)
    decreases |ws|
  {
    if IsUnknown(ws[0]) {
      if ws[0].window == w.window {
        assert Merged(ws)[0] in Merged(ws) && UnknownOf(Merged(ws)[0], w.window);
      } else {
        DropMembers(ws[1..], ws[0].window, w);
        UnknownWindowKept(DropUnknown(ws[1..], ws[0].window), w);
      }
    } else {
      UnknownWindowKept(ws[1..], w);
    }
  }

  lemma {:induction false} TotalRemove(ws: seq<WindowCount>, k: nat, window: string)
    requires k < |ws|
    ensures Total(ws, window) == (if UnknownOf(ws[k], window) then ws[k].count else 0) + Total(ws[..k] + ws[k + 1..], window)
  {
    var r := ws[..k] + ws[k + 1..];
    if k == 0 {
      assert r == ws[1..];
    } else {
      TotalRemove(ws[1..], k - 1, window);
      assert r[1..] == ws[1..][..k - 1] + ws[1..][k..];
    }
  }

  /** The sum does not depend on the order of the entries. */
  lemma {:induction false} TotalAnyOrder(a: seq<WindowCount>, b: seq<WindowCount>, window: string)
    requires multiset(a) == multiset(b)
    ensures Total(a, window) == Total(b, window)
    decreases |a|
  {
    if a == [] {
      assert |multiset(b)| == 0;
    } else {
      var k := TakeHead(a, b);
      var r := b[..k] + b[k + 1..];
      TotalRemove(b, k, window);
      TotalAnyOrder(a[1..], r, window);
    }
  }

  // ----- the validator behind it -----

  /** Several reasons a newer producer added never collide: a list the validator would accept but for
  repeated unknown pairs is accepted once merged. */
  lemma {:induction false} MergeUncollides(ws: seq<WindowCount>)
    requires |Merged(ws)| <= MAX_WINDOW_COUNTS
    requires forall i :: 0 <= i < |ws| ==> ValidWindow(ws[i])
    requires forall i, j :: 0 <= i < j < |Named(ws)| ==>
               Named(ws)[i].window != Named(ws)[j].window || Named(ws)[i].reason != Named(ws)[j].reason
    ensures ValidWindows(Merged(ws))
  {
    var m := Merged(ws);
    MergedUnknownOnce(ws);
    NamedKept(ws);
    forall i | 0 <= i < |m| ensures ValidWindow(m[i]) {
      MergedEntryValid(ws, m[i]);
    }
    forall i, j | 0 <= i < j < |m| ensures m[i].window != m[j].window || m[i].reason != m[j].reason {
      if !IsUnknown(m[i]) && !IsUnknown(m[j]) {
        var x := NamedIndex(m, i);
        var y := NamedIndex(m, j);
        NamedIndexMonotone(m, i, j);
      }
    }
  }

  lemma {:induction false} MergedEntryValid(ws: seq<WindowCount>, x: WindowCount)
    requires (forall i :: 0 <= i < |ws| ==> ValidWindow(ws[i])) && x in Merged(ws)
    ensures ValidWindow(x)
  {
    MergedMembers(ws, x);
    assert CountsNonNegative(ws);
    if IsUnknown(x) {
      UnknownCounts(ws, x);
      TotalNonNegative(ws, x.window);
    } else {
      NamedKept(ws);
      NamedMembers(Merged(ws), x);
      NamedMembers(ws, x);
    }
  }

  lemma {:induction false} NamedMembers(ws: seq<WindowCount>, x: WindowCount)
    ensures x in Named(ws) <==> x in ws && !IsUnknown(x)
  {
    if ws != [] {
      NamedMembers(ws[1..], x);
    }
  }

  /** Where a named entry lands among the named ones. */
  lemma {:induction false} NamedIndex(ws: seq<WindowCount>, i: nat) returns (k: nat)
    requires i < |ws| && !IsUnknown(ws[i])
    ensures k == |Named(ws[..i])| < |Named(ws)| && Named(ws)[k] == ws[i]
  {
    if i == 0 {
      k := 0;
    } else {
      k := NamedIndex(ws[1..], i - 1);
      assert ws[..i][1..] == ws[1..][..i - 1];
      if !IsUnknown(ws[0]) {
        k := k + 1;
      }
    }
  }

  lemma {:induction false} NamedIndexMonotone(ws: seq<WindowCount>, i: nat, j: nat)
    requires i < j <= |ws| && !IsUnknown(ws[i])
    ensures |Named(ws[..i])| < |Named(ws[..j])|
  {
    var k := NamedIndex(ws[..j], i);
    assert ws[..j][..i] == ws[..i];
  }

  // ----- negative counts -----

  lemma {:induction false} AddDrop(a: I64, ws: seq<WindowCount>, dropped: string, window: string)
    requires dropped != window
    ensures AddUnknown(a, DropUnknown(ws, dropped), window) == AddUnknown(a, ws, window)
    decreases |ws|
  {
    if ws != [] {
      var d := DropUnknown(ws, dropped);
      if UnknownOf(ws[0], dropped) {
        assert d == DropUnknown(ws[1..], dropped);
        AddDrop(a, ws[1..], dropped, window);
      } else {
        assert d[0] == ws[0] && d[1..] == DropUnknown(ws[1..], dropped);
        AddDrop(if UnknownOf(ws[0], window) then AddCount(a, ws[0].count) else a, ws[1..], dropped, window);
      }
    }
  }

  /** For any counts, an unknown entry of the merged list holds the machine sum of its window. */
  lemma {:induction false} MergedCount(ws: seq<WindowCount>, x: WindowCount)
    requires x in Merged(ws) && IsUnknown(x)
    ensures x.count == AddUnknown(0, ws, x.window)
    decreases |ws|
  {
    if IsUnknown(ws[0]) {
      var h := ws[0].window;
      var rest := DropUnknown(ws[1..], h);
      if x in Merged(rest) {
        MergedCount(rest, x);
        MergedMembers(rest, x);
        var y :| y in rest && y.window == x.window && y.reason == x.reason;
        DropMembers(ws[1..], h, y);
        AddDrop(0, ws[1..], h, x.window);
      } else {
        assert AddCount(0, ws[0].count) == ws[0].count;
      }
    } else {
      MergedCount(ws[1..], x);
    }
  }

  /** The window's unknown counts added to a as integers, capped at the int64 maximum after each step. */
  function Capped(a: int, ws: seq<WindowCount>, window: string): int
    decreases |ws|
  {
    if ws == [] then a
    else Capped(if UnknownOf(ws[0], window) then Min(a + ws[0].count, I64_MAX) else a, ws[1..], window)
  }

  /** No running sum falls below the int64 minimum. */
  predicate NeverBelow(a: int, ws: seq<WindowCount>, window: string)
    decreases |ws|
  {
    a >= I64_MIN &&
    (ws == [] || NeverBelow(if UnknownOf(ws[0], window) then Min(a + ws[0].count, I64_MAX) else a, ws[1..], window))
  }

  lemma {:induction false} SumIsCapped(a: I64, ws: seq<WindowCount>, window: string)
    requires NeverBelow(a, ws, window)
    ensures AddUnknown(a, ws, window) == Capped(a, ws, window)
    decreases |ws|
  {
    if ws != [] {
      if UnknownOf(ws[0], window) {
        assert AddCount(a, ws[0].count) == Min(a + ws[0].count, I64_MAX);
        SumIsCapped(AddCount(a, ws[0].count), ws[1..], window);
      } else {
        SumIsCapped(a, ws[1..], window);
      }
    }
  }

  /** No running sum rises above the int64 maximum. */
  predicate NeverAbove(a: int, ws: seq<WindowCount>, window: string)
    decreases |ws|
  {
    a <= I64_MAX && (ws == [] || NeverAbove(if UnknownOf(ws[0], window) then a + ws[0].count else a, ws[1..], window))
  }

  /** Without a cap the capped sum is the true one. */
  lemma {:induction false} CappedIsTotal(a: int, ws: seq<WindowCount>, window: string)
    requires NeverAbove(a, ws, window)
    ensures Capped(a, ws, window) == a + Total(ws, window)
    decreases |ws|
  {
    if ws != [] {
      CappedIsTotal(if UnknownOf(ws[0], window) then a + ws[0].count else a, ws[1..], window);
    }
  }

  /** The counts the sign check sees after the merge are all right though one before it is not. */
  predicate Hides(ws: seq<WindowCount>) {
    !CountsNonNegative(ws) && CountsNonNegative(Merged(ws))
  }

  /** An unknown entry of the merged list holds the capped sum of its window. */
  lemma {:induction false} MergedIsCapped(ws: seq<WindowCount>, x: WindowCount)
    requires forall i :: 0 <= i < |ws| && IsUnknown(ws[i]) ==> NeverBelow(0, ws, ws[i].window)
    requires x in Merged(ws) && IsUnknown(x)
    ensures exists i :: 0 <= i < |ws| && UnknownOf(ws[i], x.window) && x.count == Capped(0, ws, x.window)
  {
    MergedCount(ws, x);
    MergedMembers(ws, x);
    var y :| y in ws && y.window == x.window && y.reason == x.reason;
    var i :| 0 <= i < |ws| && ws[i] == y;
    SumIsCapped(0, ws, x.window);
  }

  /** The sign check comes after the merge. While no running sum falls below the int64 minimum, the merge
  hides a negative count exactly when no named count is negative and every window's capped sum is not. */
  lemma HidesExactly(ws: seq<WindowCount>)
    requires forall i :: 0 <= i < |ws| && IsUnknown(ws[i]) ==> NeverBelow(0, ws, ws[i].window)
    ensures Hides(ws) <==>
            && (exists i :: 0 <= i < |ws| && ws[i].count < 0)
            && CountsNonNegative(Named(ws))
            && forall i :: 0 <= i < |ws| && IsUnknown(ws[i]) ==> Capped(0, ws, ws[i].window) >= 0
  {
    var m := Merged(ws);
    NamedKept(ws);
    forall x | x in m ensures if IsUnknown(x) then exists i :: 0 <= i < |ws| && UnknownOf(ws[i], x.window) && x.count == Capped(0, ws, x.window)
                              else x in Named(ws) {
      NamedMembers(m, x);
      if IsUnknown(x) {
        MergedIsCapped(ws, x);
      }
    }
    forall x | x in Named(ws) ensures x in m {
      NamedMembers(m, x);
    }
    forall i | 0 <= i < |ws| && IsUnknown(ws[i]) ensures exists x :: x in m && UnknownOf(x, ws[i].window) {
      UnknownWindowKept(ws, ws[i]);
    }
  }

  /** Below the int64 minimum the machine sum wraps: from any list, a step that falls below it leaves a
  count that is not negative, and if it is the window's last step that is what the sign check sees. */
  lemma {:induction false} WrapHides(front: seq<WindowCount>, w: WindowCount, rest: seq<WindowCount>, x: WindowCount)
    requires IsUnknown(w) && forall i :: 0 <= i < |rest| ==> !UnknownOf(rest[i], w.window)
    requires AddUnknown(0, front, w.window) + w.count < I64_MIN
    requires x in Merged(front + [w] + rest) && UnknownOf(x, w.window)
    ensures x.count == AddUnknown(0, front, w.window) + w.count + 0x1_0000_0000_0000_0000 >= 0
  {
    MergedCount(front + [w] + rest, x);
    AddLast(front, w, rest);
  }

  lemma {:induction false} AddLast(front: seq<WindowCount>, w: WindowCount, rest: seq<WindowCount>)
    requires IsUnknown(w) && forall i :: 0 <= i < |rest| ==> !UnknownOf(rest[i], w.window)
    ensures AddUnknown(0, front + [w] + rest, w.window) == AddCount(AddUnknown(0, front, w.window), w.count)
  {
    var a := AddUnknown(0, front, w.window);
    assert front + [w] + rest == front + ([w] + rest);
    AddConcat(0, front, [w] + rest, w.window);
    assert ([w] + rest)[1..] == rest;
    AddNone(AddCount(a, w.count), rest, [], w.window);
    assert rest + [] == rest;
  }

  lemma {:induction false} AddConcat(a: I64, xs: seq<WindowCount>, ys: seq<WindowCount>, window: string)
    ensures AddUnknown(a, xs + ys, window) == AddUnknown(AddUnknown(a, xs, window), ys, window)
    decreases |xs|
  {
    if xs == [] {
      assert xs + ys == ys;
    } else {
      assert (xs + ys)[1..] == xs[1..] + ys;
      AddConcat(if UnknownOf(xs[0], window) then AddCount(a, xs[0].count) else a, xs[1..], ys, window);
    }
  }

  /** A witness: the validator refuses the entry and accepts the merged list. */
  lemma NegativeCountMasked()
    ensures var ws := [WindowCount("1h", UNKNOWN, -1), WindowCount("1h", UNKNOWN, 1)];
            !ValidWindow(ws[0]) && ValidWindows(Merged(ws))
  {
    var ws := [WindowCount("1h", UNKNOWN, -1), WindowCount("1h", UNKNOWN, 1)];
    assert ws[1..] == [ws[1]] && [ws[1]][1..] == [];
    assert AddUnknown(-1, [ws[1]], "1h") == AddUnknown(AddCount(-1, 1), [], "1h") == 0;
    assert DropUnknown([ws[1]], "1h") == [];
    assert Merged(ws) == [WindowCount("1h", UNKNOWN, 0)];
    assert "1h" == WINDOWS[0] && UNKNOWN == COUNTER_REASONS[6];
  }
}
