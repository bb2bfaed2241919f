/** shellSplit: a registry line into words, the way a POSIX shell lexer does it. */
module ShellSplit {
  datatype Split = Words(words: seq<string>) | NoEscapedCharacter | NoClosingQuotation

  predicate Blank(c: char) {
    c == ' ' || c == '\t' || c == '\r' || c == '\n'
  }

  predicate Special(c: char) {
    Blank(c) || c == '\\' || c == '\'' || c == '"'
  }

  // ----- the lexer as a function of the text still to come -----

  function Front(words: seq<string>, r: Split): Split {
    if r.Words? then Words(words + r.words) else r
  }

  /** How many characters come before the next single quote. */
  function Quoted(s: string): (n: nat)
    ensures n <= |s|
  {
    if s == "" || s[0] == '\'' then 0 else 1 + Quoted(s[1..])
  }

  predicate Escapes(s: string) {
    |s| > 1 && s[0] == '\\' && (s[1] == '"' || s[1] == '\\')
  }

  datatype Double = Open | Closed(text: string, rest: string)

  /** A double-quoted text, after its opening quote, added to what is read so far. */
  function Doubled(s: string, cur: string): (r: Double)
    ensures r.Closed? ==> |r.rest| < |s|
    decreases |s|
  {
    if s == "" then Open
    else if s[0] == '"' then Closed(cur, s[1..])
    else if Escapes(s) then Doubled(s[2..], cur + [s[1]])
    else Doubled(s[1..], cur + [s[0]])
  }

  function Lex(s: string, cur: string, inWord: bool): Split
    decreases |s|
  {
    if s == "" then Words(if inWord then [cur] else [])
    else if Blank(s[0]) then
      if inWord then Front([cur], Lex(s[1..], "", false)) else Lex(s[1..], cur, false)
    else if s[0] == '\\' then
      if |s| == 1 then NoEscapedCharacter else Lex(s[2..], cur + [s[1]], true)
    else if s[0] == '\'' then
      var n := 1 + Quoted(s[1..]);
      if n >= |s| then NoClosingQuotation else Lex(s[n + 1..], cur + s[1..n], true)
    else if s[0] == '"' then
      var d := Doubled(s[1..], cur);
      if d.Open? then NoClosingQuotation else Lex(d.rest, d.text, true)
    else Lex(s[1..], cur + [s[0]], true)
  }

  // ----- the code -----

  /** The inner loop of a single-quoted text. */
  method ScanSingle(s: string, i: nat) returns (j: nat)
    requires i < |s|
    ensures i < j <= |s| && j == i + 1 + Quoted(s[i + 1..])
  {
    j := i + 1;
    while j < |s| && s[j] != '\''
      invariant i < j <= |s|
      invariant i + 1 + Quoted(s[i + 1..]) == j + Quoted(s[j..])
    {
      assert s[j..][1..] == s[j + 1..];
      j := j + 1;
    }
  }

  /** The inner loop of a double-quoted text. */
  method ScanDouble(s: string, i: nat, before: string) returns (j: nat, cur: string)
    requires i < |s|
    ensures i < j <= |s|
    ensures Doubled(s[i + 1..], before) == if j == |s| then Open else Closed(cur, s[j + 1..])
  {
    j, cur := i + 1, before;
    while j < |s| && s[j] != '"'
      invariant i < j <= |s|
      invariant Doubled(s[i + 1..], before) == Doubled(s[j..], cur)
    {
      assert s[j..][1..] == s[j + 1..];
      if s[j] == '\\' && j + 1 < |s| && (s[j + 1] == '"' || s[j + 1] == '\\') {
        assert s[j..][2..] == s[j + 2..];
        j := j + 1;
      }
      cur := cur + [s[j]];
      j := j + 1;
    }
    assert j < |s| ==> s[j..][1..] == s[j + 1..];
  }

  /** shellSplit as written. */
  method ComputeSplit(s: string) returns (r: Split)
    ensures r == Lex(s, "", false)
  {
    var words: seq<string>, cur, inWord, i := [], "", false, 0;
    assert s[0..] == s;
    while i < |s|
      invariant 0 <= i <= |s|
      invariant inWord || cur == ""
      invariant Front(words, Lex(s[i..], cur, inWord)) == Lex(s, "", false)
    {
      var ch := s[i];
      assert s[i..][1..] == s[i + 1..];
      if ch == ' ' || ch == '\t' || ch == '\r' || ch == '\n' {
        if inWord {
          FrontAgain(words, [cur], Lex(s[i + 1..], "", false));
          words, cur, inWord := words + [cur], "", false;
        }
      } else if ch == '\\' {
        if i + 1 >= |s| {
          return NoEscapedCharacter;
        }
        assert s[i..][2..] == s[i + 2..];
        i := i + 1;
        cur, inWord := cur + [s[i]], true;
      } else if ch == '\'' {
        var j := ScanSingle(s, i);
        if j >= |s| {
          return NoClosingQuotation;
        }
        SingleStep(s, i, j);
        cur, i, inWord := cur + s[i + 1..j], j, true;
      } else if ch == '"' {
        var j, text := ScanDouble(s, i, cur);
        if j >= |s| {
          return NoClosingQuotation;
        }
        cur, i, inWord := text, j, true;
      } else {
        cur, inWord := cur + [ch], true;
      }
      i := i + 1;
    }
    assert s[i..] == "";
    if inWord {
      words := words + [cur];
    }
    r := Words(words);
  }

  lemma FrontAgain(a: seq<string>, b: seq<string>, r: Split)
    ensures Front(a, Front(b, r)) == Front(a + b, r)
  {
    if r.Words? {
      assert a + (b + r.words) == a + b + r.words;
    }
  }

  lemma SingleStep(s: string, i: nat, j: nat)
    requires i < j < |s| && j == i + 1 + Quoted(s[i + 1..])
    ensures s[i..][1..j - i] == s[i + 1..j] && s[i..][j - i + 1..] == s[j + 1..]
  {
  }

  // ----- every quoting of every word is read back -----

  /** The ways to write a piece of a word. */
  datatype Piece =
    | Plain(c: char)
    | Escaped(c: char)
    | Single(text: string)
    | DoubleQuoted(text: string)

  predicate Writable(p: Piece) {
    match p
    case Plain(c) => !Special(c)
    case Escaped(_) => true
    case Single(text) => '\'' !in text
    case DoubleQuoted(_) => true
  }

  function Meaning(p: Piece): string {
    match p
    case Plain(c) => [c]
    case Escaped(c) => [c]
    case Single(text) => text
    case DoubleQuoted(text) => text
  }

  /** Inside double quotes, a quote and a backslash are written with a backslash. */
  function Guarded(text: string): string {
    if text == "" then ""
    else (if text[0] == '"' || text[0] == '\\' then ['\\', text[0]] else [text[0]]) + Guarded(text[1..])
  }

  function Written(p: Piece): string {
    match p
    case Plain(c) => [c]
    case Escaped(c) => ['\\', c]
    case Single(text) => "'" + text + "'"
    case DoubleQuoted(text) => "\"" + Guarded(text) + "\""
  }

  function WrittenWord(ps: seq<Piece>): string {
    if ps == [] then "" else Written(ps[0]) + WrittenWord(ps[1..])
  }

  function WordMeaning(ps: seq<Piece>): string {
    if ps == [] then "" else Meaning(ps[0]) + WordMeaning(ps[1..])
  }

  /** A word and the blanks after it. */
  datatype Item = Item(pieces: seq<Piece>, gap: string)

  predicate Blanks(s: string) {
    forall i :: 0 <= i < |s| ==> Blank(s[i])
  }

  /** A line: words of at least one piece, with blanks between any two. */
  predicate IsLine(items: seq<Item>) {
    forall i :: 0 <= i < |items| ==>
      && items[i].pieces != [] && (forall k :: 0 <= k < |items[i].pieces| ==> Writable(items[i].pieces[k]))
      && Blanks(items[i].gap)
      && (i + 1 < |items| ==> items[i].gap != "")
  }

  function WrittenLine(items: seq<Item>): string {
    if items == [] then ""
    else WrittenWord(items[0].pieces) + items[0].gap + WrittenLine(items[1..])
  }

  function LineMeaning(items: seq<Item>): seq<string> {
    if items == [] then [] else [WordMeaning(items[0].pieces)] + LineMeaning(items[1..])
  }

  lemma {:induction false} ReadSingle(text: string, rest: string)
    requires '\'' !in text
    ensures Quoted(text + "'" + rest) == |text|
  {
    var s := text + "'" + rest;
    if text != "" {
      assert forall c :: c in text[1..] ==> c in text;
      ReadSingle(text[1..], rest);
      assert s[1..] == text[1..] + "'" + rest;
      assert s[0] == text[0] && text[0] in text;
    }
  }

  lemma {:induction false} ReadDouble(text: string, cur: string, rest: string)
    ensures Doubled(Guarded(text) + "\"" + rest, cur) == Closed(cur + text, rest)
    decreases |text|
  {
    var s := Guarded(text) + "\"" + rest;
    if text == "" {
      assert s[1..] == rest && cur + text == cur;
    } else {
      var more := Guarded(text[1..]) + "\"" + rest;
      ReadDouble(text[1..], cur + [text[0]], rest);
      assert cur + [text[0]] + text[1..] == cur + text;
      if text[0] == '"' || text[0] == '\\' {
        assert s == ['\\', text[0]] + more;
        DoubledEscape(text[0], more, cur);
      } else {
        assert s == [text[0]] + more;
        assert s[1..] == more;
      }
    }
  }

  lemma {:induction false} DoubledEscape(c: char, more: string, cur: string)
    requires c == '"' || c == '\\'
    ensures Doubled(['\\', c] + more, cur) == Doubled(more, cur + [c])
  {
    assert (['\\', c] + more)[2..] == more;
  }

  lemma {:induction false} ReadPiece(p: Piece, cur: string, inWord: bool, rest: string)
    requires Writable(p)
    ensures Lex(Written(p) + rest, cur, inWord) == Lex(rest, cur + Meaning(p), true)
  {
    match p
    case Plain(c) => assert ([c] + rest)[1..] == rest;
    case Escaped(c) => assert (['\\', c] + rest)[2..] == rest;
    case Single(text) => LexSingle(text, cur, inWord, rest);
    case DoubleQuoted(text) => LexDouble(text, cur, inWord, rest);
  }

  lemma {:induction false} LexSingle(text: string, cur: string, inWord: bool, rest: string)
    requires '\'' !in text
    ensures Lex(Written(Single(text)) + rest, cur, inWord) == Lex(rest, cur + text, true)
  {
    var s := Written(Single(text)) + rest;
    ReadSingle(text, rest);
    assert s[0] == '\'' && s[1..] == text + "'" + rest;
    assert s[1..1 + |text|] == text && s[2 + |text|..] == rest;
  }

  lemma {:induction false} LexDouble(text: string, cur: string, inWord: bool, rest: string)
    ensures Lex(Written(DoubleQuoted(text)) + rest, cur, inWord) == Lex(rest, cur + text, true)
  {
    var s := Written(DoubleQuoted(text)) + rest;
    ReadDouble(text, cur, rest);
    assert s[0] == '"' && s[1..] == Guarded(text) + "\"" + rest;
  }

  lemma {:induction false} ReadWord(ps: seq<Piece>, cur: string, inWord: bool, rest: string)
    requires forall k :: 0 <= k < |ps| ==> Writable(ps[k])
    ensures Lex(WrittenWord(ps) + rest, cur, inWord) == Lex(rest, cur + WordMeaning(ps), inWord || ps != [])
    decreases ps
  {
    if ps == [] {
      assert WrittenWord(ps) + rest == rest && cur + WordMeaning(ps) == cur;
    } else {
      var more := WrittenWord(ps[1..]) + rest;
      assert WrittenWord(ps) + rest == Written(ps[0]) + more;
      ReadPiece(ps[0], cur, inWord, more);
      ReadWord(ps[1..], cur + Meaning(ps[0]), true, rest);
      assert cur + Meaning(ps[0]) + WordMeaning(ps[1..]) == cur + WordMeaning(ps);
    }
  }

  lemma {:induction false} SkipBlanks(gap: string, rest: string)
    requires Blanks(gap)
    ensures Lex(gap + rest, "", false) == Lex(rest, "", false)
  {
    if gap == "" {
      assert gap + rest == rest;
    } else {
      assert (gap + rest)[1..] == gap[1..] + rest;
      SkipBlanks(gap[1..], rest);
    }
  }

  lemma {:induction false} EndWord(cur: string, gap: string, rest: string)
    requires Blanks(gap) && (gap != "" || rest == "")
    ensures Lex(gap + rest, cur, true) == Front([cur], Lex(rest, "", false))
  {
    if gap == "" {
      assert gap + rest == "";
    } else {
      assert (gap + rest)[1..] == gap[1..] + rest;
      SkipBlanks(gap[1..], rest);
    }
  }

  /** Whatever mix of bare, escaped, single-quoted and double-quoted pieces the words are written in, and
  whatever blanks stand around them, the lexer gives the words back. Empty quotes make an empty word. */
  lemma {:induction false} SplitRoundTrip(lead: string, items: seq<Item>)
    requires Blanks(lead) && IsLine(items)
    ensures Lex(lead + WrittenLine(items), "", false) == Words(LineMeaning(items))
    decreases items
  {
    SkipBlanks(lead, WrittenLine(items));
    if items != [] {
      var rest := WrittenLine(items[1..]);
      LineTail(items);
      ReadItem(items[0], rest);
      SplitRoundTrip("", items[1..]);
      assert "" + rest == rest;
    }
  }

  /** One word and the blanks after it. */
  lemma {:induction false} ReadItem(item: Item, rest: string)
    requires IsLine([item]) && (item.gap != "" || rest == "")
    ensures Lex(WrittenWord(item.pieces) + item.gap + rest, "", false) ==
            Front([WordMeaning(item.pieces)], Lex(rest, "", false))
  {
    var word := WrittenWord(item.pieces);
    assert [item][0] == item;
    assert word + item.gap + rest == word + (item.gap + rest);
    ReadWord(item.pieces, "", false, item.gap + rest);
    assert "" + WordMeaning(item.pieces) == WordMeaning(item.pieces);
    EndWord(WordMeaning(item.pieces), item.gap, rest);
  }

  lemma LineTail(items: seq<Item>)
    requires items != [] && IsLine(items)
    ensures IsLine([items[0]]) && IsLine(items[1..])
    ensures items[0].gap != "" || WrittenLine(items[1..]) == ""
  {
    assert forall i :: 0 <= i < |items[1..]| ==> items[1..][i] == items[i + 1];
  }

  /** A line that starts with something else than a blank has a first word, so the registry may take it. */
  lemma {:induction false} FirstWord(s: string)
    requires s != "" && !Blank(s[0])
    ensures Lex(s, "", false).Words? ==> Lex(s, "", false).words != []
  {
    OpenWord(s, "", false);
  }

  lemma {:induction false} OpenWord(s: string, cur: string, inWord: bool)
    requires inWord || (s != "" && !Blank(s[0]))
    ensures Lex(s, cur, inWord).Words? ==> Lex(s, cur, inWord).words != []
    decreases |s|
  {
    if s == "" || Blank(s[0]) {
    } else if s[0] == '\\' {
      if |s| > 1 {
        OpenWord(s[2..], cur + [s[1]], true);
      }
    } else if s[0] == '\'' {
      var n := 1 + Quoted(s[1..]);
      if n < |s| {
        OpenWord(s[n + 1..], cur + s[1..n], true);
      }
    } else if s[0] == '"' {
      var d := Doubled(s[1..], cur);
      if d.Closed? {
        OpenWord(d.rest, d.text, true);
      }
    } else {
      OpenWord(s[1..], cur + [s[0]], true);
    }
  }
}
