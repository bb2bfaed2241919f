/** Artifact file paths: one path at a time, split at "/" into components. A string here is the path's
bytes, one character each. */
module Paths {
  import opened Splitting
  import opened Vocabulary

  const MAX_PATH_DEPTH := 8
  const MAX_COMPONENT_BYTES := 255
  const MAX_PATH_BYTES := MAX_PATH_DEPTH * (MAX_COMPONENT_BYTES + 1)

  const CODE_EXTENSIONS: seq<string> :=
    [".py", ".pyc", ".bin", ".pt", ".pth", ".pkl", ".pickle", ".ckpt", ".so", ".dylib"]

  datatype Fault =
    | TooLong | Empty | Absolute | Charset | TooDeep
    | BadComponent | ReservedComponent | ComponentTooLong | CodeFile

  function Components(p: string): (cs: seq<string>)
    ensures |cs| > 0
  {
    Split(p, '/')
  }

  predicate PathByte(b: char) {
    'a' <= b <= 'z' || 'A' <= b <= 'Z' || '0' <= b <= '9' || b == '.' || b == '_' || b == '-' || b == '/'
  }

  function FoldChar(c: char): char {
    if 'A' <= c <= 'Z' then (c as int + 32) as char else c
  }

  function Fold(p: string): (f: string)
    ensures |f| == |p| && forall i :: 0 <= i < |p| ==> f[i] == FoldChar(p[i])
  {
    seq(|p|, i requires 0 <= i < |p| => FoldChar(p[i]))
  }

  predicate NamesNothing(c: string) {
    c == "" || c == "." || c == ".."
  }

  predicate Reserved(c: string) {
    ".." <= c || "._" <= c
  }

  ghost predicate EndsWith(s: string, end: string) {
    exists stem :: s == stem + end
  }

  /** The folded name ends in an extension of code. */
  ghost predicate NamesCode(c: string) {
    var f := Fold(c);
    || EndsWith(f, ".py") || EndsWith(f, ".pyc") || EndsWith(f, ".bin") || EndsWith(f, ".pt") || EndsWith(f, ".pth")
    || EndsWith(f, ".pkl") || EndsWith(f, ".pickle") || EndsWith(f, ".ckpt") || EndsWith(f, ".so") || EndsWith(f, ".dylib")
  }

  /** What is wrong with a component: the first of the three that applies. */
  predicate BreaksComponent(c: string, fault: Fault) {
    match fault
    case BadComponent => NamesNothing(c)
    case ReservedComponent => !NamesNothing(c) && Reserved(c)
    case ComponentTooLong => !NamesNothing(c) && !Reserved(c) && |c| > 255
    case _ => false
  }

  /** What each fault says of a path. */
  ghost predicate Breaks(p: string, fault: Fault) {
    var cs := Components(p);
    match fault
    case TooLong => |p| > 2048
    case Empty => p == ""
    case Absolute => "/" <= p
    case Charset => exists i :: 0 <= i < |p| && !PathByte(p[i])
    case TooDeep => |cs| > 8
    case CodeFile => NamesCode(cs[|cs| - 1])
    case _ => exists i :: 0 <= i < |cs| && BreaksComponent(cs[i], fault)
  }

  /** The order in which the rules are checked. */
  function Rank(fault: Fault): nat {
    match fault
    case TooLong => 0
    case Empty => 1
    case Absolute => 2
    case Charset => 3
    case TooDeep => 4
    case CodeFile => 6
    case _ => 5
  }

  predicate FirstAt(cs: seq<string>, i: nat, fault: Fault) {
    && i < |cs| && BreaksComponent(cs[i], fault)
    && forall k, f :: 0 <= k < i ==> !BreaksComponent(cs[k], f)
  }

  /** The path breaks this rule and none checked before it; a component fault is the first component's. */
  ghost predicate FirstBroken(p: string, fault: Fault) {
    && Breaks(p, fault)
    && (forall f :: Rank(f) < Rank(fault) ==> !Breaks(p, f))
    && (Rank(fault) == 5 ==> exists i :: FirstAt(Components(p), i, fault))
  }

  ghost predicate ValidPath(p: string) {
    forall fault :: !Breaks(p, fault)
  }

  /** The per-component switch, over the components in turn. */
  method CheckComponents(cs: seq<string>) returns (fault: Option<Fault>)
    ensures fault.Some? ==> Rank(fault.value) == 5 && exists i :: FirstAt(cs, i, fault.value)
    ensures fault.None? ==> forall i, f :: 0 <= i < |cs| ==> !BreaksComponent(cs[i], f)
  {
    for i := 0 to |cs|
      invariant forall k, f :: 0 <= k < i ==> !BreaksComponent(cs[k], f)
    {
      var c := cs[i];
      if c == "" || c == "." || c == ".." {
        assert FirstAt(cs, i, BadComponent);
        return Some(BadComponent);
      } else if ".." <= c || "._" <= c {
        assert FirstAt(cs, i, ReservedComponent);
        return Some(ReservedComponent);
      } else if |c| > MAX_COMPONENT_BYTES {
        assert FirstAt(cs, i, ComponentTooLong);
        return Some(ComponentTooLong);
      }
    }
    fault := None;
  }

  lemma SuffixEnds(s: string, end: string)
    ensures HasSuffix(s, end) <==> EndsWith(s, end)
  {
    if HasSuffix(s, end) {
      assert s == s[..|s| - |end|] + end;
    }
  }

  lemma CodeExtensions(f: string)
    ensures (exists i :: 0 <= i < |CODE_EXTENSIONS| && HasSuffix(f, CODE_EXTENSIONS[i])) <==>
            || HasSuffix(f, ".py") || HasSuffix(f, ".pyc") || HasSuffix(f, ".bin") || HasSuffix(f, ".pt")
            || HasSuffix(f, ".pth") || HasSuffix(f, ".pkl") || HasSuffix(f, ".pickle") || HasSuffix(f, ".ckpt")
            || HasSuffix(f, ".so") || HasSuffix(f, ".dylib")
  {
    var x := CODE_EXTENSIONS;
    assert (exists i :: 0 <= i < |x| && HasSuffix(f, x[i])) <==>
           || HasSuffix(f, x[0]) || HasSuffix(f, x[1]) || HasSuffix(f, x[2]) || HasSuffix(f, x[3]) || HasSuffix(f, x[4])
           || HasSuffix(f, x[5]) || HasSuffix(f, x[6]) || HasSuffix(f, x[7]) || HasSuffix(f, x[8]) || HasSuffix(f, x[9]);
  }

  lemma CodeNames(c: string)
    ensures NamesCode(c) <==> exists i :: 0 <= i < |CODE_EXTENSIONS| && HasSuffix(Fold(c), CODE_EXTENSIONS[i])
  {
    CodeExtensions(Fold(c));
    SuffixEnds(Fold(c), ".py");
    SuffixEnds(Fold(c), ".pyc");
    SuffixEnds(Fold(c), ".bin");
    SuffixEnds(Fold(c), ".pt");
    SuffixEnds(Fold(c), ".pth");
    SuffixEnds(Fold(c), ".pkl");
    SuffixEnds(Fold(c), ".pickle");
    SuffixEnds(Fold(c), ".ckpt");
    SuffixEnds(Fold(c), ".so");
    SuffixEnds(Fold(c), ".dylib");
  }

  /** Folding turns the twenty-six capitals into their small letters and leaves the rest. */
  lemma FoldsCapitals(c: char)
    ensures var small, capital := "abcdefghijklmnopqrstuvwxyz", "ABCDEFGHIJKLMNOPQRSTUVWXYZ";
            (exists k :: 0 <= k < 26 && c == capital[k] && FoldChar(c) == small[k]) || (c !in capital && FoldChar(c) == c)
  {
    var small, capital := "abcdefghijklmnopqrstuvwxyz", "ABCDEFGHIJKLMNOPQRSTUVWXYZ";
    if 'A' <= c <= 'Z' {
      var k := c as int - 'A' as int;
      assert c == capital[k] && FoldChar(c) == small[k];
    }
  }

  method CheckName(c: string) returns (code: bool)
    ensures code <==> NamesCode(c)
  {
    CodeNames(c);
    var name := Fold(c);
    for i := 0 to |CODE_EXTENSIONS|
      invariant forall k :: 0 <= k < i ==> !HasSuffix(name, CODE_EXTENSIONS[k])
    {
      if HasSuffix(name, CODE_EXTENSIONS[i]) {
        return true;
      }
    }
    code := false;
  }

  method CheckBytes(p: string) returns (ok: bool)
    ensures ok <==> forall i :: 0 <= i < |p| ==> PathByte(p[i])
  {
    for i := 0 to |p|
      invariant forall k :: 0 <= k < i ==> PathByte(p[k])
    {
      var b := p[i];
      if !('a' <= b <= 'z' || 'A' <= b <= 'Z' || '0' <= b <= '9' || b == '.' || b == '_' || b == '-' || b == '/') {
        return false;
      }
    }
    ok := true;
  }

  /** ValidatePath accepts exactly the valid paths and reports the first rule the path breaks. */
  method ValidatePath(p: string) returns (fault: Option<Fault>)
    ensures fault.Some? ==> FirstBroken(p, fault.value)
    ensures fault.None? <==> ValidPath(p)
  {
    if |p| > MAX_PATH_BYTES {
      assert Breaks(p, TooLong);
      return Some(TooLong);
    }
    if p == "" {
      assert Breaks(p, Empty);
      return Some(Empty);
    }
    if p[0] == '/' {
      assert Breaks(p, Absolute);
      return Some(Absolute);
    }
    var charset := CheckBytes(p);
    if !charset {
      assert Breaks(p, Charset);
      return Some(Charset);
    }
    JoinOfSplit(p, '/');
    if Count(p, '/') + 1 > MAX_PATH_DEPTH {
      assert Breaks(p, TooDeep);
      return Some(TooDeep);
    }
    var cs := Components(p);
    fault := CheckComponents(cs);
    if fault.Some? {
      ghost var i :| FirstAt(cs, i, fault.value);
      assert Breaks(p, fault.value);
      return;
    }
    var code := CheckName(cs[|cs| - 1]);
    if code {
      assert Breaks(p, CodeFile);
      return Some(CodeFile);
    }
    forall f ensures !Breaks(p, f) {
    }
  }
}
