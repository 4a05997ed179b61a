/** Which request paths are not forwarded (litefs/usecases/path_exclusion_matcher.py). Glob matching is
    `fnmatch` on a case-sensitive platform; regular expressions and the contents of bracket
    expressions are parameters. */
module PathExclusion {
  import opened Wrappers
  import opened Text

  /** Compiling a pattern gives a matcher or an error; a bracket expression either accepts a character or not. */
  datatype Engine = Engine(compiles: string -> bool, regexMatches: (string, string) -> bool, inClass: (string, char) -> bool)

  // ---------- fnmatch ----------

  /** The index of the bracket that closes a class opened at 0, or |p|: a `!` and then a `]` right
      after the opening bracket do not close it. */
  function ClassEnd(p: string): (j: nat)
    requires p != []
    ensures 0 < j <= |p|
    ensures j < |p| ==> p[j] == ']' && j >= 2
  {
    var j := if |p| > 1 && p[1] == '!' then 2 else 1;
    var j := if j < |p| && p[j] == ']' then j + 1 else j;
    FindBracket(p, j)
  }

  function FindBracket(p: string, j: nat): (r: nat)
    requires j <= |p|
    ensures j <= r <= |p| && (r < |p| ==> p[r] == ']')
    decreases |p| - j
  {
    if j == |p| || p[j] == ']' then j else FindBracket(p, j + 1)
  }

  /** `fnmatch.fnmatchcase(s, p)`. */
  predicate Matches(e: Engine, p: string, s: string)
    decreases |p| + |s|
  {
    if p == [] then s == []
    else if p[0] == '*' then Matches(e, p[1..], s) || (s != [] && Matches(e, p, s[1..]))
    else if s == [] then false
    else if p[0] == '?' then Matches(e, p[1..], s[1..])
    else if p[0] == '[' && ClassEnd(p) < |p| then
      e.inClass(p[1..ClassEnd(p)], s[0]) && Matches(e, p[ClassEnd(p) + 1..], s[1..])
    else p[0] == s[0] && Matches(e, p[1..], s[1..])
  }

  // ---------- Patterns ----------

  const REGEX_PREFIX := "re:"

  /** The index of the first `**`, or |p|. */
  function StarsIndex(p: string): (k: nat)
    ensures k <= |p|
    ensures k < |p| ==> k + 2 <= |p| && p[k] == '*' && p[k + 1] == '*'
    ensures forall i :: 0 <= i < k && i + 1 < |p| ==> !(p[i] == '*' && p[i + 1] == '*')
  {
    if p == [] then 0
    else if |p| >= 2 && p[0] == '*' && p[1] == '*' then 0
    else StarsIndex(p[1..]) + 1
  }

  /** `p.replace("**", "*")`. */
  function Collapse(p: string): string
    decreases |p|
  {
    if p == [] then []
    else if |p| >= 2 && p[0] == '*' && p[1] == '*' then ['*'] + Collapse(p[2..])
    else [p[0]] + Collapse(p[1..])
  }

  /** `s.rstrip("/")`. */
  function StripSlashes(s: string): (r: string)
    ensures r <= s && (r != [] ==> r[|r| - 1] != '/')
    ensures forall i :: |r| <= i < |s| ==> s[i] == '/'
  {
    if s != [] && s[|s| - 1] == '/' then StripSlashes(s[..|s| - 1]) else s
  }

  /** The text before the first `**`, trailing slashes removed. */
  function Base(p: string): string {
    StripSlashes(p[..StarsIndex(p)])
  }

  predicate GlobExcludes(e: Engine, p: string, path: string) {
    if StarsIndex(p) < |p| then Matches(e, Collapse(p), path) || StartsWith(path, Base(p))
    else Matches(e, p, path)
  }

  predicate PatternExcludes(e: Engine, p: string, path: string) {
    if StartsWith(p, REGEX_PREFIX) then e.regexMatches(p[|REGEX_PREFIX|..], path) else GlobExcludes(e, p, path)
  }

  datatype Compiled = Compiled(pattern: string, regex: Option<string>)

  function CompileOne(p: string): Compiled {
    Compiled(p, if StartsWith(p, REGEX_PREFIX) then Some(p[|REGEX_PREFIX|..]) else None)
  }

  predicate Compilable(e: Engine, p: string) {
    StartsWith(p, REGEX_PREFIX) ==> e.compiles(p[|REGEX_PREFIX|..])
  }

  /** The constructor's loop: one entry for each pattern, in order, unless a regular expression is invalid. */
  method CompilePatterns(e: Engine, excludedPaths: seq<string>) returns (r: Result<seq<Compiled>, ()>)
    ensures r.Ok? <==> forall i :: 0 <= i < |excludedPaths| ==> Compilable(e, excludedPaths[i])
    ensures r.Ok? ==> |r.value| == |excludedPaths| &&
                      forall i :: 0 <= i < |excludedPaths| ==> r.value[i] == CompileOne(excludedPaths[i])
  {
    var compiled: seq<Compiled> := [];
    for i := 0 to |excludedPaths|
      invariant |compiled| == i
      invariant forall k :: 0 <= k < i ==> Compilable(e, excludedPaths[k]) && compiled[k] == CompileOne(excludedPaths[k])
    {
      var pattern := excludedPaths[i];
      if StartsWith(pattern, REGEX_PREFIX) {
        var regex := pattern[|REGEX_PREFIX|..];
        if !e.compiles(regex) {
          assert !Compilable(e, excludedPaths[i]);
          return Err(());
        }
        compiled := compiled + [Compiled(pattern, Some(regex))];
      } else {
        compiled := compiled + [Compiled(pattern, None)];
      }
    }
    return Ok(compiled);
  }

  predicate EntryExcludes(e: Engine, c: Compiled, path: string) {
    if c.regex.Some? then e.regexMatches(c.regex.value, path) else GlobExcludes(e, c.pattern, path)
  }

  /** The early-return scan. */
  predicate IsExcluded(e: Engine, compiled: seq<Compiled>, path: string) {
    compiled != [] && (EntryExcludes(e, compiled[0], path) || IsExcluded(e, compiled[1..], path))
  }

  lemma EntryIsPattern(e: Engine, p: string, path: string)
    ensures EntryExcludes(e, CompileOne(p), path) == PatternExcludes(e, p, path)
  {
  }

  /** A path is excluded when any of the configured patterns excludes it, in whatever order they are listed. */
  lemma {:induction false} ExclusionIsDisjunction(e: Engine, patterns: seq<string>, compiled: seq<Compiled>, path: string)
    requires |compiled| == |patterns| && forall i :: 0 <= i < |patterns| ==> compiled[i] == CompileOne(patterns[i])
    ensures IsExcluded(e, compiled, path) <==> exists p :: p in patterns && PatternExcludes(e, p, path)
  {
    if patterns != [] {
      ExclusionIsDisjunction(e, patterns[1..], compiled[1..], path);
      EntryIsPattern(e, patterns[0], path);
      assert patterns == [patterns[0]] + patterns[1..];
      if p :| p in patterns && PatternExcludes(e, p, path) {
        assert p == patterns[0] || p in patterns[1..];
      }
    }
  }

  // ---------- The double star ----------

  predicate Literal(s: string) {
    forall i :: 0 <= i < |s| ==> s[i] != '*' && s[i] != '?' && s[i] != '['
  }

  lemma {:induction false} CollapseKeepsLiteral(lit: string, rest: string)
    requires Literal(lit)
    ensures Collapse(lit + rest) == lit + Collapse(rest)
  {
    if lit == [] {
      assert lit + rest == rest;
    } else {
      assert (lit + rest)[1..] == lit[1..] + rest;
      CollapseKeepsLiteral(lit[1..], rest);
    }
  }

  lemma {:induction false} MatchStartsWithLiteral(e: Engine, lit: string, rest: string, s: string)
    requires Literal(lit) && Matches(e, lit + rest, s)
    ensures lit <= s
  {
    if lit != [] {
      assert (lit + rest)[0] == lit[0] && (lit + rest)[1..] == lit[1..] + rest;
      MatchStartsWithLiteral(e, lit[1..], rest, s[1..]);
      assert s == [s[0]] + s[1..];
    }
  }

  // ---------- What each kind of pattern matches ----------

  lemma {:induction false} LiteralMatches(e: Engine, lit: string, rest: string, s: string)
    requires Literal(lit)
    ensures Matches(e, lit + rest, s) <==> lit <= s && Matches(e, rest, s[|lit|..])
  {
    if lit == [] {
      assert lit + rest == rest;
    } else {
      assert (lit + rest)[0] == lit[0] && (lit + rest)[1..] == lit[1..] + rest;
      if s != [] && s[0] == lit[0] {
        LiteralMatches(e, lit[1..], rest, s[1..]);
        assert lit <= s <==> lit[1..] <= s[1..];
        assert lit <= s ==> s[1..][|lit| - 1..] == s[|lit|..];
      }
    }
  }

  /** A star stands for any text, slashes included. */
  lemma {:induction false} StarMatches(e: Engine, rest: string, s: string)
    ensures Matches(e, "*" + rest, s) <==> exists i: nat :: i <= |s| && Matches(e, rest, s[i..])
  {
    assert ("*" + rest)[1..] == rest;
    if s == [] {
      assert s[0..] == s;
      assert forall i: nat :: i <= |s| ==> s[i..] == s;
      assert Matches(e, "*" + rest, s) <==> Matches(e, rest, s[0..]);
    } else {
      StarMatches(e, rest, s[1..]);
      assert s[0..] == s;
      forall i: nat | 1 <= i <= |s| ensures s[i..] == s[1..][i - 1..] {}
      if Matches(e, "*" + rest, s[1..]) {
        var i: nat :| i <= |s[1..]| && Matches(e, rest, s[1..][i..]);
        assert s[i + 1..] == s[1..][i..];
      }
    }
  }

  lemma QuestionMatches(e: Engine, rest: string, s: string)
    ensures Matches(e, "?" + rest, s) <==> s != [] && Matches(e, rest, s[1..])
  {
    assert ("?" + rest)[1..] == rest;
  }

  /** Text that a bracket expression can hold: a closing bracket only in front, after a leading `!` if any. */
  predicate ClassText(cls: string) {
    && cls != [] && cls != "!"
    && forall i :: 0 <= i < |cls| && cls[i] == ']' ==> i == 0 || (i == 1 && cls[0] == '!')
  }

  lemma {:induction false} BracketAt(p: string, j: nat, end: nat)
    requires j <= end < |p| && p[end] == ']' && forall i :: j <= i < end ==> p[i] != ']'
    ensures FindBracket(p, j) == end
    decreases end - j
  {
    if j < end { BracketAt(p, j + 1, end); }
  }

  lemma ClassEndExact(cls: string, rest: string)
    requires ClassText(cls)
    ensures ClassEnd("[" + cls + "]" + rest) == |cls| + 1
  {
    var p, end := "[" + cls + "]" + rest, |cls| + 1;
    assert p[end] == ']' && forall i :: 1 <= i < end ==> p[i] == cls[i - 1];
    var j := if p[1] == '!' then 2 else 1;
    if p[j] == ']' {
      BracketAt(p, j + 1, end);
    } else {
      BracketAt(p, j, end);
    }
  }

  /** A bracket expression stands for one character, and the engine is asked about it with the text between
      the brackets. */
  lemma ClassMatches(e: Engine, cls: string, rest: string, s: string)
    requires ClassText(cls)
    ensures Matches(e, "[" + cls + "]" + rest, s) <==> s != [] && e.inClass(cls, s[0]) && Matches(e, rest, s[1..])
  {
    var p := "[" + cls + "]" + rest;
    ClassEndExact(cls, rest);
    assert p[0] == '[' && p[1..|cls| + 1] == cls && p[|cls| + 2..] == rest;
  }

  /** An opening bracket that is never closed stands for itself. */
  lemma UnclosedClassMatches(e: Engine, rest: string, s: string)
    requires ']' !in rest
    ensures Matches(e, "[" + rest, s) <==> s != [] && s[0] == '[' && Matches(e, rest, s[1..])
  {
    var p := "[" + rest;
    assert p[1..] == rest && forall i :: 1 <= i < |p| ==> p[i] == rest[i - 1];
  }

  lemma RegexPattern(e: Engine, regex: string, path: string)
    ensures PatternExcludes(e, "re:" + regex, path) == e.regexMatches(regex, path)
  {
    assert ("re:" + regex)[3..] == regex;
  }

  lemma NoStars(p: string)
    requires Literal(p)
    ensures StarsIndex(p) == |p|
  {
  }

  /** A pattern without special characters excludes the path that equals it, and no other. */
  lemma LiteralPattern(e: Engine, p: string, path: string)
    requires Literal(p) && !StartsWith(p, "re:")
    ensures PatternExcludes(e, p, path) <==> path == p
  {
    NoStars(p);
    assert p + "" == p;
    LiteralMatches(e, p, "", path);
    if p <= path && path[|p|..] == [] { assert path == p + path[|p|..]; }
  }

  lemma OneStarOnly(a: string, b: string)
    requires Literal(a) && Literal(b)
    ensures StarsIndex(a + ("*" + b)) == |a + ("*" + b)|
  {
    var p := a + ("*" + b);
    assert forall i :: 0 <= i < |a| ==> p[i] == a[i];
    assert forall i :: 0 <= i < |b| ==> p[|a| + 1 + i] == b[i];
  }

  /** One star between literal texts: the path begins with the first and ends with the second, apart. */
  lemma SingleStar(e: Engine, a: string, b: string, path: string)
    requires Literal(a) && Literal(b) && !StartsWith(a + ("*" + b), "re:")
    ensures PatternExcludes(e, a + ("*" + b), path) <==>
            |path| >= |a| + |b| && a <= path && path[|path| - |b|..] == b
  {
    OneStarOnly(a, b);
    LiteralMatches(e, a, "*" + b, path);
    if a <= path {
      var s := path[|a|..];
      StarMatches(e, b, s);
      forall i: nat | i <= |s| ensures Matches(e, b, s[i..]) <==> s[i..] == b { WholeLiteral(e, b, s[i..]); }
      if |s| >= |b| {
        assert s[|s| - |b|..] == path[|path| - |b|..];
      }
    }
  }

  lemma WholeLiteral(e: Engine, p: string, s: string)
    requires Literal(p)
    ensures Matches(e, p, s) <==> s == p
  {
    assert p + "" == p;
    LiteralMatches(e, p, "", s);
    if p <= s && s[|p|..] == [] { assert s == p + s[|p|..]; }
  }

  /** The documentation gives such a star one path segment; the code agrees exactly when what the star
      stands for holds no slash, or the path does not fit at all. */
  lemma SingleStarCrossesSegments(e: Engine, a: string, b: string, path: string)
    requires Literal(a) && Literal(b) && !StartsWith(a + ("*" + b), "re:")
    ensures var fits := |path| >= |a| + |b| && a <= path && path[|path| - |b|..] == b;
            (PatternExcludes(e, a + ("*" + b), path) <==> fits && '/' !in path[|a|..|path| - |b|]) <==>
            !(fits && '/' in path[|a|..|path| - |b|])
  {
    SingleStar(e, a, b, path);
  }

  // The documented one-segment pattern excludes a path two segments below.
  lemma StaticTreeExcluded(e: Engine, p: string, path: string)
    requires p == "/static/*" && path == "/static/css/site.css"
    ensures PatternExcludes(e, p, path)
  {
    var a, b := "/static/", "";
    assert p == a + ("*" + b) && p[0] == '/';
    assert path[..|a|] == a;
    SingleStar(e, a, b, path);
  }

  lemma CollapseStep(p: string)
    requires p != [] && StarsIndex(p) > 0
    ensures Collapse(p) == [p[0]] + Collapse(p[1..]) && StarsIndex(p) == StarsIndex(p[1..]) + 1
  {
  }

  lemma Spliced(p: string, k: nat, tail: string)
    requires 0 < k && k + 2 <= |p|
    ensures [p[0]] + (p[1..][..k - 1] + tail) == p[..k] + tail && p[1..][k + 1..] == p[k + 2..]
  {
  }

  /** Replacing `**` by `*`, from left to right. */
  lemma {:induction false} CollapseExact(p: string)
    ensures var k := StarsIndex(p);
            Collapse(p) == if k < |p| then p[..k] + ("*" + Collapse(p[k + 2..])) else p
  {
    var k := StarsIndex(p);
    if p != [] && k > 0 {
      CollapseStep(p);
      CollapseExact(p[1..]);
      hide Collapse;
      if k < |p| {
        Spliced(p, k, "*" + Collapse(p[k + 2..]));
      } else {
        assert [p[0]] + p[1..] == p;
      }
    }
  }

  predicate Contains(s: string, part: string) {
    exists i: nat :: i <= |s| && part <= s[i..]
  }

  lemma StarMatchesAll(e: Engine, s: string)
    ensures Matches(e, "*", s)
  {
    assert "*" + "" == "*";
    StarMatches(e, "", s);
    assert s[|s|..] == [] && Matches(e, "", s[|s|..]);
  }

  lemma StarTextStars(text: string, p: string)
    requires Literal(text) && text != [] && text[|text| - 1] != '/' && p == "*" + (text + "**")
    ensures StarsIndex(p) == |text| + 1 && Base(p) == "*" + text
  {
    var k := |text| + 1;
    assert p[0] == '*' && p[k] == '*' && p[k + 1] == '*' && forall i :: 1 <= i < k ==> p[i] == text[i - 1];
    assert p[..k] == "*" + text;
    assert StripSlashes(p[..k]) == p[..k];
  }

  lemma CollapsedStars(text: string, p: string)
    requires StarsIndex(p) == |text| + 1 && p == "*" + (text + "**")
    ensures Collapse(p) == "*" + (text + "*")
  {
    CollapseExact(p);
    assert p[..|text| + 1] == "*" + text && p[|text| + 3..] == [];
    assert Collapse([]) == [];
    hide Collapse;
    assert "*" + text + ("*" + []) == "*" + (text + "*");
  }

  lemma TextThenStar(e: Engine, text: string, s: string)
    requires Literal(text)
    ensures Matches(e, text + "*", s) <==> text <= s
  {
    LiteralMatches(e, text, "*", s);
    if text <= s { StarMatchesAll(e, s[|text|..]); }
  }

  lemma StarsAround(e: Engine, text: string, path: string)
    requires Literal(text)
    ensures Matches(e, "*" + (text + "*"), path) <==> Contains(path, text)
  {
    hide Matches;
    StarMatches(e, text + "*", path);
    forall i: nat | i <= |path| ensures Matches(e, text + "*", path[i..]) == (text <= path[i..]) {
      TextThenStar(e, text, path[i..]);
    }
  }

  /** With a star in front of the text, and so no literal base, the glob half of the branch decides: the
      path contains the text, or begins with the base, star included. */
  lemma DoubleStarAfterStar(e: Engine, text: string, p: string, path: string)
    requires Literal(text) && text != [] && text[|text| - 1] != '/' && p == "*" + (text + "**")
    ensures PatternExcludes(e, p, path) <==> Contains(path, text) || StartsWith(path, "*" + text)
  {
    StarTextStars(text, p);
    CollapsedStars(text, p);
    StarsAround(e, text, path);
    assert !StartsWith(p, REGEX_PREFIX) by { assert p[0] == '*'; }
    hide Collapse, StripSlashes, StarsIndex, Matches, Literal, Base, Contains, StartsWith;
  }

  lemma PrefixChain(a: string, b: string, c: string)
    requires a <= b && b <= c
    ensures StartsWith(c, a)
  {
  }

  lemma CollapsedMatchHasPrefix(e: Engine, lit: string, rest: string, path: string)
    requires Literal(lit) && Matches(e, Collapse(lit + rest), path)
    ensures lit <= path
  {
    CollapseKeepsLiteral(lit, rest);
    MatchStartsWithLiteral(e, lit, Collapse(rest), path);
  }

  /** When the text before the first `**` is literal, the whole branch is a plain prefix test on that
      text without its trailing slashes: whatever follows the `**` is ignored. */
  lemma DoubleStarIsPrefix(e: Engine, p: string, path: string)
    requires StarsIndex(p) < |p| && Literal(p[..StarsIndex(p)])
    ensures GlobExcludes(e, p, path) == StartsWith(path, Base(p))
  {
    hide Matches, Collapse, StarsIndex, StripSlashes;
    var lit, rest := p[..StarsIndex(p)], p[StarsIndex(p)..];
    assert p == lit + rest;
    if Matches(e, Collapse(p), path) {
      CollapsedMatchHasPrefix(e, lit, rest, path);
      PrefixChain(Base(p), lit, path);
    }
  }

  /** The base itself or something below it: what the documentation describes. */
  predicate AtOrBelow(base: string, path: string) {
    path == base || StartsWith(path, base + "/")
  }

  /** The branch agrees with the documented reading on exactly those paths that do not lengthen the
      last segment of the base. */
  lemma DoubleStarCrossesSegments(e: Engine, p: string, path: string)
    requires StarsIndex(p) < |p| && Literal(p[..StarsIndex(p)])
    ensures (GlobExcludes(e, p, path) <==> AtOrBelow(Base(p), path)) <==>
            !(StartsWith(path, Base(p)) && |path| > |Base(p)| && path[|Base(p)|] != '/')
  {
    DoubleStarIsPrefix(e, p, path);
    var base := Base(p);
    if StartsWith(path, base) && |path| > |base| {
      assert path[..|base| + 1] == base + [path[|base|]];
    }
    if StartsWith(path, base + "/") {
      assert path[..|base|] == (base + "/")[..|base|] == base;
    }
  }

  lemma BaseOfDirectory(base: string, rest: string, p: string)
    requires Literal(base) && (base != [] ==> base[|base| - 1] != '/') && p == base + ("/**" + rest)
    ensures StarsIndex(p) == |base| + 1 && Literal(p[..StarsIndex(p)]) && Base(p) == base
  {
    var k := |base| + 1;
    assert p[k] == '*' && p[k + 1] == '*';
    assert p[..k] == base + "/";
    var lit := base + "/";
    assert lit[|lit| - 1] == '/' && lit[..|lit| - 1] == base;
    assert StripSlashes(lit) == StripSlashes(base) == base;
  }

  /** A pattern written for a directory excludes every sibling whose name begins like that directory. */
  lemma SiblingExcluded(e: Engine, base: string, rest: string, suffix: string, p: string)
    requires Literal(base) && (base != [] ==> base[|base| - 1] != '/') && p == base + ("/**" + rest)
    requires suffix != [] && suffix[0] != '/'
    ensures GlobExcludes(e, p, base + suffix) && !AtOrBelow(Base(p), base + suffix)
  {
    BaseOfDirectory(base, rest, p);
    DoubleStarIsPrefix(e, p, base + suffix);
    assert (base + suffix)[..|base|] == base;
    assert (base + suffix)[|base|] == suffix[0];
  }

  lemma StaticFilesExcluded(e: Engine, p: string, path: string)
    requires p == "/static/**" && path == "/staticfiles"
    ensures GlobExcludes(e, p, path) && !AtOrBelow(Base(p), path)
  {
    var base, suffix := "/static", "files";
    assert path == base + suffix;
    SiblingExcluded(e, base, "", suffix, p);
  }
}
