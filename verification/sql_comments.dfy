/** What comment stripping does to whole statements: the two passes together remove exactly the
    comments, although each of them sees only one kind. */
module SqlComments {
  import opened Text
  import opened SqlDetector

  predicate NoBlockOpener(s: string) {
    forall i :: 0 <= i < |s| - 1 ==> !(s[i] == '/' && s[i + 1] == '*')
  }

  predicate NoLineOpener(s: string) {
    forall i :: 0 <= i < |s| - 1 ==> !(s[i] == '-' && s[i + 1] == '-')
  }

  predicate NoBlockClose(s: string) {
    forall i :: 0 <= i < |s| - 1 ==> !(s[i] == '*' && s[i + 1] == '/')
  }

  predicate NoNewline(s: string) {
    forall i :: 0 <= i < |s| ==> s[i] != '\n'
  }

  predicate EndsWith(s: string, c: char) {
    s != [] && s[|s| - 1] == c
  }

  predicate Begins(s: string, c: char) {
    s != [] && s[0] == c
  }

  // ---------- One pass over one stretch of text ----------

  lemma {:induction false} BlocksKeepPlain(p: string, rest: string)
    requires NoBlockOpener(p) && !(EndsWith(p, '/') && Begins(rest, '*'))
    ensures StripBlocks(p + rest) == p + StripBlocks(rest)
  {
    if p == [] {
      assert p + rest == rest;
    } else {
      var s := p + rest;
      assert s[1..] == p[1..] + rest;
      assert !OpensBlock(s);
      BlocksKeepPlain(p[1..], rest);
      assert [p[0]] + (p[1..] + StripBlocks(rest)) == p + StripBlocks(rest);
    }
  }

  lemma {:induction false} LinesKeepPlain(p: string, rest: string)
    requires NoLineOpener(p) && !(EndsWith(p, '-') && Begins(rest, '-'))
    ensures StripLines(p + rest) == p + StripLines(rest)
  {
    if p == [] {
      assert p + rest == rest;
    } else {
      var s := p + rest;
      assert s[1..] == p[1..] + rest;
      assert !OpensLine(s);
      LinesKeepPlain(p[1..], rest);
      assert [p[0]] + (p[1..] + StripLines(rest)) == p + StripLines(rest);
    }
  }

  lemma BlockDisappears(body: string, rest: string)
    requires NoBlockClose(body)
    ensures StripBlocks("/*" + body + "*/" + rest) == StripBlocks(rest)
  {
    var inner := body + "*/" + rest;
    var s := "/*" + body + "*/" + rest;
    assert s[2..] == inner;
    CloseAfter(body, rest);
    assert s[2 + |body| + 2..] == rest;
    hide CloseIndex;
  }

  /** Text without a closing mark has no block comment: an unclosed one stays in the statement. */
  lemma {:induction false} UnclosedStays(s: string)
    requires NoBlockClose(s)
    ensures StripBlocks(s) == s
  {
    if s != [] {
      UnclosedStays(s[1..]);
      assert [s[0]] + s[1..] == s;
    }
  }

  lemma CloseAfter(body: string, rest: string)
    requires NoBlockClose(body)
    ensures CloseIndex(body + "*/" + rest) == |body|
  {
    var inner := body + "*/" + rest;
    assert inner[|body|] == '*' && inner[|body| + 1] == '/';
    hide CloseIndex;
  }

  lemma LineDisappears(body: string, rest: string)
    requires NoNewline(body)
    ensures StripLines("--" + body + "\n" + rest) == "\n" + StripLines(rest)
    ensures StripLines("--" + body) == ""
  {
    var s := "--" + body + "\n" + rest;
    assert s[2 + |body|] == '\n';
    assert forall i :: 0 <= i < 2 + |body| ==> s[i] != '\n';
    assert NewlineIndex(s) == 2 + |body|;
    assert s[2 + |body| + 1..] == rest;
    var t := "--" + body;
    assert forall i :: 0 <= i < |t| ==> t[i] != '\n';
    assert NewlineIndex(t) == |t|;
  }

  // ---------- Whole statements ----------

  /** A statement as stretches of plain text separated by comments. */
  datatype Doc =
    | End(plain: string)
    | EndLine(plain: string, body: string)
    | Block(plain: string, body: string, rest: Doc)
    | Line(plain: string, body: string, rest: Doc)

  function Render(d: Doc): string {
    match d
    case End(plain) => plain
    case EndLine(plain, body) => plain + ("--" + body)
    case Block(plain, body, rest) => plain + ("/*" + body + "*/" + Render(rest))
    case Line(plain, body, rest) => plain + ("--" + body + "\n" + Render(rest))
  }

  /** The plain text and the line comments' newlines. */
  function Visible(d: Doc): string {
    match d
    case End(plain) => plain
    case EndLine(plain, _) => plain
    case Block(plain, _, rest) => plain + Visible(rest)
    case Line(plain, _, rest) => plain + ("\n" + Visible(rest))
  }

  /** The statement without its block comments. */
  function WithoutBlocks(d: Doc): string {
    match d
    case End(plain) => plain
    case EndLine(plain, body) => plain + ("--" + body)
    case Block(plain, _, rest) => plain + WithoutBlocks(rest)
    case Line(plain, body, rest) => plain + ("--" + body + "\n" + WithoutBlocks(rest))
  }

  predicate PlainOk(plain: string) {
    NoBlockOpener(plain) && NoLineOpener(plain)
  }

  predicate LineBodyOk(body: string) {
    NoNewline(body) && NoBlockOpener(body)
  }

  /** Plain text holds no opener and, before a comment, does not end in a dash that could join the
      dashes after it; a block body does not close early; a line body holds no newline and no
      block opener, which the first pass would see. */
  predicate Regular(d: Doc) {
    match d
    case End(plain) => PlainOk(plain)
    case EndLine(plain, body) => PlainOk(plain) && !EndsWith(plain, '-') && LineBodyOk(body)
    case Block(plain, body, rest) => PlainOk(plain) && !EndsWith(plain, '-') && NoBlockClose(body) && Regular(rest)
    case Line(plain, body, rest) => PlainOk(plain) && !EndsWith(plain, '-') && LineBodyOk(body) && Regular(rest)
  }

  lemma LineSurvivesBlocks(body: string, rest: string)
    requires LineBodyOk(body)
    ensures StripBlocks("--" + body + "\n" + rest) == "--" + body + "\n" + StripBlocks(rest)
    ensures StripBlocks("--" + body) == "--" + body
  {
    var t := "--" + body + "\n";
    assert NoBlockOpener(t);
    BlocksKeepPlain(t, rest);
    assert NoBlockOpener("--" + body);
    BlocksKeepPlain("--" + body, "");
    assert "--" + body + "" == "--" + body;
  }

  lemma {:induction false} FirstPass(d: Doc)
    requires Regular(d)
    ensures StripBlocks(Render(d)) == WithoutBlocks(d)
  {
    match d {
      case End(plain) =>
        BlocksKeepPlain(plain, "");
        assert plain + "" == plain;
      case EndLine(plain, body) =>
        LineSurvivesBlocks(body, "");
        BlocksKeepPlain(plain, "--" + body);
      case Block(plain, body, rest) =>
        FirstPass(rest);
        BlockDisappears(body, Render(rest));
        BlocksKeepPlain(plain, "/*" + body + "*/" + Render(rest));
      case Line(plain, body, rest) =>
        FirstPass(rest);
        LineSurvivesBlocks(body, Render(rest));
        BlocksKeepPlain(plain, "--" + body + "\n" + Render(rest));
    }
  }

  lemma {:induction false} SecondPass(d: Doc)
    requires Regular(d)
    ensures StripLines(WithoutBlocks(d)) == Visible(d)
  {
    match d {
      case End(plain) =>
        LinesKeepPlain(plain, "");
        assert plain + "" == plain;
      case EndLine(plain, body) =>
        LineDisappears(body, "");
        LinesKeepPlain(plain, "--" + body);
      case Block(plain, body, rest) =>
        SecondPass(rest);
        LinesKeepPlain(plain, WithoutBlocks(rest));
      case Line(plain, body, rest) =>
        SecondPass(rest);
        LineDisappears(body, WithoutBlocks(rest));
        LinesKeepPlain(plain, "--" + body + "\n" + WithoutBlocks(rest));
    }
  }

  /** Stripping the rendered statement gives back exactly its visible text. */
  lemma StripExact(d: Doc)
    requires Regular(d)
    ensures StripSqlComments(Render(d)) == Visible(d)
  {
    FirstPass(d);
    SecondPass(d);
  }

  predicate CommentFree(s: string) {
    NoBlockOpener(s) && NoLineOpener(s)
  }

  lemma CommentFreeUnchanged(s: string)
    requires CommentFree(s)
    ensures StripSqlComments(s) == s
  {
    StripExact(End(s));
  }

  /** The hypothesis on line bodies is needed: in the input below the first pass takes the block
      opener inside the line comment for a comment of its own and swallows the text after it. */
  lemma LineBodyMatters()
    ensures StripSqlComments("--/*\nSELECT 1/**/") == ""
  {
    var rest := "\nSELECT 1/*";
    assert NoBlockClose(rest);
    assert "--/*\nSELECT 1/**/" == "--" + ("/*" + rest + "*/" + "");
    BlockDisappears(rest, "");
    BlocksKeepPlain("--", "/*" + rest + "*/" + "");
    LineDisappears("", "");
    assert "--" + "" == "--";
  }
}
