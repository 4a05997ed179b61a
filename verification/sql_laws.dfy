/** What the classifier answers for common table expressions, and how text in front of a statement
    can change the answer. */
module SqlLaws {
  import opened Text
  import opened SqlDetector
  import opened SqlComments
  import opened SqlWords

  // ---------- Case and parentheses ----------

  lemma {:induction false} BalanceUpper(s: string, n: nat)
    requires n <= |s|
    ensures Balance(Upper(s), n) == Balance(s, n)
  {
    if n > 0 { BalanceUpper(s, n - 1); }
  }

  lemma {:induction false} BalanceAppend(a: string, b: string, n: nat)
    requires n <= |b|
    ensures Balance(a + b, |a| + n) == Balance(a, |a|) + Balance(b, n)
  {
    if n == 0 {
      BalancePrefix(a, b, |a|);
    } else {
      BalanceAppend(a, b, n - 1);
    }
  }

  lemma {:induction false} BalancePrefix(a: string, b: string, n: nat)
    requires n <= |a|
    ensures Balance(a + b, n) == Balance(a, n)
  {
    if n > 0 { BalancePrefix(a, b, n - 1); }
  }

  predicate ParenFree(s: string) {
    forall i :: 0 <= i < |s| ==> s[i] != '(' && s[i] != ')'
  }

  /** Every parenthesis in the text has its partner in it. */
  ghost predicate Balanced(s: string) {
    Balance(s, |s|) == 0 && forall n: nat :: n <= |s| ==> Balance(s, n) >= 0
  }

  lemma {:induction false} BalanceParenFree(s: string, n: nat)
    requires ParenFree(s) && n <= |s|
    ensures Balance(s, n) == 0
  {
    if n > 0 { BalanceParenFree(s, n - 1); }
  }

  /** Up to the end of `head ( body`, no closing parenthesis brings the balance to zero; the next one does. */
  lemma CloseOfBody(head: string, body: string, rest: string)
    requires ParenFree(head) && Balanced(body)
    ensures MainQueryStart(head + "(" + body + ")" + rest) == |head| + |body| + 2
  {
    var open, u := head + "(", head + "(" + body + ")" + rest;
    assert u == open + (body + (")" + rest));
    BalanceParenFree(head, |head|);
    BalanceAppend(head, "(", 1);
    assert Balance("(", 1) == 1 by { assert Balance("(", 0) == 0; }
    assert Balance(open, |open|) == 1;
    forall n: nat | n <= |body|
      ensures Balance(u, |open| + n) == 1 + Balance(body, n) >= 1
    {
      BalanceAppend(open, body + (")" + rest), n);
      BalancePrefix(body, ")" + rest, n);
    }
    var close := |open| + |body|;
    assert u[close] == ')';
    assert Balance(u, close) == 1;
    assert ClosesAt(u, close);
    forall i: nat | i < close
      ensures !ClosesAt(u, i)
    {
      if i < |head| {
        assert u[i] == head[i];
      } else if i == |head| {
        assert u[i] == '(';
      } else {
        var n := i + 1 - |open|;
        assert |open| + n == i + 1;
        assert Balance(body, n) >= 0;
      }
    }
  }

  /** Upper-casing and dropping trailing text beyond the close move nothing. */
  lemma CloseStable(s: string, m: nat)
    requires m <= |s| && MainQueryStart(s) <= m
    ensures MainQueryStart(Upper(s[..m])) == MainQueryStart(s)
  {
    var u := Upper(s[..m]);
    assert s[..m] + s[m..] == s;
    forall i: nat | i < m
      ensures ClosesAt(u, i) <==> ClosesAt(s, i)
    {
      BalanceUpper(s[..m], i + 1);
      BalancePrefix(s[..m], s[m..], i + 1);
    }
    var r := MainQueryStart(s);
    if r > 0 {
      assert ClosesAt(u, r - 1);
    }
  }

  // ---------- Stripped statements ----------

  /** A statement that starts flush left loses only trailing blanks. */
  lemma StripFlush(s: string)
    requires s != [] && !IsSpace(s[0])
    ensures Strip(s) != [] && |Strip(s)| <= |s| && Strip(s) == s[..|Strip(s)|]
    ensures forall i :: |Strip(s)| <= i < |s| ==> IsSpace(s[i])
  {
  }

  predicate IsWith(head: string) {
    |head| >= 4 && Upper(head[..4]) == "WITH"
  }

  lemma WithIsNoKeyword(u: string)
    requires StartsWith(u, "WITH")
    ensures !StartsWithWriteKeyword(u) && !StartsWith(u, "PRAGMA")
  {
    assert u[..4][0] == u[0] == 'W';
    forall k | 0 <= k < |WRITE_KEYWORDS|
      ensures !StartsWith(u, WRITE_KEYWORDS[k])
    {
      var w := WRITE_KEYWORDS[k];
      assert |w| > 0 && w[0] != 'W';
      if |w| <= |u| { assert u[..|w|][0] == 'W'; }
    }
    if |u| >= 6 { assert u[..6][0] == 'W'; }
  }

  lemma WriteIffInMainQuery(clean: string, u: string, start: nat)
    requires u == Upper(Strip(clean)) && StartsWith(u, "WITH") && start == MainQueryStart(u)
    ensures start <= |clean| && IsWriteClean(clean) == HasWriteKeyword(clean[start..])
  {
    WithIsNoKeyword(u);
  }

  /** A common table expression: any paren-free text starting with WITH, in any case, and a body in
      balanced parentheses. */
  ghost predicate IsCte(head: string, body: string) {
    IsWith(head) && ParenFree(head) && Balanced(body)
  }

  function Cte(head: string, body: string, main: string): string {
    head + "(" + body + ")" + main
  }

  /** However far the stripped text is indented, the main query is looked for from the index that
      would be right for the text flush left. */
  lemma IndentedCte(pre: string, head: string, body: string, main: string, text: string, start: nat)
    requires AllSpace(pre) && IsCte(head, body)
    requires text == pre + Cte(head, body, main) && start == |head| + |body| + 2
    ensures start <= |text| && IsWriteClean(text) == HasWriteKeyword(text[start..])
  {
    var t := Cte(head, body, main);
    var u := Upper(Strip(t));
    assert StartsWith(u, "WITH") && MainQueryStart(u) == start && StripLeft(t) == t by { CteStripped(head, body, main); }
    assert Strip(text) == Strip(t) by { StripLeftSkips(pre, t); }
    WriteIffInMainQuery(text, u, start);
  }

  lemma CteStripped(head: string, body: string, main: string)
    requires IsCte(head, body)
    ensures var t := Cte(head, body, main);
            && t != [] && !IsSpace(t[0]) && StripLeft(t) == t
            && StartsWith(Upper(Strip(t)), "WITH") && MainQueryStart(Upper(Strip(t))) == |head| + |body| + 2
  {
    var t := Cte(head, body, main);
    WithIsText(head, body, main);
    StripFlush(t);
    CloseOfBody(head, body, main);
    assert t[|head| + |body| + 1] == ')';
    CloseStable(t, |Strip(t)|);
  }

  lemma WithIsText(head: string, body: string, main: string)
    requires IsWith(head)
    ensures var t := Cte(head, body, main); t != [] && !IsSpace(t[0]) && t[..4] == head[..4]
    ensures forall m :: 4 <= m <= |Cte(head, body, main)| ==> StartsWith(Upper(Cte(head, body, main)[..m]), "WITH")
  {
  }

  /** Flush left and free of comments, such a statement is a write exactly when its main query, and
      never its body, shows a write keyword. */
  lemma CteExact(head: string, body: string, main: string)
    requires IsCte(head, body) && CommentFree(Cte(head, body, main))
    ensures IsWriteOperation(Cte(head, body, main)) == HasWriteKeyword(main)
  {
    var t := Cte(head, body, main);
    CommentFreeUnchanged(t);
    assert "" + t == t;
    IndentedCte("", head, body, main, t, |head| + |body| + 2);
    assert t[|head| + |body| + 2..] == main;
  }

  /** Main queries that open with the keyword are always found: the lookbehind never gets in the way. */
  lemma CteOpensWithWrite(head: string, body: string, blanks: string, keyword: string, rest: string, main: string)
    requires main == blanks + keyword + rest && IsCte(head, body) && CommentFree(Cte(head, body, main))
    requires AllSpace(blanks) && |keyword| == 6 && SpellsDml(keyword, 0)
    requires rest != [] ==> !IsWord(rest[0])
    ensures IsWriteOperation(Cte(head, body, main))
  {
    assert HasWriteKeyword(main) by { OpensWithKeyword(blanks, keyword, rest); }
    CteExact(head, body, main);
  }

  lemma OpensWithKeyword(blanks: string, keyword: string, rest: string)
    requires AllSpace(blanks) && |keyword| == 6 && SpellsDml(keyword, 0)
    requires rest != [] ==> !IsWord(rest[0])
    ensures KeywordAt(blanks + keyword + rest, |blanks|)
  {
    var q, p := blanks + keyword + rest, |blanks|;
    assert q[p..p + 6] == keyword == keyword[0..6];
    DmlExact(keyword, 0);
    if p > 0 { assert q[p - 1] == blanks[p - 1]; }
    if p >= 5 {
      assert Upper(q[p - 5..p - 1])[0] == UpperChar(blanks[p - 5]) != 'F';
    }
  }

  /** INSERT, UPDATE or DELETE, in any case, with no word character on either side. */
  predicate WholeWordAt(q: string, p: nat) {
    && SpellsDml(q, p)
    && (p > 0 ==> !IsWord(q[p - 1]))
    && (p + 6 < |q| ==> !IsWord(q[p + 6]))
  }

  /** And a main query without any of the three words is never taken for a write. */
  lemma CteReads(head: string, body: string, main: string)
    requires IsCte(head, body) && CommentFree(Cte(head, body, main))
    requires forall p: nat :: !WholeWordAt(main, p)
    ensures !IsWriteOperation(Cte(head, body, main))
  {
    CteExact(head, body, main);
    if HasWriteKeyword(main) {
      var p: nat :| p < |main| && KeywordAt(main, p);
      WordAtExact(main, p);
      assert WholeWordAt(main, p);
    }
  }

  /** REPLACE is a write keyword in front of a statement but not behind a common table expression. */
  lemma CteReplaceIsMissed(head: string, body: string, main: string)
    requires main == " REPLACE INTO t VALUES (1)" && IsCte(head, body) && CommentFree(Cte(head, body, main))
    ensures !IsWriteOperation(Cte(head, body, main))
  {
    forall p: nat
      ensures !WholeWordAt(main, p)
    {
      if p + 6 <= |main| { NoWordInReplace(main, p); }
      DmlExact(main, p);
    }
    hide *;
    CteReads(head, body, main);
  }

  lemma NoWordInReplace(main: string, p: nat)
    requires main == " REPLACE INTO t VALUES (1)" && p + 6 <= |main|
    ensures !IsCteKeyword(Upper(main[p..p + 6]))
  {
    var w := Upper(main[p..p + 6]);
    assert w[0] == UpperChar(main[p]) && w[1] == UpperChar(main[p + 1]) && w[2] == UpperChar(main[p + 2]);
    assert main[p] == 'I' ==> main[p + 2] == 'T';
    assert main[p] == 'U' ==> main[p + 1] == 'E';
  }

  // ---------- Statements that start with a write keyword ----------

  predicate Letters(w: string) {
    w != [] && forall i :: 0 <= i < |w| ==> 'A' <= w[i] <= 'Z'
  }

  lemma KeywordsAreLetters(k: nat)
    requires k < |WRITE_KEYWORDS|
    ensures Letters(WRITE_KEYWORDS[k])
  {
  }

  lemma StripKeepsWord(t: string, n: nat)
    requires 0 < n <= |t| && forall i :: 0 <= i < n ==> !IsSpace(t[i])
    ensures |Strip(t)| >= n && Strip(t)[..n] == t[..n]
  {
    StripFlush(t);
    assert !IsSpace(t[n - 1]);
  }

  lemma StripStartsWith(blanks: string, word: string, rest: string, w: string)
    requires AllSpace(blanks) && Letters(w) && Upper(word) == w
    ensures StartsWith(Upper(Strip(blanks + (word + rest))), w)
  {
    var t, n := word + rest, |w|;
    forall i | 0 <= i < n ensures !IsSpace(t[i]) { assert UpperChar(t[i]) == w[i]; }
    assert Strip(blanks + t) == Strip(t) by {
      StripLeftSkips(blanks, t);
      assert StripLeft(t) == t;
    }
    StripKeepsWord(t, n);
    assert t[..n] == word;
    UpperPrefix(Strip(t), n);
  }

  lemma LeadingTableWord(d: Doc, blanks: string, word: string, rest: string, k: nat)
    requires Regular(d) && Visible(d) == blanks + (word + rest) && AllSpace(blanks)
    requires k < |WRITE_KEYWORDS| && Upper(word) == WRITE_KEYWORDS[k]
    ensures IsWriteOperation(Render(d))
  {
    StripExact(d);
    KeywordsAreLetters(k);
    StripStartsWith(blanks, word, rest, WRITE_KEYWORDS[k]);
  }

  /** Whatever comments and blanks stand before it, and whatever follows, a statement that starts with
      one of the fifteen keywords, in any case, is a write. */
  lemma LeadingKeyword(d: Doc, blanks: string, statement: string)
    requires Regular(d) && Visible(d) == blanks + statement && AllSpace(blanks) && LeadsWithKeyword(statement)
    ensures IsWriteOperation(Render(d))
  {
    KeywordsLead(statement);
    var k: nat :| k < |WRITE_KEYWORDS| && StartsWith(Upper(statement), WRITE_KEYWORDS[k]);
    var n := |WRITE_KEYWORDS[k]|;
    UpperPrefix(statement, n);
    assert statement == statement[..n] + statement[n..];
    hide *;
    LeadingTableWord(d, blanks, statement[..n], statement[n..], k);
  }

  // ---------- Text in front of a statement ----------

  /** Text that cannot take part in a keyword match that starts after it. */
  predicate Inert(x: string) {
    x == [] || x[|x| - 1] == ')' || AllSpace(x)
  }

  lemma SliceShift(x: string, q: string, a: nat, b: nat)
    requires a <= b <= |q|
    ensures (x + q)[|x| + a..|x| + b] == q[a..b]
  {
  }

  lemma KeywordShift(x: string, q: string, p: nat)
    requires Inert(x)
    ensures KeywordAt(x + q, |x| + p) == KeywordAt(q, p)
  {
    var s := x + q;
    if p + 6 <= |q| {
      SliceShift(x, q, p, p + 6);
      assert p > 0 ==> s[|x| + p - 1] == q[p - 1];
      assert p == 0 && |x| > 0 ==> s[|x| + p - 1] == x[|x| - 1] && !IsWord(x[|x| - 1]);
      LookbehindShift(x, q, p);
    }
  }

  lemma LookbehindShift(x: string, q: string, p: nat)
    requires Inert(x) && p <= |q|
    ensures AfterFrom(x + q, |x| + p) == AfterFrom(q, p)
  {
    if p >= 5 {
      SliceShift(x, q, p - 5, p - 1);
    } else if |x| > 0 && |x| + p >= 5 {
      NoFromAcross(x, q, p);
    }
  }

  /** FROM and its blank cannot lie across the end of inert text. */
  lemma NoFromAcross(x: string, q: string, p: nat)
    requires Inert(x) && x != [] && p <= |q| && p < 5 <= |x| + p
    ensures !AfterFrom(x + q, |x| + p)
  {
    var s, n := x + q, |x| + p;
    var i := if p == 0 then 3 else 4 - p;
    assert Upper(s[n - 5..n - 1])[i] == UpperChar(s[n - 5 + i]);
    if p == 0 {
      assert s[n - 1] == x[|x| - 1] && s[n - 2] == x[|x| - 2];
      assert "FROM"[3] == 'M';
    } else {
      assert s[n - 5 + i] == x[|x| - 1];
      assert 'A' <= "FROM"[i] <= 'Z';
    }
  }

  lemma KeywordKept(x: string, q: string, s: string)
    requires Inert(x) && s == x + q && HasWriteKeyword(q)
    ensures HasWriteKeyword(s)
  {
    var p: nat :| p < |q| && KeywordAt(q, p);
    KeywordShift(x, q, p);
    assert KeywordAt(s, |x| + p);
  }

  /** A closed block comment in front of any text at all changes nothing. */
  lemma BlockInFront(body: string, sql: string)
    requires NoBlockClose(body)
    ensures StripSqlComments("/*" + body + "*/" + sql) == StripSqlComments(sql)
    ensures IsWriteOperation("/*" + body + "*/" + sql) == IsWriteOperation(sql)
  {
    BlockDisappears(body, sql);
  }

  lemma SpaceUnchanged(pre: string, sql: string)
    requires AllSpace(pre)
    ensures StripSqlComments(pre + sql) == pre + StripSqlComments(sql)
  {
    assert forall i :: 0 <= i < |pre| ==> IsSpace(pre[i]) && pre[i] != '/' && pre[i] != '-';
    BlocksKeepPlain(pre, sql);
    LinesKeepPlain(pre, StripBlocks(sql));
  }

  lemma LineBecomesNewline(body: string, sql: string)
    requires LineBodyOk(body)
    ensures StripSqlComments("--" + body + "\n" + sql) == "\n" + StripSqlComments(sql)
  {
    LineSurvivesBlocks(body, sql);
    LineDisappears(body, StripBlocks(sql));
  }

  /** Blanks in front of a flush text only ever turn a read into a write, never a write into a read:
      the main query is then looked for too early, but from a place that cannot hide a keyword. */
  lemma BlanksInFront(pre: string, clean: string, text: string)
    requires AllSpace(pre) && clean != [] && !IsSpace(clean[0]) && text == pre + clean
    requires IsWriteClean(clean)
    ensures IsWriteClean(text)
  {
    StripLeftSkips(pre, clean);
    StripFlush(clean);
    var u := Upper(Strip(clean));
    assert StripLeft(clean) == clean;
    if StartsWith(u, "WITH") {
      var start := MainQueryStart(u);
      WriteIffInMainQuery(clean, u, start);
      WriteIffInMainQuery(text, u, start);
      StartBeforeClose(clean, u, start);
      EarlierSlice(pre, clean, text, start);
    }
  }

  lemma StartBeforeClose(clean: string, u: string, start: nat)
    requires clean != [] && !IsSpace(clean[0]) && u == Upper(Strip(clean)) && start == MainQueryStart(u)
    ensures start <= |clean| && (start > 0 ==> clean[start - 1] == ')')
  {
  }

  lemma EarlierSlice(pre: string, clean: string, text: string, start: nat)
    requires AllSpace(pre) && text == pre + clean && start <= |clean| && (start > 0 ==> clean[start - 1] == ')')
    requires HasWriteKeyword(clean[start..])
    ensures HasWriteKeyword(text[start..])
  {
    var x := text[start..start + |pre|];
    assert text[start..] == x + clean[start..];
    if start == 0 {
      assert x == pre;
    } else if |pre| > 0 {
      assert x[|x| - 1] == text[start + |pre| - 1] == clean[start - 1];
    }
    KeywordKept(x, clean[start..], text[start..]);
  }

  lemma SpaceInFront(pre: string, sql: string)
    requires AllSpace(pre)
    ensures var clean := StripSqlComments(sql);
            IsWriteOperation(sql) && !IsSpace(clean[0]) ==> IsWriteOperation(pre + sql)
  {
    var clean := StripSqlComments(sql);
    SpaceUnchanged(pre, sql);
    if IsWriteClean(clean) && !IsSpace(clean[0]) {
      BlanksInFront(pre, clean, pre + clean);
    }
  }

  lemma LineInFront(body: string, sql: string)
    requires LineBodyOk(body)
    ensures var clean := StripSqlComments(sql);
            IsWriteOperation(sql) && !IsSpace(clean[0]) ==> IsWriteOperation("--" + body + "\n" + sql)
  {
    var clean := StripSqlComments(sql);
    LineBecomesNewline(body, sql);
    if IsWriteClean(clean) && !IsSpace(clean[0]) {
      BlanksInFront("\n", clean, "\n" + clean);
    }
  }

  lemma Regroup(pre: string, head: string, body: string, x: string, main: string)
    ensures pre + Cte(head, body + x, main) == (pre + head + "(" + body) + (x + ")" + main)
  {
  }

  lemma AfterPrefix(a: string, b: string, text: string, start: nat)
    requires text == a + b && start == |a|
    ensures text[start..] == b
  {
  }

  /** Indented by one more than |x|, a statement whose body ends in x is searched from x on. */
  lemma IndentedSearch(pre: string, head: string, body: string, x: string, main: string, text: string)
    requires AllSpace(pre) && |pre| == |x| + 1 && IsCte(head, body + x)
    requires text == pre + Cte(head, body + x, main)
    ensures IsWriteClean(text) == HasWriteKeyword(x + ")" + main)
  {
    var start := |head| + |body + x| + 2;
    IndentedCte(pre, head, body + x, main, text, start);
    Regroup(pre, head, body, x, main);
    AfterPrefix(pre + head + "(" + body, x + ")" + main, text, start);
  }

  /** The same for the classifier itself: an indented statement whose body ends in x is a write exactly
      when x and what follows it show a write keyword, a flush one exactly when its main query does. */
  lemma IndentedExact(pre: string, head: string, body: string, x: string, main: string, t: string)
    requires AllSpace(pre) && |pre| == |x| + 1 && IsCte(head, body + x)
    requires t == Cte(head, body + x, main) && CommentFree(t)
    ensures IsWriteOperation(t) == HasWriteKeyword(main)
    ensures IsWriteOperation(pre + t) == HasWriteKeyword(x + ")" + main)
  {
    CteExact(head, body + x, main);
    CommentFreeUnchanged(t);
    SpaceUnchanged(pre, t);
    IndentedSearch(pre, head, body, x, main, pre + t);
  }

  /** So indenting can turn a read into a write, for every statement whose body ends in a keyword: seven
      blanks in front make the search start on that keyword. */
  lemma IndentMakesWrite(pre: string, head: string, body: string, keyword: string, main: string, t: string)
    requires AllSpace(pre) && |pre| == 7 && |keyword| == 6 && SpellsDml(keyword, 0)
    requires IsCte(head, body + keyword) && !HasWriteKeyword(main)
    requires t == Cte(head, body + keyword, main) && CommentFree(t)
    ensures !IsWriteOperation(t) && IsWriteOperation(pre + t)
  {
    hide *;
    IndentedExact(pre, head, body, keyword, main, t);
    KeywordThenClose(keyword, main);
  }

  lemma KeywordThenClose(keyword: string, main: string)
    requires |keyword| == 6 && SpellsDml(keyword, 0)
    ensures HasWriteKeyword(keyword + ")" + main)
  {
    OpensWithKeyword("", keyword, ")" + main);
    assert "" + keyword + (")" + main) == keyword + ")" + main;
  }

  /** And the flush start in `SpaceInFront` is needed: when that body ends in FROM, a blank and the
      keyword, twelve blanks in front hide again what seven show (`IndentMakesWrite`). */
  lemma MoreIndentHides(pre: string, head: string, body: string, x: string, main: string, t: string)
    requires AllSpace(pre) && |pre| == 12 && |x| == 11 && Upper(x[..4]) == "FROM" && x[4] == ' '
    requires IsCte(head, body + x) && !HasWriteKeyword(main)
    requires t == Cte(head, body + x, main) && CommentFree(t)
    ensures !IsWriteOperation(pre + t)
  {
    hide *;
    IndentedExact(pre, head, body, x, main, t);
    assert (x + ")")[..4] == x[..4];
    HiddenAfterFrom(x + ")", main);
  }

  lemma HiddenAfterFrom(x: string, main: string)
    requires |x| == 12 && Upper(x[..4]) == "FROM" && x[4] == ' ' && x[11] == ')'
    requires !HasWriteKeyword(main)
    ensures !HasWriteKeyword(x + main)
  {
    forall p: nat | p < |x + main|
      ensures !KeywordAt(x + main, p)
    {
      if p < 12 { HiddenInside(x, main, p); } else { HiddenBehind(x, main, p - 12); }
    }
  }

  lemma HiddenBehind(x: string, main: string, p: nat)
    requires |x| == 12 && x[11] == ')' && p < |main| && !HasWriteKeyword(main)
    ensures !KeywordAt(x + main, 12 + p)
  {
    KeywordShift(x, main, p);
    hide KeywordAt;
  }

  lemma HiddenInside(x: string, main: string, p: nat)
    requires |x| == 12 && Upper(x[..4]) == "FROM" && x[4] == ' ' && x[11] == ')' && p < 12
    ensures !KeywordAt(x + main, p)
  {
    var q := x + main;
    if p == 5 {
      assert q[0..4] == x[..4] && q[4] == ' ';
    } else if p + 6 <= |q| {
      HiddenBy(q, p, if p < 5 then 4 else 11);
    }
  }

  /** A word with a blank or a parenthesis in it is no keyword. */
  lemma HiddenBy(q: string, p: nat, i: nat)
    requires p <= i < p + 6 <= |q| && (q[i] == ' ' || q[i] == ')')
    ensures !KeywordAt(q, p)
  {
    var w := Upper(q[p..p + 6]);
    assert w[i - p] == q[i];
    assert "INSERT"[i - p] != q[i] && "UPDATE"[i - p] != q[i] && "DELETE"[i - p] != q[i];
  }

  lemma PlainCte(head: string, body: string)
    requires IsWith(head) && ParenFree(head) && ParenFree(body)
    ensures IsCte(head, body)
  {
    forall n: nat | n <= |body| ensures Balance(body, n) == 0 { BalanceParenFree(body, n); }
  }

  lemma NoKeywordInSelect(main: string)
    requires main == " SELECT a"
    ensures !HasWriteKeyword(main)
  {
    forall p: nat | p + 6 <= |main|
      ensures !KeywordAt(main, p)
    {
      assert Upper(main[p..p + 6])[0] == UpperChar(main[p]);
    }
  }

  lemma TableNamedUpdate(t: string, head: string, inner: string, main: string)
    requires t == "WITH t AS (SELECT a FROM update) SELECT a"
    requires head == "WITH t AS " && inner == "SELECT a FROM update" && main == " SELECT a"
    ensures t == Cte(head, inner, main)
  {
  }

  lemma NoSlashNoDash(t: string)
    requires forall i :: 0 <= i < |t| ==> t[i] != '/' && t[i] != '-'
    ensures CommentFree(t)
  {
  }

  lemma SelectFromUpdate(head: string, inner: string)
    requires head == "WITH t AS " && inner == "SELECT a FROM update"
    ensures IsWith(head) && ParenFree(head) && ParenFree(inner)
  {
    assert Upper(head[..4]) == "WITH";
  }

  lemma TableNamePieces(body: string, from: string, keyword: string, inner: string)
    requires body == "SELECT a " && from == "FROM " && keyword == "update" && inner == "SELECT a FROM update"
    ensures body + from + keyword == inner && body + (from + keyword) == inner
    ensures |from + keyword| == 11 && (from + keyword)[4] == ' ' && SpellsDml(keyword, 0)
  {
  }

  lemma UpperFrom(from: string, keyword: string)
    requires from == "FROM " && keyword == "update"
    ensures Upper((from + keyword)[..4]) == "FROM"
  {
    assert (from + keyword)[..4] == "FROM";
  }

  lemma Blanks(pre: string)
    requires forall i :: 0 <= i < |pre| ==> pre[i] == ' '
    ensures AllSpace(pre)
  {
  }

  /** One statement, read when it stands flush left, taken for a write behind seven blanks, and for a
      read again behind twelve. */
  lemma IndentedUpdateTable(t: string, seven: string, twelve: string)
    requires t == "WITH t AS (SELECT a FROM update) SELECT a" && seven == "       " && twelve == "            "
    ensures !IsWriteOperation(t) && IsWriteOperation(seven + t) && !IsWriteOperation(twelve + t)
  {
    var head, inner, main := "WITH t AS ", "SELECT a FROM update", " SELECT a";
    var body, from, keyword := "SELECT a ", "FROM ", "update";
    assert forall i :: 0 <= i < |t| ==> t[i] != '/' && t[i] != '-';
    hide *;
    NoSlashNoDash(t);
    TableNamedUpdate(t, head, inner, main);
    SelectFromUpdate(head, inner);
    PlainCte(head, inner);
    TableNamePieces(body, from, keyword, inner);
    UpperFrom(from, keyword);
    NoKeywordInSelect(main);
    Blanks(seven);
    Blanks(twelve);
    IndentMakesWrite(seven, head, body + from, keyword, main, t);
    MoreIndentHides(twelve, head, body, from + keyword, main, t);
  }
}
