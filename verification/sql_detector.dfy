/** The write classifier (litefs/usecases/sql_detector.py). The three regular expressions are
    written out as scanners. */
module SqlDetector {
  import opened Text

  // ---------- Comment stripping ----------

  /** The index of the first star-slash in s, or |s|. */
  function CloseIndex(s: string): (k: nat)
    ensures k <= |s|
    ensures k < |s| ==> k + 2 <= |s| && s[k] == '*' && s[k + 1] == '/'
    ensures forall i :: 0 <= i < k && i + 1 < |s| ==> !(s[i] == '*' && s[i + 1] == '/')
  {
    if s == [] then 0
    else if |s| >= 2 && s[0] == '*' && s[1] == '/' then 0
    else CloseIndex(s[1..]) + 1
  }

  predicate OpensBlock(s: string) {
    |s| >= 2 && s[0] == '/' && s[1] == '*'
  }

  predicate OpensLine(s: string) {
    |s| >= 2 && s[0] == '-' && s[1] == '-'
  }

  /** First pass: every block comment that is closed disappears; an unclosed one stays. */
  function StripBlocks(s: string): string
    decreases |s|
  {
    if s == [] then []
    else if OpensBlock(s) && CloseIndex(s[2..]) < |s| - 2 then StripBlocks(s[2 + CloseIndex(s[2..]) + 2..])
    else [s[0]] + StripBlocks(s[1..])
  }

  function NewlineIndex(s: string): (k: nat)
    ensures k <= |s|
    ensures k < |s| ==> s[k] == '\n'
    ensures forall i :: 0 <= i < k ==> s[i] != '\n'
  {
    if s == [] || s[0] == '\n' then 0 else NewlineIndex(s[1..]) + 1
  }

  /** Second pass: every line comment disappears, its newline stays. */
  function StripLines(s: string): string
    decreases |s|
  {
    if s == [] then []
    else if OpensLine(s) then
      var k := NewlineIndex(s);
      if k < |s| then ['\n'] + StripLines(s[k + 1..]) else []
    else [s[0]] + StripLines(s[1..])
  }

  function StripSqlComments(sql: string): string {
    StripLines(StripBlocks(sql))
  }

  // ---------- Keywords ----------

  const WRITE_KEYWORDS: seq<string> := [
    "INSERT", "UPDATE", "DELETE", "CREATE", "DROP", "ALTER", "REPLACE", "VACUUM", "REINDEX", "ANALYZE",
    "ATTACH", "DETACH", "SAVEPOINT", "RELEASE", "ROLLBACK"]

  predicate StartsWithWriteKeyword(u: string) {
    exists k :: 0 <= k < |WRITE_KEYWORDS| && StartsWith(u, WRITE_KEYWORDS[k])
  }

  predicate IsCteKeyword(w: string) {
    w == "INSERT" || w == "UPDATE" || w == "DELETE"
  }

  /** The pattern's lookbehind: FROM and one blank end right before p. */
  predicate AfterFrom(q: string, p: nat)
    requires p <= |q|
  {
    p >= 5 && Upper(q[p - 5..p - 1]) == "FROM" && IsSpace(q[p - 1])
  }

  /** One of the three keywords stands at p as a whole word, not right after FROM and a blank. */
  predicate KeywordAt(q: string, p: nat) {
    && p + 6 <= |q|
    && IsCteKeyword(Upper(q[p..p + 6]))
    && (p > 0 ==> !IsWord(q[p - 1]))
    && (p + 6 < |q| ==> !IsWord(q[p + 6]))
    && !AfterFrom(q, p)
  }

  predicate HasWriteKeyword(q: string) {
    exists p :: 0 <= p < |q| && KeywordAt(q, p)
  }

  // ---------- Parentheses ----------

  function Delta(c: char): int {
    if c == '(' then 1 else if c == ')' then -1 else 0
  }

  /** Opening minus closing parentheses among the first n characters. */
  function Balance(u: string, n: nat): int
    requires n <= |u|
  {
    if n == 0 then 0 else Balance(u, n - 1) + Delta(u[n - 1])
  }

  predicate ClosesAt(u: string, i: nat)
    requires i < |u|
  {
    u[i] == ')' && Balance(u, i + 1) == 0
  }

  /** The least index from `start` on at which a closing parenthesis brings the balance to zero, or |u|. */
  function FirstClose(u: string, start: nat): (r: nat)
    requires start <= |u|
    ensures start <= r <= |u|
    ensures r < |u| ==> ClosesAt(u, r)
    ensures forall i :: start <= i < r ==> !ClosesAt(u, i)
    decreases |u| - start
  {
    if start == |u| || ClosesAt(u, start) then start else FirstClose(u, start + 1)
  }

  /** Just after that parenthesis, or 0 when there is none. */
  function MainQueryStart(u: string): (r: nat)
    ensures r <= |u|
    ensures r > 0 ==> ClosesAt(u, r - 1)
    ensures forall i :: 0 <= i < (if r > 0 then r - 1 else |u|) ==> !ClosesAt(u, i)
  {
    var i := FirstClose(u, 0);
    if i < |u| then i + 1 else 0
  }

  // ---------- Classification ----------

  /** The classification of a statement, its comments already stripped. */
  predicate IsWriteClean(clean: string) {
    var u := Upper(Strip(clean));
    u != [] &&
    (|| StartsWithWriteKeyword(u)
     || (StartsWith(u, "PRAGMA") && '=' in clean)
     || (StartsWith(u, "WITH") && HasWriteKeyword(clean[MainQueryStart(u)..])))
  }

  predicate IsWriteOperation(sql: string) {
    IsWriteClean(StripSqlComments(sql))
  }

  /** The scan loop of `is_write_operation`: a running depth, stopping at the first closing
      parenthesis that brings it to zero. */
  method FindMainQuery(u: string) returns (mainQueryStart: nat)
    ensures mainQueryStart == MainQueryStart(u)
  {
    var parenDepth := 0;
    mainQueryStart := 0;
    var i := 0;
    while i < |u|
      invariant i <= |u|
      invariant parenDepth == Balance(u, i) && mainQueryStart == 0
      invariant FirstClose(u, 0) == FirstClose(u, i)
    {
      if u[i] == '(' {
        parenDepth := parenDepth + 1;
      } else if u[i] == ')' {
        parenDepth := parenDepth - 1;
        if parenDepth == 0 {
          mainQueryStart := i + 1;
          break;
        }
      }
      i := i + 1;
    }
  }

  method DetectWrite(sql: string) returns (write: bool)
    ensures write <==> IsWriteOperation(sql)
  {
    if sql == [] {
      return false;
    }
    var clean := StripSqlComments(sql);
    var u := Upper(Strip(clean));
    if u == [] {
      return false;
    }
    if StartsWithWriteKeyword(u) {
      return true;
    }
    if StartsWith(u, "PRAGMA") && '=' in clean {
      return true;
    }
    if StartsWith(u, "WITH") {
      var mainQueryStart := FindMainQuery(u);
      var mainQuery := if mainQueryStart > 0 then clean[mainQueryStart..] else clean;
      return HasWriteKeyword(mainQuery);
    }
    return false;
  }
}
