/** The classifier with its words written out: no table of keywords and no case mapping, only letters. */
module SqlWords {
  import opened Text
  import opened SqlDetector

  /** From p on q spells the word, each letter in upper or in lower case. */
  predicate Spells(q: string, p: nat, upper: string, lower: string)
    requires |upper| == |lower|
  {
    p + |upper| <= |q| && forall i :: 0 <= i < |upper| ==> q[p + i] == upper[i] || q[p + i] == lower[i]
  }

  /** The statement starts with one of the fifteen keywords. */
  predicate LeadsWithKeyword(t: string) {
    || Spells(t, 0, "INSERT", "insert")
    || Spells(t, 0, "UPDATE", "update")
    || Spells(t, 0, "DELETE", "delete")
    || Spells(t, 0, "CREATE", "create")
    || Spells(t, 0, "DROP", "drop")
    || Spells(t, 0, "ALTER", "alter")
    || Spells(t, 0, "REPLACE", "replace")
    || Spells(t, 0, "VACUUM", "vacuum")
    || Spells(t, 0, "REINDEX", "reindex")
    || Spells(t, 0, "ANALYZE", "analyze")
    || Spells(t, 0, "ATTACH", "attach")
    || Spells(t, 0, "DETACH", "detach")
    || Spells(t, 0, "SAVEPOINT", "savepoint")
    || Spells(t, 0, "RELEASE", "release")
    || Spells(t, 0, "ROLLBACK", "rollback")
  }

  predicate SpellsDml(q: string, p: nat) {
    Spells(q, p, "INSERT", "insert") || Spells(q, p, "UPDATE", "update") || Spells(q, p, "DELETE", "delete")
  }

  /** One of the three words stands at p, no word character before or after it, and not right after FROM
      and one blank. */
  predicate DmlWordAt(q: string, p: nat) {
    && SpellsDml(q, p)
    && (p > 0 ==> !IsWord(q[p - 1]))
    && (p + 6 < |q| ==> !IsWord(q[p + 6]))
    && !(p >= 5 && Spells(q, p - 5, "FROM", "from") && IsSpace(q[p - 1]))
  }

  // ---------- Spelling and case ----------

  lemma UpperPrefix(s: string, n: nat)
    requires n <= |s|
    ensures Upper(s)[..n] == Upper(s[..n])
  {
  }

  /** `lower` is the word in lower case. */
  predicate SameWord(upper: string, lower: string) {
    |upper| == |lower| && forall i :: 0 <= i < |upper| ==> 'A' <= upper[i] <= 'Z' && lower[i] as int == upper[i] as int + 32
  }

  lemma SpellsExact(q: string, p: nat, upper: string, lower: string)
    requires SameWord(upper, lower)
    ensures Spells(q, p, upper, lower) <==> p + |upper| <= |q| && Upper(q[p..p + |upper|]) == upper
  {
    if p + |upper| <= |q| {
      var w := q[p..p + |upper|];
      assert forall i :: 0 <= i < |upper| ==> w[i] == q[p + i] && Upper(w)[i] == UpperChar(w[i]);
    }
  }

  lemma LeadsExact(t: string, upper: string, lower: string)
    requires SameWord(upper, lower)
    ensures Spells(t, 0, upper, lower) <==> StartsWith(Upper(t), upper)
  {
    SpellsExact(t, 0, upper, lower);
    if |upper| <= |t| {
      UpperPrefix(t, |upper|);
      assert t[0..|upper|] == t[..|upper|];
    }
  }

  lemma DataWords()
    ensures SameWord("INSERT", "insert") && SameWord("UPDATE", "update") && SameWord("DELETE", "delete")
  {
  }

  lemma SchemaWords()
    ensures SameWord("CREATE", "create") && SameWord("DROP", "drop") && SameWord("ALTER", "alter") && SameWord("REPLACE", "replace")
  {
  }

  lemma MaintenanceWords()
    ensures SameWord("VACUUM", "vacuum") && SameWord("REINDEX", "reindex") && SameWord("ANALYZE", "analyze")
  {
  }

  lemma AttachWords()
    ensures SameWord("ATTACH", "attach") && SameWord("DETACH", "detach")
  {
  }

  lemma TransactionWords()
    ensures SameWord("SAVEPOINT", "savepoint") && SameWord("RELEASE", "release") && SameWord("ROLLBACK", "rollback")
  {
  }

  lemma KeywordTable(u: string)
    ensures StartsWithWriteKeyword(u) <==>
            || StartsWith(u, "INSERT")
            || StartsWith(u, "UPDATE")
            || StartsWith(u, "DELETE")
            || StartsWith(u, "CREATE")
            || StartsWith(u, "DROP")
            || StartsWith(u, "ALTER")
            || StartsWith(u, "REPLACE")
            || StartsWith(u, "VACUUM")
            || StartsWith(u, "REINDEX")
            || StartsWith(u, "ANALYZE")
            || StartsWith(u, "ATTACH")
            || StartsWith(u, "DETACH")
            || StartsWith(u, "SAVEPOINT")
            || StartsWith(u, "RELEASE")
            || StartsWith(u, "ROLLBACK")
  {
    hide StartsWith;
    assert |WRITE_KEYWORDS| == 15;
    assert WRITE_KEYWORDS[0] == "INSERT";
    assert WRITE_KEYWORDS[1] == "UPDATE";
    assert WRITE_KEYWORDS[2] == "DELETE";
    assert WRITE_KEYWORDS[3] == "CREATE";
    assert WRITE_KEYWORDS[4] == "DROP";
    assert WRITE_KEYWORDS[5] == "ALTER";
    assert WRITE_KEYWORDS[6] == "REPLACE";
    assert WRITE_KEYWORDS[7] == "VACUUM";
    assert WRITE_KEYWORDS[8] == "REINDEX";
    assert WRITE_KEYWORDS[9] == "ANALYZE";
    assert WRITE_KEYWORDS[10] == "ATTACH";
    assert WRITE_KEYWORDS[11] == "DETACH";
    assert WRITE_KEYWORDS[12] == "SAVEPOINT";
    assert WRITE_KEYWORDS[13] == "RELEASE";
    assert WRITE_KEYWORDS[14] == "ROLLBACK";
  }

  lemma KeywordsLead(t: string)
    ensures StartsWithWriteKeyword(Upper(t)) <==> LeadsWithKeyword(t)
  {
    hide Spells, StartsWith, StartsWithWriteKeyword, SameWord, UpperChar;
    DataWords();
    SchemaWords();
    MaintenanceWords();
    AttachWords();
    TransactionWords();
    KeywordTable(Upper(t));
    LeadsExact(t, "INSERT", "insert");
    LeadsExact(t, "UPDATE", "update");
    LeadsExact(t, "DELETE", "delete");
    LeadsExact(t, "CREATE", "create");
    LeadsExact(t, "DROP", "drop");
    LeadsExact(t, "ALTER", "alter");
    LeadsExact(t, "REPLACE", "replace");
    LeadsExact(t, "VACUUM", "vacuum");
    LeadsExact(t, "REINDEX", "reindex");
    LeadsExact(t, "ANALYZE", "analyze");
    LeadsExact(t, "ATTACH", "attach");
    LeadsExact(t, "DETACH", "detach");
    LeadsExact(t, "SAVEPOINT", "savepoint");
    LeadsExact(t, "RELEASE", "release");
    LeadsExact(t, "ROLLBACK", "rollback");
  }

  lemma DmlExact(q: string, p: nat)
    ensures SpellsDml(q, p) <==> p + 6 <= |q| && IsCteKeyword(Upper(q[p..p + 6]))
  {
    hide Spells, SameWord, Upper, UpperChar;
    DataWords();
    SpellsExact(q, p, "INSERT", "insert");
    SpellsExact(q, p, "UPDATE", "update");
    SpellsExact(q, p, "DELETE", "delete");
  }

  lemma FromExact(q: string, p: nat)
    ensures Spells(q, p, "FROM", "from") <==> p + 4 <= |q| && Upper(q[p..p + 4]) == "FROM"
  {
    SpellsExact(q, p, "FROM", "from");
  }

  lemma WordAtExact(q: string, p: nat)
    ensures KeywordAt(q, p) <==> DmlWordAt(q, p)
  {
    hide Spells, SameWord, Upper, UpperChar, IsWord, IsSpace;
    DmlExact(q, p);
    if 5 <= p <= |q| { FromExact(q, p - 5); }
  }

  lemma WriteKeywordExact(q: string)
    ensures HasWriteKeyword(q) <==> exists p: nat :: DmlWordAt(q, p)
  {
    forall p: nat ensures KeywordAt(q, p) == DmlWordAt(q, p) { WordAtExact(q, p); }
  }

  // ---------- The classifier ----------

  /** What every statement is, in letters: a write if, comments and surrounding blanks apart, it starts
      with one of the fifteen keywords, or with PRAGMA and shows an equals sign, or with WITH and shows
      one of the three words from the main query on; otherwise a read. */
  lemma ClassifierExact(sql: string)
    ensures var clean := StripSqlComments(sql);
            var t := Strip(clean);
            IsWriteOperation(sql) <==>
            || LeadsWithKeyword(t)
            || (Spells(t, 0, "PRAGMA", "pragma") && '=' in clean)
            || (Spells(t, 0, "WITH", "with") && exists p: nat :: DmlWordAt(clean[MainQueryStart(Upper(t))..], p))
  {
    hide Spells, LeadsWithKeyword, DmlWordAt, StartsWithWriteKeyword, HasWriteKeyword, Strip, MainQueryStart, StripSqlComments,
      Upper, StartsWith, SameWord;
    var clean := StripSqlComments(sql);
    var t := Strip(clean);
    StartWithin(clean, t);
    NothingSpelled(t);
    KeywordsLead(t);
    PragmaAndWith(t);
    WriteKeywordExact(clean[MainQueryStart(Upper(t))..]);
  }

  lemma StartWithin(clean: string, t: string)
    requires t == Strip(clean)
    ensures MainQueryStart(Upper(t)) <= |clean| && (Upper(t) == [] <==> t == [])
  {
  }

  lemma PragmaAndWith(t: string)
    ensures Spells(t, 0, "PRAGMA", "pragma") <==> StartsWith(Upper(t), "PRAGMA")
    ensures Spells(t, 0, "WITH", "with") <==> StartsWith(Upper(t), "WITH")
  {
    LeadsExact(t, "PRAGMA", "pragma");
    LeadsExact(t, "WITH", "with");
  }

  lemma NothingSpelled(t: string)
    ensures t == [] ==> !LeadsWithKeyword(t) && !Spells(t, 0, "PRAGMA", "pragma") && !Spells(t, 0, "WITH", "with")
  {
  }

  lemma FirstLetter(t: string, upper: string, lower: string)
    requires |upper| == |lower| && upper != [] && Spells(t, 0, upper, lower)
    ensures t != [] && (t[0] == upper[0] || t[0] == lower[0])
  {
    assert t[0 + 0] == upper[0] || t[0 + 0] == lower[0];
  }

  lemma OtherLetter(t: string, upper: string, lower: string)
    requires |upper| == |lower| && upper != [] && t != [] && t[0] != upper[0] && t[0] != lower[0]
    ensures !Spells(t, 0, upper, lower)
  {
    assert t[0 + 0] != upper[0];
  }

  lemma PragmaIsNoKeyword(t: string)
    requires Spells(t, 0, "PRAGMA", "pragma")
    ensures !LeadsWithKeyword(t) && !Spells(t, 0, "WITH", "with")
  {
    FirstLetter(t, "PRAGMA", "pragma");
    hide Spells;
    OtherLetter(t, "WITH", "with");
    OtherLetter(t, "INSERT", "insert");
    OtherLetter(t, "UPDATE", "update");
    OtherLetter(t, "DELETE", "delete");
    OtherLetter(t, "CREATE", "create");
    OtherLetter(t, "DROP", "drop");
    OtherLetter(t, "ALTER", "alter");
    OtherLetter(t, "REPLACE", "replace");
    OtherLetter(t, "VACUUM", "vacuum");
    OtherLetter(t, "REINDEX", "reindex");
    OtherLetter(t, "ANALYZE", "analyze");
    OtherLetter(t, "ATTACH", "attach");
    OtherLetter(t, "DETACH", "detach");
    OtherLetter(t, "SAVEPOINT", "savepoint");
    OtherLetter(t, "RELEASE", "release");
    OtherLetter(t, "ROLLBACK", "rollback");
  }

  /** A PRAGMA is a write exactly when an equals sign is left once the comments are gone. */
  lemma PragmaExact(sql: string)
    requires Spells(Strip(StripSqlComments(sql)), 0, "PRAGMA", "pragma")
    ensures IsWriteOperation(sql) <==> '=' in StripSqlComments(sql)
  {
    PragmaIsNoKeyword(Strip(StripSqlComments(sql)));
    ClassifierExact(sql);
    hide *;
  }

  /** A statement that starts with none of these seventeen words is a read. */
  lemma OtherStatementsRead(sql: string)
    ensures var t := Strip(StripSqlComments(sql));
            !LeadsWithKeyword(t) && !Spells(t, 0, "PRAGMA", "pragma") && !Spells(t, 0, "WITH", "with") ==> !IsWriteOperation(sql)
  {
    ClassifierExact(sql);
    hide *;
  }
}
