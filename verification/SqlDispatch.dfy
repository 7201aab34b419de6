/** Which handler takes a statement (`handle_command`), told on the text that is left when leading comments are stripped. */
module SqlDispatch {
  import opened Text
  import opened SqlCommands
  import opened SqlReading
  import opened SqlTools

  /** The text begins with these characters, in any case. */
  predicate Begins(text: string, prefix: string) {
    |prefix| <= |text| && SameText(text[..|prefix|], prefix)
  }

  lemma StartsWithIff(text: string, prefix: string)
    requires Upper(prefix) == prefix
    ensures StartsWith(text, prefix) <==> Begins(text, prefix)
  {
    if |prefix| <= |text| {
      EqualsIgnoreCaseIff(text[..|prefix|], prefix);
      assert Upper(text[..|prefix|]) == Upper(text)[..|prefix|];
    }
  }

  /** The word stands in the text as a whole run of identifier characters. */
  ghost predicate HasWord(s: string, word: string) {
    exists i: nat, j: nat :: i < j <= |s| && IsRun(s, i, j) && SameText(s[i..j], word)
  }

  predicate IsRun(s: string, i: nat, j: nat) {
    && i < j <= |s| && (forall k :: i <= k < j ==> IsNameCode(s[k] as int))
    && (i == 0 || !IsNameCode(s[i - 1] as int)) && (j == |s| || !IsNameCode(s[j] as int))
  }

  lemma {:induction false} WordLengthIs(s: string)
    ensures var n := WordLength(s);
      (forall k :: 0 <= k < n ==> IsNameCode(s[k] as int)) && (n < |s| ==> !IsNameCode(s[n] as int))
  {
    if s != "" {
      CodesAre(s[0]);
      if IsIdentChar(s[0]) {
        WordLengthIs(s[1..]);
        assert forall k :: 0 < k < |s| ==> s[k] == s[1..][k - 1];
      }
    }
  }

  /** The runs of a text are its first one and those behind the character that ends it. */
  lemma RunsAre(s: string, i: nat, j: nat)
    ensures var n := WordLength(s);
      && (i == 0 ==> (IsRun(s, i, j) <==> 0 < n && j == n))
      && (0 < i <= n ==> !IsRun(s, i, j))
      && (i > n && n < |s| ==> j > n ==> (IsRun(s, i, j) <==> IsRun(s[n + 1..], i - n - 1, j - n - 1)))
      && (i > n && n == |s| ==> !IsRun(s, i, j))
  {
    hide IsNameCode;
    WordLengthIs(s);
    var n := WordLength(s);
    hide WordLength;
    if i > n && n < |s| {
      assert forall k :: n < k < |s| ==> s[k] == s[n + 1..][k - n - 1];
    }
  }

  lemma {:induction false} ContainsKeywordIff(s: string, word: string)
    ensures ContainsKeyword(s, word) <==> HasWord(s, word)
    decreases |s|
  {
    hide WordLength, IsRun, EqualsIgnoreCase, SameText;
    var n := WordLength(s);
    EqualsIgnoreCaseIff(s[..n], word);
    assert s[0..n] == s[..n];
    forall i: nat, j: nat
      ensures IsRun(s, i, j) ==> (i == 0 && j == n && n > 0)
                                 || (i > n && n < |s| && j > n && j <= |s| && IsRun(s[n + 1..], i - n - 1, j - n - 1))
    {
      RunsAre(s, i, j);
      RunIsInside(s, i, j);
    }
    RunsAre(s, 0, n);
    if n < |s| {
      var rest := s[n + 1..];
      ContainsKeywordIff(rest, word);
      if HasWord(s, word) {
        var i: nat, j: nat :| i < j <= |s| && IsRun(s, i, j) && SameText(s[i..j], word);
        if i > n {
          RunIsInside(s, i, j);
          assert rest[i - n - 1..j - n - 1] == s[i..j];
        }
      }
      if HasWord(rest, word) {
        var i: nat, j: nat :| i < j <= |rest| && IsRun(rest, i, j) && SameText(rest[i..j], word);
        RunIsInside(rest, i, j);
        RunsAre(s, i + n + 1, j + n + 1);
        assert rest[i..j] == s[i + n + 1..j + n + 1];
      }
    }
  }

  lemma RunIsInside(s: string, i: nat, j: nat)
    ensures IsRun(s, i, j) ==> i < j <= |s|
  {
  }

  /** The first of these that fits decides; what fits none is passed to the query engine. */
  lemma DispatchIs(sql: string)
    ensures var text := StripLeadingComments(sql); var table := KeywordsEnd(text, ["CREATE", "TABLE"], 0);
      Dispatch(sql) ==
        if Begins(text, "SHOW WAREHOUSES") then ShowWarehouses
        else if Begins(text, "CREATE WAREHOUSE") then CreateWarehouse(text)
        else if Begins(text, "ALTER WAREHOUSE") then AlterWarehouse(text)
        else if Begins(text, "USE WAREHOUSE") then UseWarehouse(text)
        else if Begins(text, "COPY ") then CopyInto(text)
        else if table.Some? && !HasWord(text, "EXTERNAL") && FindAs(text, table.value).Some? then CreateTableAs(text)
        else if KeywordsEnd(text, ["CREATE", "MATERIALIZED", "VIEW"], 0).Some? then CreateView(text)
        else if Begins(text, "REFRESH MATERIALIZED VIEW") then RefreshView(text)
        else if Begins(text, "DROP MATERIALIZED VIEW") then DropView(text)
        else if Begins(text, "SHOW TABLES") then ShowTables
        else if Begins(text, "SHOW DATABASES") || Begins(text, "SHOW SCHEMAS") then ShowDatabases
        else if Begins(text, "DESCRIBE ") || Begins(text, "DESC ") then Describe(text)
        else if Begins(text, "DROP TABLE ") then DropTable(text)
        else PassThrough
  {
    hide StripLeadingComments, KeywordsEnd, FindAs, ContainsKeyword, HasWord, StartsWith, Begins;
    var text := StripLeadingComments(sql);
    WarehousePrefixes(text);
    CopyPrefix(text);
    ViewPrefixes(text);
    ShowPrefixes(text);
    OtherPrefixes(text);
    ContainsKeywordIff(text, "EXTERNAL");
  }

  lemma WarehousePrefixes(text: string)
    ensures StartsWith(text, "SHOW WAREHOUSES") <==> Begins(text, "SHOW WAREHOUSES")
    ensures StartsWith(text, "CREATE WAREHOUSE") <==> Begins(text, "CREATE WAREHOUSE")
    ensures StartsWith(text, "ALTER WAREHOUSE") <==> Begins(text, "ALTER WAREHOUSE")
    ensures StartsWith(text, "USE WAREHOUSE") <==> Begins(text, "USE WAREHOUSE")
  {
    hide StartsWith, Begins;
    StartsWithIff(text, "SHOW WAREHOUSES");
    StartsWithIff(text, "CREATE WAREHOUSE");
    StartsWithIff(text, "ALTER WAREHOUSE");
    StartsWithIff(text, "USE WAREHOUSE");
  }

  /** COPY INTO begins with COPY and a space, so that the shorter prefix decides. */
  lemma CopyPrefix(text: string)
    ensures StartsWith(text, "COPY INTO") || StartsWith(text, "COPY ") <==> Begins(text, "COPY ")
  {
    StartsWithIff(text, "COPY ");
    hide Begins;
    assert "COPY INTO"[..5] == "COPY ";
    assert StartsWith(text, "COPY INTO") ==> Upper(text)[..9][..5] == Upper(text)[..5];
  }

  lemma ViewPrefixes(text: string)
    ensures StartsWith(text, "REFRESH MATERIALIZED VIEW") <==> Begins(text, "REFRESH MATERIALIZED VIEW")
    ensures StartsWith(text, "DROP MATERIALIZED VIEW") <==> Begins(text, "DROP MATERIALIZED VIEW")
  {
    hide StartsWith, Begins;
    StartsWithIff(text, "REFRESH MATERIALIZED VIEW");
    StartsWithIff(text, "DROP MATERIALIZED VIEW");
  }

  lemma ShowPrefixes(text: string)
    ensures StartsWith(text, "SHOW TABLES") <==> Begins(text, "SHOW TABLES")
    ensures StartsWith(text, "SHOW DATABASES") <==> Begins(text, "SHOW DATABASES")
    ensures StartsWith(text, "SHOW SCHEMAS") <==> Begins(text, "SHOW SCHEMAS")
  {
    hide StartsWith, Begins;
    StartsWithIff(text, "SHOW TABLES");
    StartsWithIff(text, "SHOW DATABASES");
    StartsWithIff(text, "SHOW SCHEMAS");
  }

  lemma OtherPrefixes(text: string)
    ensures StartsWith(text, "DESCRIBE ") <==> Begins(text, "DESCRIBE ")
    ensures StartsWith(text, "DESC ") <==> Begins(text, "DESC ")
    ensures StartsWith(text, "DROP TABLE ") <==> Begins(text, "DROP TABLE ")
  {
    hide StartsWith, Begins;
    StartsWithIff(text, "DESCRIBE ");
    StartsWithIff(text, "DESC ");
    StartsWithIff(text, "DROP TABLE ");
  }
}
