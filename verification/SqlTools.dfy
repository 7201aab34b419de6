/**
 The statements the agent tools print (`warehouse_tools.rs`) and the engine's reading of them
 (`handle_command`, `handle_create_warehouse`).
 */
module SqlTools {
  import opened Text
  import opened SqlCommands

  // ---- Dispatch ----

  datatype Command =
    | ShowWarehouses
    | CreateWarehouse(text: string)
    | AlterWarehouse(text: string)
    | UseWarehouse(text: string)
    | CopyInto(text: string)
    | CreateTableAs(text: string)
    | CreateView(text: string)
    | RefreshView(text: string)
    | DropView(text: string)
    | ShowTables
    | ShowDatabases
    | Describe(text: string)
    | DropTable(text: string)
    | PassThrough

  predicate StartsWith(text: string, prefix: string) {
    prefix <= Upper(text)
  }

  function WordLength(s: string): (n: nat)
    ensures n <= |s|
  {
    if s == "" || !IsIdentChar(s[0]) then 0 else 1 + WordLength(s[1..])
  }

  /** Some maximal run of identifier characters is `word`, ignoring case. */
  predicate ContainsKeyword(s: string, word: string)
    decreases |s|
  {
    var n := WordLength(s);
    || (n > 0 && EqualsIgnoreCase(s[..n], word))
    || (n < |s| && ContainsKeyword(s[n + 1..], word))
  }

  function Dispatch(sql: string): Command {
    var text := StripLeadingComments(sql);
    var table := KeywordsEnd(text, ["CREATE", "TABLE"], 0);
    if StartsWith(text, "SHOW WAREHOUSES") then ShowWarehouses
    else if StartsWith(text, "CREATE WAREHOUSE") then CreateWarehouse(text)
    else if StartsWith(text, "ALTER WAREHOUSE") then AlterWarehouse(text)
    else if StartsWith(text, "USE WAREHOUSE") then UseWarehouse(text)
    else if StartsWith(text, "COPY INTO") || StartsWith(text, "COPY ") then CopyInto(text)
    else if table.Some? && !ContainsKeyword(text, "EXTERNAL") && FindAs(text, table.value).Some? then CreateTableAs(text)
    else if KeywordsEnd(text, ["CREATE", "MATERIALIZED", "VIEW"], 0).Some? then CreateView(text)
    else if StartsWith(text, "REFRESH MATERIALIZED VIEW") then RefreshView(text)
    else if StartsWith(text, "DROP MATERIALIZED VIEW") then DropView(text)
    else if StartsWith(text, "SHOW TABLES") then ShowTables
    else if StartsWith(text, "SHOW DATABASES") || StartsWith(text, "SHOW SCHEMAS") then ShowDatabases
    else if StartsWith(text, "DESCRIBE ") || StartsWith(text, "DESC ") then Describe(text)
    else if StartsWith(text, "DROP TABLE ") then DropTable(text)
    else PassThrough
  }

  // ---- Materialized views ----

  function PrintCreateView(name: string, query: string): string {
    "CREATE MATERIALIZED VIEW " + name + " AS " + query
  }

  const HEADER := "CREATE MATERIALIZED VIEW"

  lemma {:induction false} TokenAt(word: string, rest: string)
    requires forall i :: 0 <= i < |word| ==> !IsWhitespace(word[i])
    requires rest == "" || IsWhitespace(rest[0])
    ensures TokenLength(word + rest) == |word|
  {
    if word == "" {
      assert word + rest == rest;
    } else {
      assert (word + rest)[1..] == word[1..] + rest;
      TokenAt(word[1..], rest);
    }
  }

  /** One keyword, after at most one space, is read and the reading goes on behind it. */
  lemma ReadKeyword(sql: string, expected: seq<string>, offset: nat, blanks: string, word: string, rest: string)
    requires expected != [] && offset <= |sql| && sql[offset..] == blanks + word + rest
    requires blanks == "" || blanks == " "
    requires word != "" && forall i :: 0 <= i < |word| ==> !IsWhitespace(word[i])
    requires rest == "" || IsWhitespace(rest[0])
    ensures KeywordsEnd(sql, expected, offset) ==
      if EqualsIgnoreCase(word, expected[0]) then KeywordsEnd(sql, expected[1..], offset + |blanks| + |word|) else None
  {
    hide EqualsIgnoreCase;
    assert TrimStart(blanks + word + rest) == word + rest by {
      assert (blanks + word + rest)[|blanks|..] == word + rest;
      assert blanks == "" ==> blanks + word + rest == word + rest;
    }
    TokenAt(word, rest);
    assert (word + rest)[..|word|] == word;
  }

  lemma NoMoreKeywords(sql: string, offset: nat)
    requires offset <= |sql|
    ensures KeywordsEnd(sql, [], offset) == Some(offset)
  {
  }

  lemma AfterCreate(sql: string, rest: string)
    requires sql == HEADER + rest
    ensures sql[0..] == "" + "CREATE" + (" MATERIALIZED VIEW" + rest)
    ensures sql[6..] == " " + "MATERIALIZED" + (" VIEW" + rest)
  {
  }

  lemma AfterMaterialized(sql: string, rest: string)
    requires sql == HEADER + rest
    ensures sql[19..] == " " + "VIEW" + rest
  {
  }

  lemma HeaderIsRead(sql: string, rest: string)
    requires sql == HEADER + rest && (rest == "" || IsWhitespace(rest[0]))
    ensures KeywordsEnd(sql, ["CREATE", "MATERIALIZED", "VIEW"], 0) == Some(|HEADER|)
  {
    hide KeywordsEnd, EqualsIgnoreCase, IsWhitespace;
    var view := ["CREATE", "MATERIALIZED", "VIEW"];
    assert view[1..] == ["MATERIALIZED", "VIEW"] && view[1..][1..] == ["VIEW"] && view[1..][1..][1..] == [];
    AfterCreate(sql, rest);
    AfterMaterialized(sql, rest);
    HeaderWords();
    ReadKeyword(sql, view, 0, "", "CREATE", " MATERIALIZED VIEW" + rest);
    ReadKeyword(sql, view[1..], 6, " ", "MATERIALIZED", " VIEW" + rest);
    ReadKeyword(sql, view[1..][1..], 19, " ", "VIEW", rest);
    NoMoreKeywords(sql, 24);
  }

  lemma HeaderIsNotCreateTable(sql: string, rest: string)
    requires sql == HEADER + rest && (rest == "" || IsWhitespace(rest[0]))
    ensures KeywordsEnd(sql, ["CREATE", "TABLE"], 0) == None
  {
    hide KeywordsEnd, EqualsIgnoreCase, IsWhitespace;
    var table := ["CREATE", "TABLE"];
    assert table[1..] == ["TABLE"];
    AfterCreate(sql, rest);
    HeaderWords();
    ReadKeyword(sql, table, 0, "", "CREATE", " MATERIALIZED VIEW" + rest);
    ReadKeyword(sql, table[1..], 6, " ", "MATERIALIZED", " VIEW" + rest);
  }

  lemma HeaderWords()
    ensures forall w, i :: w in {"CREATE", "MATERIALIZED", "VIEW"} && 0 <= i < |w| ==> !IsWhitespace(w[i])
    ensures IsWhitespace(' ')
    ensures EqualsIgnoreCase("CREATE", "CREATE") && EqualsIgnoreCase("MATERIALIZED", "MATERIALIZED")
    ensures EqualsIgnoreCase("VIEW", "VIEW") && !EqualsIgnoreCase("MATERIALIZED", "TABLE")
  {
    assert |Upper("MATERIALIZED")| != |Upper("TABLE")|;
  }

  predicate IsAs(name: string) {
    EqualsIgnoreCase(name, "AS")
  }

  /** No AS stands in the printed text between the header and the AS the printer wrote. */
  lemma NoEarlierAs(sql: string, name: string, query: string, i: nat)
    requires IsSafeIdentifier(name) && !IsAs(name)
    requires sql == PrintCreateView(name, query)
    requires |HEADER| <= i < |HEADER| + |name| + 2
    ensures !AsAt(sql, i) && sql[i] != '\'' && sql[i] != '"'
  {
    var at := |HEADER| + 1;
    assert sql[at - 1] == ' ' && sql[at + |name|] == ' ';
    assert forall k :: 0 <= k < |name| ==> sql[at + k] == name[k];
    if at < i < at + |name| {
      assert IsIdentChar(sql[i - 1]) && sql[i - 1] == name[i - 1 - at];
    }
  }

  lemma {:induction false} FindPrintedAs(sql: string, name: string, query: string, i: nat)
    requires IsSafeIdentifier(name) && !IsAs(name)
    requires sql == PrintCreateView(name, query)
    requires |HEADER| <= i <= |HEADER| + |name| + 2
    ensures FindAsFrom(sql, i, None) == Some(|HEADER| + |name| + 2)
    decreases |sql| - i
  {
    hide IsSafeIdentifier, PrintCreateView, AsAt;
    if i < |HEADER| + |name| + 2 {
      NoEarlierAs(sql, name, query, i);
      PrintedLength(name, query);
      FindPrintedAs(sql, name, query, i + 1);
    } else {
      PrintedAs(sql, name, query);
    }
  }

  lemma PrintedLength(name: string, query: string)
    ensures |PrintCreateView(name, query)| == |HEADER| + 1 + |name| + 4 + |query|
  {
  }

  lemma PrintedAs(sql: string, name: string, query: string)
    requires sql == PrintCreateView(name, query)
    ensures var i := |HEADER| + |name| + 2;
      AsAt(sql, i) && sql[i + 2..] == " " + query
  {
    var i := |HEADER| + |name| + 2;
    assert sql == HEADER + " " + name + " " + "AS" + (" " + query);
    assert sql[i - 1] == ' ' && sql[i] == 'A' && sql[i + 1] == 'S' && sql[i + 2] == ' ';
  }

  lemma TrimOfPadded(word: string, tail: string)
    requires word != "" && !IsWhitespace(word[0]) && !IsWhitespace(word[|word| - 1])
    requires tail == "" || tail == " "
    ensures Trim(" " + word + tail) == word
  {
    assert (" " + word + tail)[1..] == word + tail;
    assert TrimStart(word + tail) == word + tail;
    assert tail == " " ==> (word + tail)[..|word|] == word;
    assert tail == "" ==> word + tail == word;
    assert TrimEnd(word) == word;
  }

  lemma NotAPrefix(text: string, prefix: string, k: nat)
    requires k < |text| && k < |prefix| && UpperChar(text[k]) != prefix[k]
    ensures !StartsWith(text, prefix)
  {
  }

  lemma NoCommentToStrip(sql: string)
    requires sql != "" && IsAlpha(sql[0])
    ensures StripLeadingComments(sql) == sql
  {
    assert TrimStart(sql) == sql;
  }

  /** The command the engine sees for a printed view is the view handler's, on the text as printed. */
  lemma PrintedViewDispatches(name: string, query: string)
    ensures Dispatch(PrintCreateView(name, query)) == CreateView(PrintCreateView(name, query))
  {
    hide KeywordsEnd, StripLeadingComments, StartsWith, FindAs, ContainsKeyword;
    var sql := PrintCreateView(name, query);
    var rest := " " + name + " AS " + query;
    assert sql == HEADER + rest;
    assert sql[0] == 'C' && sql[1] == 'R' && sql[7] == 'M';
    NoCommentToStrip(sql);
    HeaderIsRead(sql, rest);
    HeaderIsNotCreateTable(sql, rest);
    NotAPrefix(sql, "SHOW WAREHOUSES", 0);
    NotAPrefix(sql, "CREATE WAREHOUSE", 7);
    NotAPrefix(sql, "ALTER WAREHOUSE", 0);
    NotAPrefix(sql, "USE WAREHOUSE", 0);
    NotAPrefix(sql, "COPY INTO", 1);
    NotAPrefix(sql, "COPY ", 1);
  }

  lemma RefreshDispatches(rest: string)
    requires rest != "" && IsWhitespace(rest[0])
    ensures Dispatch("REFRESH MATERIALIZED VIEW" + rest) == RefreshView("REFRESH MATERIALIZED VIEW" + rest)
  {
    hide KeywordsEnd, StripLeadingComments, StartsWith, FindAs, ContainsKeyword, IsWhitespace;
    ViewWords();
    assert "REFRESH MATERIALIZED VIEW" == "REFRESH" + " MATERIALIZED VIEW";
    ViewKeywords("REFRESH MATERIALIZED VIEW", "REFRESH", rest);
  }

  lemma DropDispatches(rest: string)
    requires rest != "" && IsWhitespace(rest[0])
    ensures Dispatch("DROP MATERIALIZED VIEW" + rest) == DropView("DROP MATERIALIZED VIEW" + rest)
  {
    hide KeywordsEnd, StripLeadingComments, StartsWith, FindAs, ContainsKeyword, IsWhitespace;
    ViewWords();
    assert "DROP MATERIALIZED VIEW" == "DROP" + " MATERIALIZED VIEW";
    ViewKeywords("DROP MATERIALIZED VIEW", "DROP", rest);
  }

  lemma ViewKeywords(keywords: string, word: string, rest: string)
    requires keywords == word + " MATERIALIZED VIEW" && word != "" && |word| != 6 && (word[0] == 'R' || word[0] == 'D')
    requires forall i :: 0 <= i < |word| ==> 'A' <= word[i] <= 'Z' && !IsWhitespace(word[i])
    ensures var sql := keywords + rest;
      && StripLeadingComments(sql) == sql && StartsWith(sql, keywords)
      && KeywordsEnd(sql, ["CREATE", "TABLE"], 0) == None
      && KeywordsEnd(sql, ["CREATE", "MATERIALIZED", "VIEW"], 0) == None
      && !StartsWith(sql, "SHOW WAREHOUSES") && !StartsWith(sql, "CREATE WAREHOUSE")
      && !StartsWith(sql, "ALTER WAREHOUSE") && !StartsWith(sql, "USE WAREHOUSE")
      && !StartsWith(sql, "COPY INTO") && !StartsWith(sql, "COPY ")
      && (word[0] == 'D' ==> !StartsWith(sql, "REFRESH MATERIALIZED VIEW"))
  {
    hide KeywordsEnd, StripLeadingComments, StartsWith;
    var sql := keywords + rest;
    assert sql[0] == word[0];
    NoCommentToStrip(sql);
    assert sql == word + (" MATERIALIZED VIEW" + rest);
    FirstWordIsNotCreate(sql, word, " MATERIALIZED VIEW" + rest);
    NoOtherKeywords(sql);
    PrintedPrefix(keywords, rest);
  }

  lemma ViewWords()
    ensures forall w, i :: w in {"REFRESH", "DROP"} && 0 <= i < |w| ==> !IsWhitespace(w[i])
  {
  }

  lemma NoOtherKeywords(sql: string)
    requires sql != "" && (sql[0] == 'R' || sql[0] == 'D')
    ensures !StartsWith(sql, "SHOW WAREHOUSES") && !StartsWith(sql, "CREATE WAREHOUSE")
    ensures !StartsWith(sql, "ALTER WAREHOUSE") && !StartsWith(sql, "USE WAREHOUSE")
    ensures !StartsWith(sql, "COPY INTO") && !StartsWith(sql, "COPY ")
    ensures sql[0] == 'D' ==> !StartsWith(sql, "REFRESH MATERIALIZED VIEW")
  {
    hide StartsWith;
    NotAPrefix(sql, "SHOW WAREHOUSES", 0);
    NotAPrefix(sql, "CREATE WAREHOUSE", 0);
    NotAPrefix(sql, "ALTER WAREHOUSE", 0);
    NotAPrefix(sql, "USE WAREHOUSE", 0);
    NotAPrefix(sql, "COPY INTO", 0);
    NotAPrefix(sql, "COPY ", 0);
    if sql[0] == 'D' {
      NotAPrefix(sql, "REFRESH MATERIALIZED VIEW", 0);
    }
  }

  lemma PrintedPrefix(prefix: string, rest: string)
    requires forall i :: 0 <= i < |prefix| ==> UpperChar(prefix[i]) == prefix[i]
    ensures StartsWith(prefix + rest, prefix)
  {
    assert forall i :: 0 <= i < |prefix| ==> Upper(prefix + rest)[i] == prefix[i];
  }

  lemma FirstWordIsNotCreate(sql: string, word: string, rest: string)
    requires sql == word + rest && word != "" && |word| != 6
    requires forall i :: 0 <= i < |word| ==> !IsWhitespace(word[i])
    requires rest != "" && IsWhitespace(rest[0])
    ensures KeywordsEnd(sql, ["CREATE", "TABLE"], 0) == None
    ensures KeywordsEnd(sql, ["CREATE", "MATERIALIZED", "VIEW"], 0) == None
  {
    hide KeywordsEnd, EqualsIgnoreCase, IsWhitespace;
    assert sql[0..] == "" + word + rest;
    LengthsDiffer(word, "CREATE");
    ReadKeyword(sql, ["CREATE", "TABLE"], 0, "", word, rest);
    ReadKeyword(sql, ["CREATE", "MATERIALIZED", "VIEW"], 0, "", word, rest);
  }

  lemma LengthsDiffer(a: string, b: string)
    requires |a| != |b|
    ensures !EqualsIgnoreCase(a, b)
  {
    assert |Upper(a)| != |Upper(b)|;
  }

  lemma PrintedQueryText(sql: string, query: string, j: nat)
    requires j <= |sql| && sql[j..] == " " + query
    ensures sql[|sql| - |TrimStart(sql[j..])|..] == TrimStart(query)
  {
    assert (" " + query)[1..] == query;
    TrimStartRemovesBlanks(query);
    var k := |query| - |TrimStart(query)|;
    assert sql[j..][1 + k..] == query[k..] == TrimStart(query);
    assert sql[j..][1 + k..] == sql[j + 1 + k..];
  }

  /** What the view parser makes of a printed statement whose name is not the word AS. */
  lemma ParsePrintedView(name: string, query: string)
    requires IsSafeIdentifier(name) && !IsAs(name)
    ensures var valid := ValidateMaterializationQuery(query);
      ParseCreateView(PrintCreateView(name, query)) ==
        if valid.Ok? then Ok(ViewDefinition(name, valid.value)) else Err(valid.error)
  {
    hide KeywordsEnd, FindAsFrom, Trim, TrimStart, ValidateMaterializationQuery, AsAt, IsAs;
    var sql := PrintCreateView(name, query);
    var i := |HEADER| + |name| + 2;
    PrintedLength(name, query);
    assert sql == HEADER + (" " + name + " AS " + query);
    HeaderIsRead(sql, " " + name + " AS " + query);
    FindPrintedAs(sql, name, query, |HEADER|);
    PrintedAs(sql, name, query);
    assert sql[|HEADER|..i] == " " + name + " ";
    assert IsIdentChar(name[0]) && IsIdentChar(name[|name| - 1]);
    TrimOfPadded(name, " ");
    PrintedQueryText(sql, query, i + 2);
    ValidationIgnoresLeadingBlanks(query);
  }

  lemma NameAsIsNotRead(name: string, query: string)
    requires IsSafeIdentifier(name) && IsAs(name)
    ensures ParseCreateView(PrintCreateView(name, query)).Err?
  {
    hide KeywordsEnd, ValidateMaterializationQuery;
    var sql := PrintCreateView(name, query);
    assert |name| == |Upper(name)| == 2;
    assert Upper(name)[0] == 'A' && Upper(name)[1] == 'S';
    PrintedLength(name, query);
    assert sql == HEADER + (" " + name + " AS " + query);
    HeaderIsRead(sql, " " + name + " AS " + query);
    assert sql[24] == ' ' && sql[25] == name[0] && sql[26] == name[1] && sql[27] == ' ';
    assert AsAt(sql, 25) && !AsAt(sql, 24);
    assert FindAsFrom(sql, 25, None) == Some(25);
    assert FindAsFrom(sql, 24, None) == Some(25);
    assert sql[24..25] == " ";
    assert TrimStart(" ") == TrimStart(" "[1..]) == "";
  }

  /**
   The view the tool asks for is the view the engine defines: for a safe name and a query that
   validates, the engine's command is the view command and its parser recovers the name and the
   query exactly when the name is not the word AS; a query that does not validate is refused.
   */
  lemma ViewToolRoundTrip(name: string, query: string)
    requires IsSafeIdentifier(name)
    ensures var text := PrintCreateView(name, query);
      var valid := ValidateMaterializationQuery(query);
      && Dispatch(text) == CreateView(text)
      && (valid.Ok? ==> (ParseCreateView(text) == Ok(ViewDefinition(name, valid.value)) <==> !IsAs(name)))
      && (valid.Err? ==> ParseCreateView(text).Err?)
  {
    hide ParseCreateView, ValidateMaterializationQuery, IsAs;
    PrintedViewDispatches(name, query);
    if IsAs(name) {
      NameAsIsNotRead(name, query);
    } else {
      ParsePrintedView(name, query);
    }
  }
}
