/**
 What the parsers of the engine's own commands accept (`commands.rs`), told on the text: which words are read, where
 the AS of a definition stands, which queries can be materialized, and which names are safe.
 */
module SqlReading {
  import opened Literals
  import opened Text
  import opened SqlSplit
  import opened SqlCommands

  // ---- Names ----

  /** The ASCII codes of digits. */
  predicate IsDigitCode(n: int) {
    48 <= n <= 57
  }

  /** The ASCII codes of digits, capitals, small letters and the underscore. */
  predicate IsNameCode(n: int) {
    IsDigitCode(n) || 65 <= n <= 90 || 97 <= n <= 122 || n == 95
  }

  lemma CodesAre(c: char)
    ensures IsIdentChar(c) <==> IsNameCode(c as int)
    ensures IsDigit(c) <==> IsDigitCode(c as int)
  {
  }

  /** A safe name has 1 to 128 letters, digits and underscores, and does not start with a digit. */
  lemma SafeIdentifierIff(name: string)
    ensures IsSafeIdentifier(name) <==>
      1 <= |name| <= 128 && !IsDigitCode(name[0] as int) && forall c :: c in name ==> IsNameCode(c as int)
  {
    hide IsIdentChar, IsDigit, IsNameCode, IsDigitCode;
    forall c
      ensures IsIdentChar(c) <==> IsNameCode(c as int)
      ensures IsDigit(c) <==> IsDigitCode(c as int)
    {
      CodesAre(c);
    }
    assert forall i :: 0 <= i < |name| ==> name[i] in name;
  }

  // ---- Words ----

  /** Behind blanks the word stands from `i` to `j`, with a blank or the end of the text behind it. */
  predicate WordAt(sql: string, from: nat, i: nat, j: nat, word: string) {
    && from <= i <= j <= |sql|
    && (forall k :: from <= k < i ==> IsWhitespace(sql[k])) && (forall k :: i <= k < j ==> !IsWhitespace(sql[k]))
    && (j < |sql| ==> i < j && IsWhitespace(sql[j]))
    && SameText(sql[i..j], word)
  }

  /** The words stand one after the other, the last one ending at `end`. */
  ghost predicate WordsAt(sql: string, from: nat, words: seq<string>, end: nat)
    decreases |words|
  {
    if words == [] then end == from
    else exists i, j :: WordAt(sql, from, i, j, words[0]) && WordsAt(sql, j, words[1..], end)
  }

  lemma {:induction false} TrimStartIs(s: string)
    ensures var n := |s| - |TrimStart(s)|;
      s[n..] == TrimStart(s) && (forall k :: 0 <= k < n ==> IsWhitespace(s[k])) && (n < |s| ==> !IsWhitespace(s[n]))
  {
    if s != "" && IsWhitespace(s[0]) {
      TrimStartIs(s[1..]);
    }
  }

  /** The first word is where the blanks end, and reaches to the next blank. */
  lemma FirstWordIs(sql: string, from: nat, i: nat, j: nat, word: string)
    requires from <= |sql|
    ensures var rest := TrimStart(sql[from..]); var n := TokenLength(rest);
      && sql[|sql| - |rest|..][..n] == rest[..n]
      && (WordAt(sql, from, i, j, word) <==>
            i == |sql| - |rest| && j == i + n && EqualsIgnoreCase(rest[..n], word))
  {
    hide IsWhitespace, SameText, EqualsIgnoreCase, TrimStart, TokenLength;
    var rest := TrimStart(sql[from..]);
    var at := |sql| - |rest|;
    TrimStartIs(sql[from..]);
    assert sql[at..] == rest;
    var n := TokenLength(rest);
    var to := at + n;
    assert sql[at..to] == rest[..n];
    EqualsIgnoreCaseIff(rest[..n], word);
    assert forall k :: from <= k < at ==> IsWhitespace(sql[k]) by {
      assert forall k :: from <= k < at ==> sql[k] == sql[from..][k - from];
    }
    assert forall k :: at <= k < to ==> !IsWhitespace(sql[k]) by {
      assert forall k :: at <= k < to ==> sql[k] == rest[k - at];
    }
    assert at < |sql| ==> !IsWhitespace(sql[at]) by {
      assert at < |sql| ==> sql[at] == rest[0];
    }
    assert to < |sql| ==> IsWhitespace(sql[to]) by {
      assert to < |sql| ==> sql[to] == rest[n];
    }
    var blankAtI, blankAtJ := i < |sql| && IsWhitespace(sql[i]), j < |sql| && IsWhitespace(sql[j]);
    if WordAt(sql, from, i, j, word) {
      assert at == i && to == j;
    } else if i == at && j == to {
      assert to < |sql| ==> at < to;
    }
  }

  lemma KeywordsEnded(sql: string, from: nat)
    requires from <= |sql|
    ensures KeywordsEnd(sql, [], from) == Some(from)
  {
  }

  /** The keywords are read exactly when their words stand there, and the reading ends where the last one does. */
  lemma {:induction false} KeywordsIff(sql: string, expected: seq<string>, from: nat, end: nat)
    requires from <= |sql|
    ensures KeywordsEnd(sql, expected, from) == Some(end) <==> WordsAt(sql, from, expected, end)
    decreases |expected|
  {
    hide TrimStart, TokenLength, EqualsIgnoreCase, WordAt;
    if expected == [] {
      KeywordsEnded(sql, from);
    } else {
      var rest := TrimStart(sql[from..]);
      var at, n := |sql| - |rest|, TokenLength(rest);
      forall i, j
        ensures WordAt(sql, from, i, j, expected[0]) <==>
          i == at && j == at + n && EqualsIgnoreCase(rest[..n], expected[0])
      {
        FirstWordIs(sql, from, i, j, expected[0]);
      }
      KeywordsIff(sql, expected[1..], at + n, end);
      if EqualsIgnoreCase(rest[..n], expected[0]) {
        assert WordAt(sql, from, at, at + n, expected[0]);
      }
    }
  }

  // ---- AS ----

  /** The word AS, in any case, stands at `i` and is part of no identifier. */
  predicate AsStandsAt(sql: string, i: nat) {
    && i + 2 <= |sql| && SameText(sql[i..i + 2], "as")
    && (i == 0 || !IsNameCode(sql[i - 1] as int)) && (i + 2 == |sql| || !IsNameCode(sql[i + 2] as int))
  }

  lemma AsIff(sql: string, i: nat)
    ensures AsAt(sql, i) <==> AsStandsAt(sql, i)
  {
    hide IsIdentChar, IsNameCode;
    if i + 2 <= |sql| {
      var two := sql[i..i + 2];
      assert two == [sql[i], sql[i + 1]] && "as" == ['a', 's'];
      assert SameText(two, "as") <==> SameLetter(sql[i], 'a') && SameLetter(sql[i + 1], 's');
      if i > 0 {
        CodesAre(sql[i - 1]);
      }
      if i + 2 < |sql| {
        CodesAre(sql[i + 2]);
      }
    }
  }

  /** The clause found is the first AS outside the literals opened behind the start, and its query starts behind the blanks. */
  lemma FindAsIff(sql: string, start: nat)
    requires start <= |sql|
    ensures var r := FindAs(sql, start);
      && (r.Some? ==>
            && start <= r.value.0 && AsStandsAt(sql, r.value.0) && Toggles(None, sql[start..r.value.0]).None?
            && r.value.0 + 2 <= r.value.1 <= |sql|
            && (forall k :: r.value.0 + 2 <= k < r.value.1 ==> IsWhitespace(sql[k]))
            && (r.value.1 < |sql| ==> !IsWhitespace(sql[r.value.1])))
      && (forall j :: start <= j < (if r.Some? then r.value.0 else |sql|) ==>
            !(AsStandsAt(sql, j) && Toggles(None, sql[start..j]).None?))
  {
    hide AsAt, AsStandsAt, FindAsFrom, Toggles, IsWhitespace;
    FindAsIsLeast(sql, start, None);
    var r := FindAsFrom(sql, start, None);
    forall j
      ensures AsAt(sql, j) <==> AsStandsAt(sql, j)
    {
      AsIff(sql, j);
    }
    if r.Some? {
      var tail := sql[r.value + 2..];
      TrimStartIs(tail);
      hide TrimStart;
      assert forall k :: r.value + 2 <= k < |sql| ==> sql[k] == tail[k - r.value - 2];
    }
  }

  // ---- Queries and definitions ----

  /** Blanks and opening parentheses come before a query's first word and end it. */
  predicate IsBreak(c: char) {
    IsWhitespace(c) || c == '('
  }

  /** The first word of the text stands from `i` to `j`. */
  predicate FirstWordAt(s: string, i: nat, j: nat) {
    && i <= j <= |s|
    && (forall k :: 0 <= k < i ==> IsBreak(s[k])) && (forall k :: i <= k < j ==> !IsBreak(s[k]))
    && (j < |s| ==> i < j && IsBreak(s[j]))
  }

  lemma {:induction false} KeywordLengthIs(s: string)
    ensures var n := KeywordLength(s);
      (forall k :: 0 <= k < n ==> !IsBreak(s[k])) && (n < |s| ==> IsBreak(s[n]))
  {
    if s != "" && !IsBreak(s[0]) {
      KeywordLengthIs(s[1..]);
      assert forall k :: 0 < k < |s| ==> s[k] == s[1..][k - 1];
    }
  }

  lemma {:induction false} FirstKeywordIs(s: string) returns (i: nat, j: nat)
    ensures FirstWordAt(s, i, j) && FirstKeyword(s) == Upper(s[i..j])
  {
    if s != "" && IsBreak(s[0]) {
      i, j := FirstKeywordIs(s[1..]);
      assert forall k :: 0 < k < |s| ==> s[k] == s[1..][k - 1];
      assert s[i + 1..j + 1] == s[1..][i..j];
      i, j := i + 1, j + 1;
    } else {
      KeywordLengthIs(s);
      i, j := 0, KeywordLength(s);
      assert s[0..j] == s[..j];
    }
  }

  lemma FirstWordIsUnique(s: string, i: nat, j: nat, k: nat, l: nat)
    requires FirstWordAt(s, i, j) && FirstWordAt(s, k, l)
    ensures i == k && j == l
  {
    hide IsBreak;
    var atI, atJ, atK, atL := i < |s| && IsBreak(s[i]), j < |s| && IsBreak(s[j]), k < |s| && IsBreak(s[k]), l < |s| && IsBreak(s[l]);
    assert i == k && j == l;
  }

  /** The text starts, behind blanks and parentheses, with the word SELECT or WITH. */
  ghost predicate StartsQuery(s: string) {
    exists i: nat, j: nat :: FirstWordAt(s, i, j) && (SameText(s[i..j], "select") || SameText(s[i..j], "with"))
  }

  lemma FirstKeywordIff(s: string)
    ensures FirstKeyword(s) == "SELECT" || FirstKeyword(s) == "WITH" <==> StartsQuery(s)
  {
    hide FirstWordAt, FirstKeyword, SameText, Upper;
    var i, j := FirstKeywordIs(s);
    UpperIs(s[i..j]);
    forall k: nat, l: nat | FirstWordAt(s, k, l)
      ensures k == i && l == j
    {
      FirstWordIsUnique(s, i, j, k, l);
    }
  }

  lemma UpperIs(word: string)
    ensures Upper(word) == "SELECT" <==> SameText(word, "select")
    ensures Upper(word) == "WITH" <==> SameText(word, "with")
  {
    EqualsIgnoreCaseIff(word, "select");
    EqualsIgnoreCaseIff(word, "with");
    assert Upper("select") == "SELECT" && Upper("with") == "WITH";
  }

  /**
   A query can be materialized exactly when it is one statement that starts, behind at most one parenthesis and
   then comments, with SELECT or WITH; what is stored is that statement.
   */
  lemma ValidationIff(query: string)
    ensures var r, statements := ValidateMaterializationQuery(query), Split(query);
      && (|statements| != 1 ==> r == Err(NotOneStatement))
      && (|statements| == 1 ==>
            var q := statements[0];
            && q != "" && (r.Ok? <==> StartsQuery(StripLeadingComments(if q[0] == '(' then q[1..] else q)))
            && (r.Ok? ==> r.value == q) && (r.Err? ==> r.error.NotAQuery?))
  {
    hide Split, StripLeadingComments, FirstKeyword, StartsQuery;
    SplitFromCanonical(query, "");
    if |Split(query)| == 1 {
      var q := Split(query)[0];
      TrimmedStart(query);
      FirstKeywordIff(StripLeadingComments(if q[0] == '(' then q[1..] else q));
      assert "(" <= q <==> q[0] == '(';
    }
  }

  lemma TrimmedStart(query: string)
    requires |Split(query)| == 1
    ensures var q := Split(query)[0]; q != "" && TrimStart(q) == q
  {
    hide SplitFrom, Quiet, TrimEnd;
    SplitFromCanonical(query, "");
    assert OneStatement(Split(query)[0]);
  }

  /**
   A view's definition: behind the keywords comes the name, up to the first AS, and behind that the query. What is
   reported is the first of these that is not there or not valid, the query before the name.
   */
  lemma ParseCreateViewIs(sql: string, end: nat)
    requires WordsAt(sql, 0, ["CREATE", "MATERIALIZED", "VIEW"], end)
    ensures end <= |sql|
    ensures var r, clause := ParseCreateView(sql), FindAs(sql, end);
      if clause.None? then r == Err(MissingAs)
      else
        var name, query := Trim(sql[end..clause.value.0]), ValidateMaterializationQuery(sql[clause.value.1..]);
        if query.Err? then r == Err(query.error)
        else if name == "" then r == Err(MissingName)
        else if !IsSafeIdentifier(name) then r == Err(BadIdentifier(name))
        else r == Ok(ViewDefinition(name, query.value))
  {
    hide KeywordsEnd, FindAs, Trim, ValidateMaterializationQuery, IsSafeIdentifier, WordsAt;
    KeywordsIff(sql, ["CREATE", "MATERIALIZED", "VIEW"], 0, end);
  }

  /** Without the keywords the text is refused. */
  lemma HeaderIsNeeded(sql: string)
    ensures ParseCreateView(sql) == Err(MissingHeader) <==>
      forall end: nat :: !WordsAt(sql, 0, ["CREATE", "MATERIALIZED", "VIEW"], end)
  {
    hide KeywordsEnd, FindAs, Trim, IsSafeIdentifier, WordsAt, ValidateMaterializationQuery;
    forall end: nat
      ensures KeywordsEnd(sql, ["CREATE", "MATERIALIZED", "VIEW"], 0) == Some(end) <==>
        WordsAt(sql, 0, ["CREATE", "MATERIALIZED", "VIEW"], end)
    {
      KeywordsIff(sql, ["CREATE", "MATERIALIZED", "VIEW"], 0, end);
    }
    var header := KeywordsEnd(sql, ["CREATE", "MATERIALIZED", "VIEW"], 0);
    if header.Some? {
      assert WordsAt(sql, 0, ["CREATE", "MATERIALIZED", "VIEW"], header.value);
    }
    ValidationIff(if header.Some? && FindAs(sql, header.value).Some? then sql[FindAs(sql, header.value).value.1..] else "");
  }
}
