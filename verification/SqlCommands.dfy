/** Recognising and parsing the commands the engine handles itself (`commands.rs`). */
module SqlCommands {
  import opened Literals
  import opened Text
  import opened SqlSplit

  // ---- Leading comments ----

  /** The first position at which `pat` occurs in `s`. */
  function Find(s: string, pat: string): (r: Option<nat>)
    ensures r.Some? ==> r.value + |pat| <= |s|
  {
    if pat <= s then Some(0)
    else if s == "" then None
    else var rest := Find(s[1..], pat); if rest.Some? then Some(rest.value + 1) else None
  }

  predicate OpensBlock(s: string) {
    |s| >= 2 && s[0] == '/' && s[1] == '*'
  }

  predicate OpensLine(s: string) {
    |s| >= 2 && s[0] == '-' && s[1] == '-'
  }

  /** The length of the comment at the start of `s`; an unended line comment runs to the end. */
  function CommentLength(s: string): (n: Option<nat>)
    ensures n.Some? ==> 2 <= n.value <= |s|
  {
    if OpensBlock(s) then
      var end := Find(s[2..], "*/");
      if end.Some? then Some(end.value + 4) else None
    else if OpensLine(s) then
      var newline := Find(s[2..], "\n");
      Some(if newline.Some? then newline.value + 3 else |s|)
    else None
  }

  function StripLeadingComments(sql: string): (r: string)
    ensures |r| <= |sql|
    decreases |sql|
  {
    var s := TrimStart(sql);
    var n := CommentLength(s);
    if n.Some? then StripLeadingComments(s[n.value..]) else s
  }

  lemma TrimStartTwice(s: string)
    ensures TrimStart(TrimStart(s)) == TrimStart(s)
  {
  }

  lemma StripStep(s: string)
    requires TrimStart(s) == s
    ensures var n := CommentLength(s);
      StripLeadingComments(s) == if n.Some? then StripLeadingComments(TrimStart(s[n.value..])) else s
  {
    hide TrimStart, CommentLength;
    var n := CommentLength(s);
    if n.Some? {
      TrimStartTwice(s[n.value..]);
    }
  }

  lemma EmptyStrips()
    ensures TrimStart("") == "" && StripLeadingComments("") == ""
  {
  }

  method StripLeadingSqlComments(sql: string) returns (s: string)
    ensures s == StripLeadingComments(sql)
  {
    hide TrimStart, Find, StripLeadingComments, CommentLength;
    s := TrimStart(sql);
    TrimStartTwice(sql);
    StripOfTrimmed(sql);
    while true
      invariant StripLeadingComments(s) == StripLeadingComments(sql)
      invariant TrimStart(s) == s
      decreases |s|
    {
      StripStep(s);
      CommentLengthByOpener(s);
      ghost var before := s;
      if OpensBlock(s) {
        var end := Find(s[2..], "*/");
        if end.None? {
          break;
        }
        s := TrimStart(s[end.value + 4..]);
        TrimStartTwice(before[end.value + 4..]);
      } else if OpensLine(s) {
        var newline := Find(s[2..], "\n");
        if newline.None? {
          s := "";
          EmptyStrips();
          assert before[|before|..] == "";
          break;
        }
        s := TrimStart(s[newline.value + 3..]);
        TrimStartTwice(before[newline.value + 3..]);
      } else {
        break;
      }
    }
  }

  lemma CommentLengthByOpener(s: string)
    ensures OpensBlock(s) ==> var end := Find(s[2..], "*/");
              CommentLength(s) == if end.Some? then Some(end.value + 4) else None
    ensures OpensLine(s) ==> var newline := Find(s[2..], "\n");
              CommentLength(s) == Some(if newline.Some? then newline.value + 3 else |s|)
    ensures !OpensBlock(s) && !OpensLine(s) ==> CommentLength(s) == None
  {
  }

  lemma StripOfTrimmed(sql: string)
    ensures StripLeadingComments(TrimStart(sql)) == StripLeadingComments(sql)
  {
    hide TrimStart, CommentLength;
    TrimStartTwice(sql);
  }

  /** Reading `p` meets no separator and ends in state `st`. */
  ghost predicate Passes(from: State, p: string, st: State) {
    Run(from, p) == st && Quiet(from, p)
  }

  lemma PassesAppend(from: State, p: string, mid: State, q: string, st: State)
    requires Passes(from, p, mid) && Passes(mid, q, st)
    ensures Passes(from, p + q, st)
  {
    RunAppend(from, p, q);
    QuietAppend(from, p, q);
  }

  lemma PassesOne(from: State, c: char)
    requires !Separates(from, c)
    ensures Passes(from, [c], Step(from, c))
  {
    assert [c][1..] == "";
  }

  lemma {:induction false} BlanksPass(p: string)
    requires Blank(p)
    ensures Passes(Normal, p, Normal)
  {
    if p != "" {
      assert Step(Normal, p[0]) == Normal;
      BlanksPass(p[1..]);
    }
  }

  lemma {:induction false} BlockPasses(st: State, s: string)
    requires st == BlockComment || (st == BlockStar && !("/" <= s))
    requires Find(s, "*/").Some?
    ensures Passes(st, s[..Find(s, "*/").value + 2], Normal)
    decreases |s|
  {
    var n := Find(s, "*/").value + 2;
    var next := Step(st, s[0]);
    assert s[..n] == [s[0]] + s[1..n];
    PassesOne(st, s[0]);
    if "*/" <= s {
      assert s[1..n] == [s[1]];
      PassesOne(next, s[1]);
      PassesAppend(st, [s[0]], next, [s[1]], Normal);
    } else {
      assert s[1..n] == s[1..][..n - 1];
      assert s[0] == '*' ==> !("/" <= s[1..]);
      BlockPasses(next, s[1..]);
      PassesAppend(st, [s[0]], next, s[1..n], Normal);
    }
  }

  lemma {:induction false} LinePasses(s: string)
    ensures var end := Find(s, "\n");
      if end.Some? then Passes(LineComment, s[..end.value + 1], Normal) else Passes(LineComment, s, LineComment)
  {
    var end := Find(s, "\n");
    if s != "" {
      PassesOne(LineComment, s[0]);
      if "\n" <= s {
        assert s[..1] == [s[0]];
      } else {
        LinePasses(s[1..]);
        var rest := if end.Some? then s[1..][..end.value] else s[1..];
        PassesAppend(LineComment, [s[0]], LineComment, rest, if end.Some? then Normal else LineComment);
        assert [s[0]] + rest == if end.Some? then s[..end.value + 1] else s;
      }
    }
  }

  lemma CommentPasses(s: string)
    requires CommentLength(s).Some?
    ensures var n := CommentLength(s).value;
      Passes(Normal, s[..n], Normal) || (n == |s| && Passes(Normal, s, LineComment))
  {
    var n := CommentLength(s).value;
    var body := s[2..][..n - 2];
    assert s[..n] == [s[0]] + [s[1]] + body;
    PassesOne(Normal, s[0]);
    PassesOne(Step(Normal, s[0]), s[1]);
    var mid := if OpensBlock(s) then BlockComment else LineComment;
    PassesAppend(Normal, [s[0]], Step(Normal, s[0]), [s[1]], mid);
    if OpensBlock(s) {
      BlockPasses(BlockComment, s[2..]);
      PassesAppend(Normal, [s[0]] + [s[1]], mid, body, Normal);
    } else {
      LinePasses(s[2..]);
      var st := if Find(s[2..], "\n").Some? then Normal else LineComment;
      assert st == LineComment ==> s[..n] == s && body == s[2..];
      PassesAppend(Normal, [s[0]] + [s[1]], mid, body, st);
    }
  }

  /** What stripping removes: a prefix that passes back to the normal state, or the whole text. */
  lemma {:induction false} StripRemoves(sql: string) returns (p: string, st: State)
    ensures sql == p + StripLeadingComments(sql)
    ensures Passes(Normal, p, st) && (st == Normal || (st == LineComment && StripLeadingComments(sql) == ""))
    decreases |sql|
  {
    hide Passes, TrimStart, CommentLength;
    var s := TrimStart(sql);
    var blanks := sql[..|sql| - |s|];
    TrimStartRemovesBlanks(sql);
    BlanksPass(blanks);
    p, st := blanks, Normal;
    var n := CommentLength(s);
    if n.Some? {
      var comment, rest := s[..n.value], s[n.value..];
      CommentPasses(s);
      var after;
      after, st := StripRemoves(rest);
      p := blanks + comment + after;
      if Passes(Normal, comment, Normal) {
        PassesAppend(Normal, blanks, Normal, comment, Normal);
        PassesAppend(Normal, blanks + comment, Normal, after, st);
      } else {
        st := LineComment;
        assert rest == "" && comment == s && after == "";
        PassesAppend(Normal, blanks, Normal, comment, LineComment);
        assert p == blanks + comment;
      }
    }
  }

  /**
   Stripping removes a prefix that holds no separator and stops where the splitter is in its normal
   state (or at the end of the text), so both see the same later separators.
   */
  lemma StripKeepsSeparators(sql: string) returns (p: string)
    ensures sql == p + StripLeadingComments(sql)
    ensures StripLeadingComments(sql) == "" || Run(Normal, p) == Normal
    ensures Separators(sql) == SeparatorsFrom(Normal, StripLeadingComments(sql), |p|)
    ensures Split(sql) == SplitFrom(Run(Normal, p), StripLeadingComments(sql), p)
  {
    hide Run, Quiet, StripLeadingComments;
    var st;
    p, st := StripRemoves(sql);
    SeparatorsPast(Normal, p, StripLeadingComments(sql), 0);
    SplitPast(Normal, p, StripLeadingComments(sql), "");
    assert "" + p == p;
  }

  /** What is left starts with neither whitespace nor a comment that ends. */
  lemma {:induction false} StripIsIdempotent(sql: string)
    ensures StripLeadingComments(StripLeadingComments(sql)) == StripLeadingComments(sql)
    decreases |sql|
  {
    var s := TrimStart(sql);
    var n := CommentLength(s);
    if n.Some? {
      StripIsIdempotent(s[n.value..]);
    } else {
      assert TrimStart(s) == s;
    }
  }

  // ---- Materialization queries ----

  function FirstKeyword(s: string): string {
    if s != "" && (IsWhitespace(s[0]) || s[0] == '(') then FirstKeyword(s[1..])
    else Upper(s[..KeywordLength(s)])
  }

  function KeywordLength(s: string): (n: nat)
    ensures n <= |s|
  {
    if s == "" || IsWhitespace(s[0]) || s[0] == '(' then 0 else 1 + KeywordLength(s[1..])
  }

  datatype CommandError =
    | NotOneStatement
    | NotAQuery(keyword: string)
    | MissingHeader
    | MissingAs
    | MissingName
    | BadIdentifier(name: string)
    | MissingValue(option: string)
    | BadSize(size: string)
    | BadInteger(text: string)
    | UnknownOption(option: string)
    | NegativeMin
    | NegativeMax
    | MaxBelowMin
    | NegativeSuspend
    | DuplicateName(name: string)

  function ValidateMaterializationQuery(query: string): Result<string, CommandError> {
    var statements := Split(query);
    if |statements| != 1 then Err(NotOneStatement)
    else
      var statement := statements[0];
      var body := TrimStart(statement);
      var head := StripLeadingComments(if "(" <= body then body[1..] else body);
      var keyword := FirstKeyword(head);
      if keyword == "SELECT" || keyword == "WITH" then Ok(statement) else Err(NotAQuery(keyword))
  }

  /** An accepted query is one statement that holds no separator, and validating it again returns it. */
  lemma ValidationIsStable(query: string)
    requires ValidateMaterializationQuery(query).Ok?
    ensures var q := ValidateMaterializationQuery(query).value;
      && ValidateMaterializationQuery(q) == Ok(q)
      && Split(query) == [q] && OneStatement(q) && Separators(q) == []
      && NonBlank(q) == NonBlank(WithoutSeparators(Normal, query))
  {
    var q := ValidateMaterializationQuery(query).value;
    ResplitIsStable(query);
    assert Split(query)[0] == q;
    SplitFromCanonical(query, "");
    SeparatorsPast(Normal, q, "", 0);
    assert q + "" == q;
    SplitConservesText(query);
    assert Concat([q]) == q + Concat([q][1..]) == q;
  }

  /** Whitespace before a query does not matter. */
  lemma ValidationIgnoresLeadingBlanks(query: string)
    ensures ValidateMaterializationQuery(TrimStart(query)) == ValidateMaterializationQuery(query)
  {
    var t := TrimStart(query);
    var blanks := query[..|query| - |t|];
    TrimStartRemovesBlanks(query);
    assert query == blanks + t && "" + blanks == blanks && blanks + "" == blanks;
    BlanksPass(blanks);
    SplitPast(Normal, blanks, t, "");
    SplitAfterBlanks(Normal, t, blanks, "");
  }

  lemma {:induction false} SplitAfterBlanks(st: State, s: string, blanks: string, current: string)
    requires Blank(blanks)
    ensures SplitFrom(st, s, blanks + current) == SplitFrom(st, s, current)
    decreases |s|
  {
    hide TrimStart, TrimEnd, Step, Separates;
    TrimAfterBlanks(blanks, current);
    assert Emit(blanks + current) == Emit(current);
    if s != "" && !Separates(st, s[0]) {
      assert blanks + current + [s[0]] == blanks + (current + [s[0]]);
      SplitAfterBlanks(Step(st, s[0]), s[1..], blanks, current + [s[0]]);
    }
  }

  lemma {:induction false} TrimAfterBlanks(blanks: string, s: string)
    requires Blank(blanks)
    ensures TrimStart(blanks + s) == TrimStart(s)
  {
    if blanks == "" {
      assert blanks + s == s;
    } else {
      assert (blanks + s)[1..] == blanks[1..] + s;
      TrimAfterBlanks(blanks[1..], s);
    }
  }

  // ---- Keywords and the AS clause ----

  function TokenLength(s: string): (n: nat)
    ensures n <= |s| && (forall i :: 0 <= i < n ==> !IsWhitespace(s[i]))
    ensures n < |s| ==> IsWhitespace(s[n])
  {
    if s == "" || IsWhitespace(s[0]) then 0 else 1 + TokenLength(s[1..])
  }

  /** The end of the whitespace-separated token that starts at or after `offset`. */
  function TokenEnd(sql: string, offset: nat): (end: nat)
    requires offset <= |sql|
    ensures offset <= end <= |sql|
  {
    var rest := TrimStart(sql[offset..]);
    |sql| - |rest| + TokenLength(rest)
  }

  function KeywordsEnd(sql: string, expected: seq<string>, offset: nat): (end: Option<nat>)
    requires offset <= |sql|
    ensures end.Some? ==> end.value <= |sql|
    decreases |expected|
  {
    if expected == [] then Some(offset)
    else
      var rest := TrimStart(sql[offset..]);
      if EqualsIgnoreCase(rest[..TokenLength(rest)], expected[0])
      then KeywordsEnd(sql, expected[1..], TokenEnd(sql, offset))
      else None
  }

  method KeywordSequenceEnd(sql: string, expected: seq<string>) returns (end: Option<nat>)
    ensures end == KeywordsEnd(sql, expected, 0)
  {
    hide TrimStart, TokenLength, EqualsIgnoreCase;
    var offset := 0;
    for k := 0 to |expected|
      invariant 0 <= offset <= |sql|
      invariant KeywordsEnd(sql, expected[k..], offset) == KeywordsEnd(sql, expected, 0)
    {
      assert expected[k..][1..] == expected[k + 1..];
      var rest := TrimStart(sql[offset..]);
      var n := TokenLength(rest);
      if !EqualsIgnoreCase(rest[..n], expected[k]) {
        return None;
      }
      offset := |sql| - |rest| + n;
    }
    end := Some(offset);
  }

  /** The word AS, with no identifier character on either side, stands at `i`. */
  predicate AsAt(sql: string, i: nat) {
    && i + 2 <= |sql|
    && UpperChar(sql[i]) == 'A' && UpperChar(sql[i + 1]) == 'S'
    && (i == 0 || !IsIdentChar(sql[i - 1]))
    && (i + 2 == |sql| || !IsIdentChar(sql[i + 2]))
  }

  function FindAsFrom(sql: string, i: nat, quote: Option<QuoteChar>): (r: Option<nat>)
    requires i <= |sql|
    ensures r.Some? ==> i <= r.value && r.value + 2 <= |sql|
    decreases |sql| - i
  {
    if i == |sql| then None
    else if quote.None? && AsAt(sql, i) then Some(i)
    else FindAsFrom(sql, i + 1, Toggle(quote, sql[i]))
  }

  /** Where the clause and where its query start. */
  function FindAs(sql: string, start: nat): (r: Option<(nat, nat)>)
    requires start <= |sql|
    ensures r.Some? ==> start <= r.value.0 <= r.value.1 <= |sql|
  {
    var r := FindAsFrom(sql, start, None);
    if r.None? then None else Some((r.value, |sql| - |TrimStart(sql[r.value + 2..])|))
  }

  /** `FindAsFrom` finds the least AS that is outside every literal opened after the start. */
  lemma {:induction false} FindAsIsLeast(sql: string, i: nat, quote: Option<QuoteChar>)
    requires i <= |sql|
    ensures var r := FindAsFrom(sql, i, quote);
      && (r.Some? ==> AsAt(sql, r.value) && Toggles(quote, sql[i..r.value]).None?)
      && (forall j :: i <= j < (if r.Some? then r.value else |sql|) ==>
            !(AsAt(sql, j) && Toggles(quote, sql[i..j]).None?))
    decreases |sql| - i
  {
    if i < |sql| && !(quote.None? && AsAt(sql, i)) {
      var next := Toggle(quote, sql[i]);
      FindAsIsLeast(sql, i + 1, next);
      var r := FindAsFrom(sql, i, quote);
      forall j | i < j <= |sql|
        ensures Toggles(quote, sql[i..j]) == Toggles(next, sql[i + 1..j])
      {
        assert sql[i..j][1..] == sql[i + 1..j];
      }
      if r.Some? {
        assert sql[i..r.value][1..] == sql[i + 1..r.value];
      }
    }
  }

  lemma FindAsStep(sql: string, i: nat, quote: Option<QuoteChar>)
    requires i < |sql|
    ensures quote.Some? || !AsAt(sql, i) ==> FindAsFrom(sql, i, quote) == FindAsFrom(sql, i + 1, Toggle(quote, sql[i]))
    ensures quote.None? && AsAt(sql, i) ==> FindAsFrom(sql, i, quote) == Some(i)
  {
  }

  lemma FindAsAtEnd(sql: string, quote: Option<QuoteChar>)
    ensures FindAsFrom(sql, |sql|, quote) == None
  {
  }

  method FindAsClause(sql: string, start: nat) returns (r: Option<(nat, nat)>)
    requires start <= |sql|
    ensures r == FindAs(sql, start)
  {
    hide TrimStart, FindAsFrom, IsIdentChar;
    var quote: Option<QuoteChar> := None;
    var idx := start;
    while idx < |sql|
      invariant start <= idx <= |sql|
      invariant FindAsFrom(sql, idx, quote) == FindAsFrom(sql, start, None)
    {
      var ch := sql[idx];
      FindAsStep(sql, idx, quote);
      if quote.Some? {
        if ch == quote.value {
          if idx + 1 < |sql| && sql[idx + 1] == ch {
            // A doubled quote: reading it as a close and an open leaves the literal open.
            FindAsStep(sql, idx + 1, None);
            idx := idx + 1;
          } else {
            quote := None;
          }
        }
      } else if ch == '\'' || ch == '"' {
        quote := Some(ch);
      } else if (ch == 'A' || ch == 'a') && idx + 1 < |sql| && (sql[idx + 1] == 'S' || sql[idx + 1] == 's') {
        var end := idx + 2;
        if (idx == 0 || !IsIdentChar(sql[idx - 1])) && (end == |sql| || !IsIdentChar(sql[end])) {
          return Some((idx, |sql| - |TrimStart(sql[end..])|));
        }
      }
      idx := idx + 1;
    }
    FindAsAtEnd(sql, quote);
    r := None;
  }

  // ---- CREATE MATERIALIZED VIEW ----

  predicate IsSafeIdentifier(name: string) {
    && name != "" && |name| <= 128
    && (forall i :: 0 <= i < |name| ==> IsIdentChar(name[i]))
    && !IsDigit(name[0])
  }

  datatype ViewDefinition = ViewDefinition(name: string, query: string)

  function ParseCreateView(sql: string): Result<ViewDefinition, CommandError> {
    var header := KeywordsEnd(sql, ["CREATE", "MATERIALIZED", "VIEW"], 0);
    if header.None? then Err(MissingHeader)
    else
      var clause := FindAs(sql, header.value);
      if clause.None? then Err(MissingAs)
      else
        var name := Trim(sql[header.value..clause.value.0]);
        var query := ValidateMaterializationQuery(sql[clause.value.1..]);
        if query.Err? then Err(query.error)
        else if name == "" then Err(MissingName)
        else if !IsSafeIdentifier(name) then Err(BadIdentifier(name))
        else Ok(ViewDefinition(name, query.value))
  }
}
