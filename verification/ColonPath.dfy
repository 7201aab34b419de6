/** Snowflake colon paths: `column:path` becomes `get_path(column, 'path')` (`rewrite_colon_path`). */
module ColonPath {
  import opened Literals
  import opened Text

  /** The characters of a dotted name. */
  predicate IsPathChar(c: char) {
    IsIdentChar(c) || c == '.'
  }

  predicate IsPath(s: string) {
    forall i :: 0 <= i < |s| ==> IsPathChar(s[i])
  }

  predicate EndsInIdentifier(s: string) {
    s != "" && IsIdentChar(s[|s| - 1])
  }

  /** The longest prefix that is a dotted name. */
  function PathLength(s: string): (n: nat)
    ensures n <= |s|
  {
    if s == "" || !IsPathChar(s[0]) then 0 else 1 + PathLength(s[1..])
  }

  function GetPath(column: string, path: string): string {
    "get_path(" + column + ", '" + path + "')"
  }

  /**
   The output for `s`, when `word` is the dotted name the output so far ends in and `quote` is the
   open quote. A word is only committed once the character after it is known.
   */
  function Rewrite(s: string, word: string, quote: Option<QuoteChar>): string
    decreases |s|
  {
    if s == "" then word
    else
      var c, rest := s[0], s[1..];
      if quote.Some? || c == '\'' || c == '"' then word + [c] + Rewrite(rest, "", Toggle(quote, c))
      else if c == ':' && EndsInIdentifier(word) then
        var n := PathLength(rest);
        GetPath(word, rest[..n]) + Rewrite(rest[n..], "", None)
      else if IsPathChar(c) then Rewrite(rest, word + [c], None)
      else word + [c] + Rewrite(rest, "", None)
  }

  function RewriteColonPath(sql: string): string {
    Rewrite(sql, "", None)
  }

  // ---- The loop ----

  /** The start of the dotted name that `s` ends in. */
  function WordStart(s: string): (k: nat)
    ensures k <= |s|
  {
    if s == "" || !IsPathChar(s[|s| - 1]) then |s| else WordStart(s[..|s| - 1])
  }

  lemma {:induction false} WordStartOf(done: string, word: string)
    requires IsPath(word) && (done == "" || !IsPathChar(done[|done| - 1]))
    ensures WordStart(done + word) == |done|
  {
    var s := done + word;
    if word == "" {
      assert s == done;
    } else {
      assert s[..|s| - 1] == done + word[..|word| - 1];
      WordStartOf(done, word[..|word| - 1]);
    }
  }

  method ReadPath(sql: string, i: nat) returns (path: string)
    requires i <= |sql|
    ensures path == sql[i..][..PathLength(sql[i..])]
  {
    path := "";
    var j := i;
    while j < |sql| && IsPathChar(sql[j])
      invariant i <= j <= |sql| && path == sql[i..j]
      invariant PathLength(sql[i..]) == |path| + PathLength(sql[j..])
    {
      assert sql[j..][1..] == sql[j + 1..];
      path := path + [sql[j]];
      j := j + 1;
    }
    assert sql[i..][..|path|] == path;
  }

  /** The output so far, split at its last dotted name, and what is left to read give the whole output. */
  ghost predicate Progress(sql: string, i: nat, result: string, word: string, quote: Option<QuoteChar>)
    requires i <= |sql|
  {
    && |word| <= |result| && result[|result| - |word|..] == word
    && (quote.Some? ==> word == "")
    && (quote.None? ==> IsPath(word) && (|word| == |result| || !IsPathChar(result[|result| - |word| - 1])))
    && result[..|result| - |word|] + Rewrite(sql[i..], word, quote) == RewriteColonPath(sql)
  }

  /** Committing the pending name and `text`. */
  lemma Commit(sql: string, i: nat, result: string, word: string, quote: Option<QuoteChar>,
               text: string, j: nat, quote': Option<QuoteChar>)
    requires i <= j <= |sql| && Progress(sql, i, result, word, quote)
    requires text != "" && (quote'.None? ==> !IsPathChar(text[|text| - 1]))
    requires Rewrite(sql[i..], word, quote) == text + Rewrite(sql[j..], "", quote')
    ensures Progress(sql, j, result[..|result| - |word|] + text, "", quote')
  {
    hide Rewrite, IsPathChar;
    var done := result[..|result| - |word|];
    assert done + (text + Rewrite(sql[j..], "", quote')) == done + text + Rewrite(sql[j..], "", quote');
    assert (done + text)[..|done + text|] == done + text;
  }

  method RewriteColonPaths(sql: string) returns (result: string)
    ensures result == RewriteColonPath(sql)
  {
    hide GetPath, IsPathChar, Rewrite, PathLength, WordStart, Toggle, Progress;
    result := "";
    var quote: Option<QuoteChar> := None;
    var i := 0;
    ghost var word := "";
    StartProgress(sql);
    while i < |sql|
      invariant i <= |sql|
      invariant Progress(sql, i, result, word, quote)
    {
      var c := sql[i];
      RewriteStep(sql, i, word, quote);
      ReadProgress(sql, i, result, word, quote);
      assert result[..|result| - |word|] + (word + [c]) == result + [c];
      if quote.Some? || c == '\'' || c == '"' {
        QuotesClose(quote, c);
        Commit(sql, i, result, word, quote, word + [c], i + 1, Toggle(quote, c));
        quote := Toggle(quote, c);
        result := result + [c];
        word := "";
        i := i + 1;
      } else if c == ':' && EndsInIdentifier(result) {
        var start := WordStart(result);
        var column := result[start..];
        var path := ReadPath(sql, i + 1);
        ParenthesisCloses(column, path);
        assert sql[i + 1..][|path|..] == sql[i + 1 + |path|..] && column == word;
        Commit(sql, i, result, word, quote, GetPath(column, path), i + 1 + |path|, None);
        result := result[..start] + GetPath(column, path);
        word := "";
        i := i + 1 + |path|;
      } else {
        if IsPathChar(c) {
          Extend(sql, i, result, word);
          word := word + [c];
        } else {
          Commit(sql, i, result, word, quote, word + [c], i + 1, None);
          word := "";
        }
        result := result + [c];
        i := i + 1;
      }
    }
    RewriteEnd(sql, word, quote);
    EndProgress(sql, result, word, quote);
  }

  lemma StartProgress(sql: string)
    ensures Progress(sql, 0, "", "", None)
  {
    assert sql[0..] == sql && "" + RewriteColonPath(sql) == RewriteColonPath(sql);
  }

  lemma EndProgress(sql: string, result: string, word: string, quote: Option<QuoteChar>)
    requires Progress(sql, |sql|, result, word, quote)
    ensures result == RewriteColonPath(sql)
  {
    assert result == result[..|result| - |word|] + word;
  }

  /** What the loop needs to know: where the pending name starts. */
  lemma ReadProgress(sql: string, i: nat, result: string, word: string, quote: Option<QuoteChar>)
    requires i < |sql| && Progress(sql, i, result, word, quote)
    ensures |word| <= |result| && result == result[..|result| - |word|] + word
    ensures quote.None? ==> WordStart(result) == |result| - |word|
    ensures quote.None? ==> (EndsInIdentifier(result) <==> EndsInIdentifier(word))
  {
    hide Rewrite, WordStart, IsIdentChar, IsPathChar, RewriteColonPath, EndsInIdentifier, IsPath;
    var done := result[..|result| - |word|];
    Joined(result, |result| - |word|);
    if quote.None? {
      WordStartOf(done, word);
      LastOf(done, word);
    }
  }

  lemma Joined(s: string, k: nat)
    requires k <= |s|
    ensures s == s[..k] + s[k..]
    ensures k > 0 ==> s[..k][k - 1] == s[k - 1]
  {
  }

  lemma LastOf(done: string, word: string)
    requires word == "" ==> done == "" || !IsPathChar(done[|done| - 1])
    ensures EndsInIdentifier(done + word) <==> EndsInIdentifier(word)
  {
    assert word != "" ==> (done + word)[|done + word| - 1] == word[|word| - 1];
  }

  lemma QuotesClose(quote: Option<QuoteChar>, c: char)
    requires quote.Some? || c == '\'' || c == '"'
    ensures Toggle(quote, c).None? ==> !IsPathChar(c)
  {
  }

  lemma Extend(sql: string, i: nat, result: string, word: string)
    requires i < |sql| && Progress(sql, i, result, word, None) && IsPathChar(sql[i])
    ensures Progress(sql, i + 1, result + [sql[i]], word + [sql[i]], None)
  {
    RewriteStep(sql, i, word, None);
    hide Rewrite;
    assert sql[i] != '\'' && sql[i] != '"';
    var r := result + [sql[i]];
    assert r[..|r| - |word| - 1] == result[..|result| - |word|];
    assert r[|r| - |word| - 1..] == word + [sql[i]];
  }

  lemma RewriteEnd(sql: string, word: string, quote: Option<QuoteChar>)
    ensures Rewrite(sql[|sql|..], word, quote) == word
  {
  }

  lemma RewriteStep(sql: string, i: nat, word: string, quote: Option<QuoteChar>)
    requires i < |sql|
    ensures var c := sql[i];
      Rewrite(sql[i..], word, quote) ==
        if quote.Some? || c == '\'' || c == '"' then word + [c] + Rewrite(sql[i + 1..], "", Toggle(quote, c))
        else if c == ':' && EndsInIdentifier(word) then
          var n := PathLength(sql[i + 1..]);
          GetPath(word, sql[i + 1..][..n]) + Rewrite(sql[i + 1..][n..], "", None)
        else if IsPathChar(c) then Rewrite(sql[i + 1..], word + [c], None)
        else word + [c] + Rewrite(sql[i + 1..], "", None)
  {
    assert sql[i..][1..] == sql[i + 1..];
  }

  lemma ParenthesisCloses(column: string, path: string)
    ensures var g := GetPath(column, path);
      g != "" && g[|g| - 1] == ')' && !IsPathChar(')')
  {
  }

  // ---- Literals are copied, and the rewriting is local ----

  /** A text may follow without joining a dotted name or being taken for a path. */
  predicate Apart(t: string) {
    t == "" || (!IsPathChar(t[0]) && t[0] != ':')
  }

  /** `t` may follow `s` without joining a dotted name, a path or a colon of `s`. */
  predicate Boundary(s: string, t: string) {
    Apart(t) || (s != "" && Apart([s[|s| - 1]]))
  }

  lemma {:induction false} PathLengthStops(s: string, t: string)
    requires t == "" || !IsPathChar(t[0]) || (s != "" && !IsPathChar(s[|s| - 1]))
    ensures PathLength(s + t) == PathLength(s)
  {
    if s == "" {
      assert s + t == t;
    } else {
      assert (s + t)[1..] == s[1..] + t;
      if IsPathChar(s[0]) {
        PathLengthStops(s[1..], t);
      }
    }
  }

  lemma {:induction false} PathLengthIsPath(s: string)
    ensures IsPath(s[..PathLength(s)])
    ensures PathLength(s) < |s| ==> !IsPathChar(s[PathLength(s)])
  {
    if s != "" && IsPathChar(s[0]) {
      PathLengthIsPath(s[1..]);
      assert s[..PathLength(s)] == [s[0]] + s[1..][..PathLength(s[1..])];
    }
  }

  lemma {:induction false} PathHasNoQuote(quote: Option<QuoteChar>, s: string)
    requires IsPath(s)
    ensures Toggles(quote, s) == quote || quote.Some?
    ensures quote.None? ==> Toggles(quote, s) == None
    decreases |s|
  {
    if s != "" && quote.None? {
      PathHasNoQuote(None, s[1..]);
    }
  }

  /** The defining equation of `Rewrite` at a character. */
  lemma RewriteHead(c: char, rest: string, word: string, quote: Option<QuoteChar>)
    ensures Rewrite([c] + rest, word, quote) ==
      if quote.Some? || c == '\'' || c == '"' then word + [c] + Rewrite(rest, "", Toggle(quote, c))
      else if c == ':' && EndsInIdentifier(word) then
        GetPath(word, rest[..PathLength(rest)]) + Rewrite(rest[PathLength(rest)..], "", None)
      else if IsPathChar(c) then Rewrite(rest, word + [c], None)
      else word + [c] + Rewrite(rest, "", None)
  {
    assert ([c] + rest)[1..] == rest;
  }

  /** Across a boundary, the two parts are rewritten independently. */
  lemma {:induction false} RewriteAppend(s: string, t: string, word: string, quote: Option<QuoteChar>)
    requires Toggles(quote, s).None? && (Boundary(s, t) || (s == "" && word == ""))
    requires quote.Some? ==> word == ""
    ensures Rewrite(s + t, word, quote) == Rewrite(s, word, quote) + Rewrite(t, "", None)
    decreases |s|
  {
    hide Rewrite, GetPath, PathLength;
    if s == "" {
      assert s + t == t;
      RewriteOfNothing(word, quote);
      RewriteApart(t, word);
    } else {
      var c, rest := s[0], s[1..];
      assert s == [c] + rest && s + t == [c] + (rest + t);
      RewriteHead(c, rest, word, quote);
      RewriteHead(c, rest + t, word, quote);
      if quote.Some? || c == '\'' || c == '"' {
        RewriteAppend(rest, t, "", Toggle(quote, c));
      } else if c == ':' && EndsInIdentifier(word) {
        RewriteAppendPath(rest, t);
        RewriteAppend(rest[PathLength(rest)..], t, "", None);
      } else if IsPathChar(c) {
        RewriteAppend(rest, t, word + [c], None);
      } else {
        RewriteAppend(rest, t, "", None);
      }
    }
  }

  lemma RewriteAppendPath(rest: string, t: string)
    requires Toggles(None, rest).None? && (Apart(t) || (rest != "" && Apart([rest[|rest| - 1]])))
    ensures var n := PathLength(rest);
      && n == PathLength(rest + t) && (rest + t)[..n] == rest[..n] && (rest + t)[n..] == rest[n..] + t
      && Toggles(None, rest[n..]).None? && Boundary(rest[n..], t)
  {
    hide PathLength, Toggles;
    var n := PathLength(rest);
    PathLengthStops(rest, t);
    assert (rest + t)[..n] == rest[..n] && (rest + t)[n..] == rest[n..] + t;
    AfterPathToggles(rest);
    PathLengthIsPath(rest);
    if !Apart(t) {
      LastNotInPath(rest, n);
    }
  }

  lemma LastNotInPath(rest: string, n: nat)
    requires n <= |rest| && IsPath(rest[..n]) && rest != "" && Apart([rest[|rest| - 1]])
    ensures n < |rest| && Apart([rest[n..][|rest| - n - 1]])
  {
  }

  lemma AfterPathToggles(rest: string)
    ensures Toggles(None, rest[PathLength(rest)..]) == Toggles(None, rest)
  {
    var n := PathLength(rest);
    PathLengthIsPath(rest);
    PathHasNoQuote(None, rest[..n]);
    TogglesAppend(None, rest[..n], rest[n..]);
    assert rest == rest[..n] + rest[n..];
  }

  lemma RewriteApart(t: string, word: string)
    requires Apart(t) || word == ""
    ensures Rewrite(t, word, None) == word + Rewrite(t, "", None)
  {
    if t != "" {
      assert word + [t[0]] == word + ("" + [t[0]]);
    } else {
      assert word + "" == word;
    }
  }

  /** A whole literal: a quote, text without that quote, and the quote again. */
  predicate IsLiteral(s: string) {
    && |s| >= 2 && (s[0] == '\'' || s[0] == '"') && s[|s| - 1] == s[0]
    && forall i :: 0 < i < |s| - 1 ==> s[i] != s[0]
  }

  lemma {:induction false} InsideLiteral(body: string, q: QuoteChar, t: string)
    requires forall i :: 0 <= i < |body| ==> body[i] != q
    ensures Rewrite(body + [q] + t, "", Some(q)) == body + [q] + Rewrite(t, "", None)
    decreases |body|
  {
    if body == "" {
      assert body + [q] + t == [q] + t && ([q] + t)[1..] == t;
      assert body + [q] == [q] == "" + [q];
    } else {
      assert (body + [q] + t)[1..] == body[1..] + [q] + t;
      InsideLiteral(body[1..], q, t);
      assert body + [q] == "" + [body[0]] + (body[1..] + [q]);
    }
  }

  lemma ReadLiteral(q: QuoteChar, body: string, t: string)
    requires forall i :: 0 <= i < |body| ==> body[i] != q
    ensures Rewrite([q] + (body + [q] + t), "", None) == [q] + (body + [q] + Rewrite(t, "", None))
  {
    hide Rewrite, GetPath, PathLength, IsPathChar, EndsInIdentifier;
    InsideLiteral(body, q, t);
    RewriteHead(q, body + [q] + t, "", None);
    assert "" + [q] == [q];
  }

  /** Literals are copied unchanged, and what is before and after them is rewritten independently. */
  lemma LiteralIsCopied(s: string, literal: string, t: string)
    requires Toggles(None, s).None? && IsLiteral(literal)
    ensures RewriteColonPath(s + literal + t) == RewriteColonPath(s) + literal + RewriteColonPath(t)
  {
    hide Rewrite, Toggles;
    var q: QuoteChar := literal[0];
    var body := literal[1..|literal| - 1];
    ReadLiteral(q, body, t);
    assert literal + t == [q] + (body + [q] + t);
    assert literal + Rewrite(t, "", None) == [q] + (body + [q] + Rewrite(t, "", None));
    assert s + literal + t == s + (literal + t);
    RewriteAppend(s, literal + t, "", None);
  }

  lemma {:induction false} ReadWord(column: string, t: string, word: string)
    requires IsPath(column)
    ensures Rewrite(column + t, word, None) == Rewrite(t, word + column, None)
    decreases |column|
  {
    if column == "" {
      assert column + t == t && word + column == word;
    } else {
      assert (column + t)[1..] == column[1..] + t;
      ReadWord(column[1..], t, word + [column[0]]);
      assert word + [column[0]] + column[1..] == word + column;
    }
  }

  /** Outside literals, a dotted name followed by a colon and a path becomes one call, and nothing else changes. */
  lemma ColonPathBecomesCall(s: string, column: string, path: string, t: string)
    requires Toggles(None, s).None? && (s == "" || Apart([s[|s| - 1]]))
    requires IsPath(column) && EndsInIdentifier(column) && IsPath(path)
    requires t == "" || !IsPathChar(t[0])
    ensures RewriteColonPath(s + (column + ([':'] + (path + t)))) ==
      RewriteColonPath(s) + (("get_path(" + column + ", '" + path + "')") + RewriteColonPath(t))
  {
    hide Rewrite, GetPath, EndsInIdentifier;
    CallText(column, path);
    ReadWord(column, [':'] + (path + t), "");
    assert "" + column == column;
    RewriteHead(':', path + t, column, None);
    PathLengthStops(path, t);
    WholePath(path);
    assert (path + t)[..|path|] == path && (path + t)[|path|..] == t;
    RewriteAppend(s, column + ([':'] + (path + t)), "", None);
  }

  lemma CallText(column: string, path: string)
    ensures GetPath(column, path) == "get_path(" + column + ", '" + path + "')"
  {
  }

  // ---- Reading a call back ----

  /** The text before the first `c`. */
  function Upto(s: string, c: char): (r: string)
    ensures r <= s && c !in r
  {
    if s == "" || s[0] == c then "" else [s[0]] + Upto(s[1..], c)
  }

  /** The first argument of a call, up to its comma, and its second, between single quotes. */
  function Arguments(call: string): (string, string) {
    var first := Upto(call[|Upto(call, '(')|..], ',');
    var second := call[|Upto(call, '\'')|..];
    (if first == "" then "" else first[1..], if second == "" then "" else Upto(second[1..], '\''))
  }

  lemma {:induction false} UptoIs(s: string, c: char, t: string)
    requires c !in s
    ensures Upto(s + ([c] + t), c) == s
  {
    if s == "" {
      assert s + ([c] + t) == [c] + t;
    } else {
      assert s[0] in s && (s + ([c] + t))[1..] == s[1..] + ([c] + t);
      UptoIs(s[1..], c, t);
    }
  }

  /** The call that a colon path becomes has the column as its first argument and the path, quoted, as its second. */
  lemma CallReadsBack(column: string, path: string)
    requires IsPath(column) && EndsInIdentifier(column) && IsPath(path)
    ensures Arguments(RewriteColonPath(column + (":" + path))) == (column, path)
    ensures Upto(RewriteColonPath(column + (":" + path)), '(') == "get_path"
  {
    hide Rewrite, Upto, EndsInIdentifier;
    var call := "get_path(" + column + ", '" + path + "')";
    assert RewriteColonPath(column + (":" + path)) == call by {
      OneCall(column, path);
      assert "" + (column + ([':'] + (path + ""))) == column + (":" + path);
    }
    PathHas(column);
    PathHas(path);
    var name := "get_path";
    UptoIs(name, '(', column + ", '" + path + "')");
    assert call == name + (['('] + (column + ", '" + path + "')"));
    FirstArgument(call, column, path);
    SecondArgument(call, column, path);
  }

  /** A dotted name has ASCII letters, digits, underscores and dots. */
  lemma PathCharIff(c: char)
    ensures IsPathChar(c) <==>
      var n := c as int; 48 <= n <= 57 || 65 <= n <= 90 || 97 <= n <= 122 || n == 95 || n == 46
  {
  }

  lemma DottedNames()
    ensures IsPath("t.payload") && EndsInIdentifier("t.payload") && IsPath("user.name")
  {
  }

  lemma DottedText(column: string, path: string, t: string)
    requires column == "t.payload" && path == "user.name" && t == ""
    ensures "" + (column + ([':'] + (path + t))) == "t.payload:user.name"
  {
  }

  lemma DottedCall(column: string, path: string)
    requires column == "t.payload" && path == "user.name"
    ensures "get_path(" + column + ", '" + path + "')" == "get_path(t.payload, 'user.name')"
  {
  }

  /** So both sides of the colon may be dotted. */
  lemma DottedNamesAreRead()
    ensures RewriteColonPath("t.payload:user.name") == "get_path(t.payload, 'user.name')"
  {
    hide Rewrite, IsPathChar, IsPath, EndsInIdentifier;
    DottedNames();
    OneCall("t.payload", "user.name");
    DottedText("t.payload", "user.name", "");
    DottedCall("t.payload", "user.name");
  }

  lemma OneCall(column: string, path: string)
    requires IsPath(column) && EndsInIdentifier(column) && IsPath(path)
    ensures RewriteColonPath("" + (column + ([':'] + (path + "")))) == "get_path(" + column + ", '" + path + "')"
  {
    hide Rewrite;
    RewriteOfNothing("", None);
    ColonPathBecomesCall("", column, path, "");
    var call := "get_path(" + column + ", '" + path + "')";
    assert "" + (call + "") == call;
  }

  lemma PathHas(s: string)
    requires IsPath(s)
    ensures ',' !in s && '\'' !in s && '(' !in s
  {
  }

  lemma FirstArgument(call: string, column: string, path: string)
    requires call == "get_path(" + column + ", '" + path + "')" && ',' !in column && |Upto(call, '(')| == 8
    ensures Upto(call[8..], ',') == "(" + column
  {
    hide Upto;
    var rest := " '" + path + "')";
    assert call[8..] == ("(" + column) + ([','] + rest);
    UptoIs("(" + column, ',', rest);
  }

  lemma SecondArgument(call: string, column: string, path: string)
    requires call == "get_path(" + column + ", '" + path + "')" && '\'' !in column && '\'' !in path
    ensures var second := call[|Upto(call, '\'')|..]; second != "" && Upto(second[1..], '\'') == path
  {
    hide Upto;
    var start := "get_path(" + column + ", ";
    assert call == start + (['\''] + (path + "')"));
    assert '\'' !in start by {
      NoQuoteBefore(column);
    }
    UptoIs(start, '\'', path + "')");
    assert call[|start|..] == ['\''] + (path + "')");
    assert (['\''] + (path + "')"))[1..] == path + (['\''] + ")");
    UptoIs(path, '\'', ")");
  }

  lemma NoQuoteBefore(column: string)
    requires '\'' !in column
    ensures '\'' !in "get_path(" + column + ", "
  {
  }

  lemma {:induction false} WholePath(path: string)
    requires IsPath(path)
    ensures PathLength(path) == |path|
  {
    if path != "" {
      WholePath(path[1..]);
    }
  }

  // ---- Double colons ----

  /** What a scan of the text is in the middle of: a dotted name, which may end in an identifier or a dot, or a path. */
  datatype Pending = Nothing | Name(complete: bool) | InPath

  function ReadChar(c: char, quote: Option<QuoteChar>, p: Pending): Pending {
    if quote.Some? || c == '\'' || c == '"' then Nothing
    else if IsPathChar(c) then if p.InPath? then InPath else Name(IsIdentChar(c))
    else if c == ':' && p == Name(true) then InPath
    else Nothing
  }

  function Scan(s: string, quote: Option<QuoteChar>, p: Pending): Pending
    decreases |s|
  {
    if s == "" then p else Scan(s[1..], Toggle(quote, s[0]), ReadChar(s[0], quote, p))
  }

  /** The text ends in a name, and not in the path behind one. */
  predicate EndsInName(s: string) {
    Scan(s, None, Nothing) == Name(true)
  }

  function PendingOf(word: string): Pending {
    if word == "" then Nothing else Name(EndsInIdentifier(word))
  }

  lemma ScanHead(c: char, rest: string, quote: Option<QuoteChar>, p: Pending)
    ensures Scan([c] + rest, quote, p) == Scan(rest, Toggle(quote, c), ReadChar(c, quote, p))
  {
    assert ([c] + rest)[1..] == rest;
  }

  /** Behind its path a name is not pending. */
  lemma {:induction false} ScanPath(s: string)
    ensures Scan(s, None, InPath) == Name(true) <==> Scan(s[PathLength(s)..], None, Nothing) == Name(true)
    decreases |s|
  {
    if s != "" && IsPathChar(s[0]) {
      ScanPath(s[1..]);
      assert s[PathLength(s)..] == s[1..][PathLength(s[1..])..];
    } else {
      assert s[0..] == s;
    }
  }

  lemma ScanNothing(quote: Option<QuoteChar>, p: Pending)
    ensures Scan("", quote, p) == p
  {
  }

  lemma PendingGrows(word: string, c: char)
    requires IsPathChar(c)
    ensures PendingOf(word + [c]) == ReadChar(c, None, PendingOf(word))
  {
  }

  /** Reading `s` ends with the dotted name `last` pending behind the output `done`, whatever colon comes next. */
  ghost predicate ReadsTo(s: string, u: string, word: string, quote: Option<QuoteChar>, done: string, last: string) {
    && IsPath(last) && (last == "" ==> !EndsInIdentifier(done))
    && (done + last == "" ==> s == "")
    && Rewrite(s, word, quote) == done + last
    && Rewrite(s + u, word, quote) == done + Rewrite(u, last, None)
  }

  lemma {:induction false} ReadUpToColon(s: string, u: string, word: string, quote: Option<QuoteChar>)
      returns (done: string, last: string)
    requires Toggles(quote, s).None? && ":" <= u
    requires if quote.Some? then word == "" else IsPath(word)
    ensures ReadsTo(s, u, word, quote, done, last)
    ensures EndsInIdentifier(last) <==> Scan(s, quote, PendingOf(word)) == Name(true)
    decreases |s|
  {
    hide Rewrite, GetPath, PathLength, Scan, ReadsTo;
    if s == "" {
      ScanNothing(quote, PendingOf(word));
      done, last := "", word;
      NothingReads(u, word);
    } else {
      var c, rest := s[0], s[1..];
      assert s == [c] + rest && s + u == [c] + (rest + u);
      RewriteHead(c, rest, word, quote);
      RewriteHead(c, rest + u, word, quote);
      ScanHead(c, rest, quote, PendingOf(word));
      if quote.None? && c == ':' && EndsInIdentifier(word) {
        var n := PathLength(rest);
        ScanPath(rest);
        PathLengthStops(rest, u);
        AfterPathToggles(rest);
        assert (rest + u)[..n] == rest[..n] && (rest + u)[n..] == rest[n..] + u;
        done, last := ReadUpToColon(rest[n..], u, "", None);
        CallEnds(word, rest[..n]);
        Prepend(s, u, word, quote, GetPath(word, rest[..n]), rest[n..], "", None, done, last);
        done := GetPath(word, rest[..n]) + done;
      } else if quote.None? && IsPathChar(c) {
        PendingGrows(word, c);
        done, last := ReadUpToColon(rest, u, word + [c], None);
        LongerReads(s, u, word, c, rest, done, last);
      } else {
        done, last := ReadUpToColon(rest, u, "", Toggle(quote, c));
        assert rest == "" ==> Toggle(quote, c).None?;
        Prepend(s, u, word, quote, word + [c], rest, "", Toggle(quote, c), done, last);
        done := word + [c] + done;
      }
    }
  }

  lemma NothingReads(u: string, word: string)
    requires IsPath(word)
    ensures ReadsTo("", u, word, None, "", word)
  {
    hide Rewrite;
    assert "" + u == u && "" + word == word;
    RewriteOfNothing(word, None);
    assert "" + Rewrite(u, word, None) == Rewrite(u, word, None);
  }

  lemma LongerReads(s: string, u: string, word: string, c: char, rest: string, done: string, last: string)
    requires ReadsTo(rest, u, word + [c], None, done, last) && s != ""
    requires Rewrite(s, word, None) == Rewrite(rest, word + [c], None)
    requires Rewrite(s + u, word, None) == Rewrite(rest + u, word + [c], None)
    ensures ReadsTo(s, u, word, None, done, last)
  {
    hide Rewrite;
    PendingIsWritten(rest, word + [c]);
  }

  lemma Prepend(s: string, u: string, word: string, quote: Option<QuoteChar>, front: string,
                rest: string, word': string, quote': Option<QuoteChar>, done: string, last: string)
    requires ReadsTo(rest, u, word', quote', done, last) && front != ""
    requires Rewrite(s, word, quote) == front + Rewrite(rest, word', quote')
    requires Rewrite(s + u, word, quote) == front + Rewrite(rest + u, word', quote')
    requires rest == "" ==> !IsIdentChar(front[|front| - 1])
    ensures ReadsTo(s, u, word, quote, front + done, last)
  {
    hide Rewrite, IsPathChar, IsIdentChar;
    assert front + (done + last) == front + done + last;
    assert front + (done + Rewrite(u, last, None)) == front + done + Rewrite(u, last, None);
  }

  /** A pending name is written out in some form. */
  lemma {:induction false} PendingIsWritten(s: string, word: string)
    requires word != ""
    ensures Rewrite(s, word, None) != ""
    decreases |s|
  {
    if s != "" && IsPathChar(s[0]) && !(s[0] == ':' && EndsInIdentifier(word)) {
      PendingIsWritten(s[1..], word + [s[0]]);
    }
  }

  /**
   A cast, two colons outside literals, survives exactly when the text before it does not end in a name: in none
   at all, or in a path behind one. Otherwise the name becomes a call with an empty path and one colon is lost.
   */
  lemma CastSurvivesIff(s: string, t: string) returns (done: string, last: string)
    requires Toggles(None, s).None?
    ensures RewriteColonPath(s) == done + last && IsPath(last)
    ensures RewriteColonPath(s + ("::" + t)) == RewriteColonPath(s) + "::" + RewriteColonPath(t) <==> !EndsInName(s)
    ensures EndsInName(s) <==> EndsInIdentifier(last)
    ensures EndsInName(s) ==> RewriteColonPath(s + ("::" + t)) == done + GetPath(last, "") + ":" + RewriteColonPath(t)
  {
    hide Rewrite, PathLength, IsPathChar, IsIdentChar, Scan, GetPath, Toggles;
    var u := "::" + t;
    done, last := ReadUpToColon(s, u, "", None);
    assert u == [':'] + (":" + t);
    RewriteHead(':', ":" + t, last, None);
    ColonAlone(t);
    assert EndsInIdentifier(done + last) <==> EndsInIdentifier(last) by {
      EndsWithLast(done, last);
    }
    assert ":" + t == (":" + t)[0..] && (":" + t)[..0] == "";
    if EndsInIdentifier(last) {
      assert RewriteColonPath(s + u) == done + GetPath(last, "") + ":" + RewriteColonPath(t);
      CallIsLonger(last);
    } else {
      assert RewriteColonPath(s + u) == done + last + "::" + RewriteColonPath(t);
    }
  }

  lemma CallIsLonger(column: string)
    ensures |GetPath(column, "")| > |column| + 1
  {
  }

  lemma EndsWithLast(done: string, last: string)
    requires last == "" ==> !EndsInIdentifier(done)
    ensures EndsInIdentifier(done + last) <==> EndsInIdentifier(last)
  {
    assert last == "" ==> done + last == done;
  }

  lemma ColonAlone(t: string)
    ensures PathLength(":" + t) == 0
    ensures Rewrite(":" + t, "", None) == ":" + Rewrite(t, "", None)
    ensures !IsPathChar(':')
  {
    assert (":" + t)[1..] == t && "" + [':'] == ":";
  }

  /** So a cast of a column is lost, and a cast of a colon path is kept. */
  lemma CastsOfColumnAndPath(column: string, path: string, t: string)
    requires IsPath(column) && EndsInIdentifier(column) && IsPath(path)
    ensures RewriteColonPath(column + ("::" + t)) == GetPath(column, "") + ":" + RewriteColonPath(t)
    ensures RewriteColonPath(column + (":" + path) + ("::" + t)) == GetPath(column, path) + "::" + RewriteColonPath(t)
  {
    hide Rewrite, Toggles, PathLength, GetPath;
    PathHasNoQuote(None, column);
    ReadWord(column, "", "");
    assert column + "" == column && "" + column == column;
    RewriteOfNothing(column, None);
    ReadWord(column, "::" + t, "");
    assert "::" + t == [':'] + (":" + t);
    RewriteHead(':', ":" + t, column, None);
    ColonAlone(t);
    assert (":" + t)[..0] == "" && (":" + t)[0..] == ":" + t;
    assert GetPath(column, "") + (":" + RewriteColonPath(t)) == GetPath(column, "") + ":" + RewriteColonPath(t);
    CallThenCast(column, path, t);
  }

  lemma CallThenCast(column: string, path: string, t: string)
    requires IsPath(column) && EndsInIdentifier(column) && IsPath(path)
    ensures RewriteColonPath(column + (":" + path) + ("::" + t)) == GetPath(column, path) + "::" + RewriteColonPath(t)
  {
    hide Rewrite, PathLength, GetPath, IsIdentChar;
    var s := column + (":" + path);
    PathHasNoQuote(None, column);
    PathHasNoQuote(None, path);
    assert ":" + path == [':'] + path;
    TogglesAppend(None, column, ":" + path);
    TogglesAppend(None, [':'], path);
    assert Toggles(None, [':']) == None by {
      assert [':'][1..] == [];
    }
    CallText(column, path);
    ColonPathBecomesCall("", column, path, "");
    RewriteOfNothing("", None);
    assert "" + (column + ([':'] + (path + ""))) == s && path + "" == path;
    assert "" + (GetPath(column, path) + "") == GetPath(column, path);
    CallEnds(column, path);
    var done, last := CastSurvivesIff(s, t);
    assert !EndsInIdentifier(last) by {
      if EndsInIdentifier(last) {
        EndsWithLast(done, last);
        assert false;
      }
    }
  }

  /** A second colon starts no path, so the name behind it is pending again, and the cast of `a:b:c` is lost. */
  lemma CastOfSecondPathIsLost(column: string, path: string, second: string, t: string)
    requires IsPath(column) && EndsInIdentifier(column) && IsPath(path) && IsPath(second) && EndsInIdentifier(second)
    ensures RewriteColonPath(column + ([':'] + (path + ([':'] + (second + ("::" + t))))))
         == GetPath(column, path) + (":" + (GetPath(second, "") + ":" + RewriteColonPath(t)))
  {
    hide Rewrite, PathLength, GetPath, IsIdentChar;
    var rest := [':'] + (second + ("::" + t));
    ColonAlone(t);
    CallText(column, path);
    ColonPathBecomesCall("", column, path, rest);
    RewriteOfNothing("", None);
    assert "" + (column + ([':'] + (path + rest))) == column + ([':'] + (path + rest));
    assert "" + (GetPath(column, path) + RewriteColonPath(rest)) == GetPath(column, path) + RewriteColonPath(rest);
    RewriteHead(':', second + ("::" + t), "", None);
    assert "" + [':'] == ":";
    CastsOfColumnAndPath(second, "", t);
  }

  // ---- Normal form ----

  /** Read from `quote`, with `name` saying whether an identifier character came last: no colon is left to rewrite. */
  predicate Settled(s: string, quote: Option<QuoteChar>, name: bool)
    decreases |s|
  {
    s == ""
    || (!(quote.None? && s[0] == ':' && name) && Settled(s[1..], Toggle(quote, s[0]), IsIdentChar(s[0])))
  }

  /** Outside literals no colon follows an identifier character. */
  ghost predicate NormalForm(s: string) {
    forall i :: 0 < i < |s| && s[i] == ':' && Toggles(None, s[..i]).None? ==> !IsIdentChar(s[i - 1])
  }

  ghost predicate SettledAt(s: string, quote: Option<QuoteChar>, name: bool, i: nat)
    requires i < |s|
  {
    s[i] == ':' && Toggles(quote, s[..i]).None? ==> !(if i == 0 then name else IsIdentChar(s[i - 1]))
  }

  lemma {:induction false} SettledIff(s: string, quote: Option<QuoteChar>, name: bool)
    ensures Settled(s, quote, name) <==> forall i :: 0 <= i < |s| ==> SettledAt(s, quote, name, i)
    decreases |s|
  {
    if s != "" {
      var next, rest := Toggle(quote, s[0]), s[1..];
      SettledIff(rest, next, IsIdentChar(s[0]));
      forall i | 0 <= i < |rest|
        ensures SettledAt(rest, next, IsIdentChar(s[0]), i) <==> SettledAt(s, quote, name, i + 1)
      {
        assert s[..i + 1][1..] == rest[..i];
      }
      assert s[..0] == "";
      if forall i :: 0 <= i < |s| ==> SettledAt(s, quote, name, i) {
        assert SettledAt(s, quote, name, 0);
      } else {
        var i :| 0 <= i < |s| && !SettledAt(s, quote, name, i);
        assert i > 0 ==> !SettledAt(rest, next, IsIdentChar(s[0]), i - 1);
      }
    }
  }

  lemma {:induction false} SettledAppend(s: string, t: string, quote: Option<QuoteChar>, name: bool)
    ensures Settled(s + t, quote, name) <==>
      Settled(s, quote, name) && Settled(t, Toggles(quote, s), if s == "" then name else IsIdentChar(s[|s| - 1]))
    decreases |s|
  {
    if s == "" {
      assert s + t == t;
    } else {
      assert (s + t)[1..] == s[1..] + t;
      SettledAppend(s[1..], t, Toggle(quote, s[0]), IsIdentChar(s[0]));
    }
  }

  lemma {:induction false} NamesAreSettled(s: string, name: bool)
    requires IsPath(s)
    ensures Settled(s, None, name) && Toggles(None, s) == None
    decreases |s|
  {
    if s != "" {
      NamesAreSettled(s[1..], IsIdentChar(s[0]));
    }
  }

  lemma CallIsSettled(column: string, path: string)
    requires IsPath(column) && IsPath(path)
    ensures Settled(GetPath(column, path), None, false) && Toggles(None, GetPath(column, path)) == None
  {
    hide Settled, Toggles, IsPath;
    var a, b, c := "get_path(", ", ", ")";
    var literal := "'" + path + "'";
    assert GetPath(column, path) == a + (column + (b + (literal + c)));
    Plain(a, false);
    NamesAreSettled(column, false);
    Plain(b, true);
    Plain(b, false);
    LiteralIsSettled(path);
    Plain(c, false);
    SettledAppend(literal, c, None, false);
    SettledAppend(b, literal + c, None, true);
    SettledAppend(b, literal + c, None, false);
    SettledAppend(column, b + (literal + c), None, false);
    SettledAppend(a, column + (b + (literal + c)), None, false);
    TogglesAppend(None, literal, c);
    TogglesAppend(None, b, literal + c);
    TogglesAppend(None, column, b + (literal + c));
    TogglesAppend(None, a, column + (b + (literal + c)));
  }

  /** Text with neither colons nor quotes. */
  lemma {:induction false} Plain(s: string, name: bool)
    requires forall i :: 0 <= i < |s| ==> s[i] != ':' && s[i] != '\'' && s[i] != '"'
    ensures Settled(s, None, name) && Toggles(None, s) == None
    decreases |s|
  {
    if s != "" {
      Plain(s[1..], IsIdentChar(s[0]));
    }
  }

  lemma LiteralIsSettled(path: string)
    requires IsPath(path)
    ensures Settled("'" + path + "'", None, false) && Toggles(None, "'" + path + "'") == None
  {
    InQuote(path, false);
    assert ("'" + path + "'")[1..] == path + "'";
  }

  lemma {:induction false} InQuote(path: string, name: bool)
    requires IsPath(path)
    ensures Settled(path + "'", Some('\''), name) && Toggles(Some('\''), path + "'") == None
    decreases |path|
  {
    if path == "" {
      assert path + "'" == "'" && "'"[1..] == "";
    } else {
      assert (path + "'")[1..] == path[1..] + "'";
      InQuote(path[1..], IsIdentChar(path[0]));
    }
  }

  lemma CopiedSettles(word: string, c: char, out: string, quote: Option<QuoteChar>, name: bool)
    requires if quote.Some? then word == "" else IsPath(word) && !name
    requires c != ':' || quote.Some? || !EndsInIdentifier(word)
    requires Settled(out, Toggle(quote, c), IsIdentChar(c))
    ensures Settled(word + [c] + out, quote, name)
  {
    hide Settled, Toggles, IsPath, IsIdentChar;
    var last := if word == "" then name else IsIdentChar(word[|word| - 1]);
    SettledChar(c, out, quote, last);
    SettledAppend(word, [c] + out, quote, name);
    assert word + [c] + out == word + ([c] + out);
    if word == "" {
      NothingSettled(quote, name);
    } else {
      NamesAreSettled(word, name);
    }
  }

  lemma NothingSettled(quote: Option<QuoteChar>, name: bool)
    ensures Settled("", quote, name) && Toggles(quote, "") == quote
  {
  }

  /** The output for what is left, read behind the output so far, has no colon left to rewrite. */
  lemma {:induction false} RewriteSettles(s: string, word: string, quote: Option<QuoteChar>, name: bool)
    requires if quote.Some? then word == "" else IsPath(word) && !name
    ensures Settled(Rewrite(s, word, quote), quote, name)
    decreases |s|
  {
    hide GetPath, PathLength, Rewrite, Settled, Toggles;
    if s == "" {
      RewriteOfNothing(word, quote);
      NothingSettled(quote, name);
      if quote.None? {
        NamesAreSettled(word, name);
      }
    } else {
      var c, rest := s[0], s[1..];
      assert s == [c] + rest;
      RewriteHead(c, rest, word, quote);
      if quote.None? && c == ':' && EndsInIdentifier(word) {
        var n := PathLength(rest);
        PathLengthIsPath(rest);
        CallIsSettled(word, rest[..n]);
        CallEnds(word, rest[..n]);
        RewriteSettles(rest[n..], "", None, false);
        SettledAppend(GetPath(word, rest[..n]), Rewrite(rest[n..], "", None), None, false);
      } else if quote.None? && IsPathChar(c) {
        RewriteSettles(rest, word + [c], None, false);
      } else {
        RewriteSettles(rest, "", Toggle(quote, c), IsIdentChar(c));
        CopiedSettles(word, c, Rewrite(rest, "", Toggle(quote, c)), quote, name);
      }
    }
  }

  lemma RewriteOfNothing(word: string, quote: Option<QuoteChar>)
    ensures Rewrite("", word, quote) == word
  {
  }

  lemma CallEnds(column: string, path: string)
    ensures var g := GetPath(column, path); g != "" && !IsIdentChar(g[|g| - 1])
  {
  }

  lemma SettledChar(c: char, out: string, quote: Option<QuoteChar>, name: bool)
    ensures Settled([c] + out, quote, name) <==>
      !(quote.None? && c == ':' && name) && Settled(out, Toggle(quote, c), IsIdentChar(c))
  {
    assert ([c] + out)[1..] == out;
  }

  lemma {:induction false} SettledIsUnchanged(s: string, word: string, quote: Option<QuoteChar>)
    requires if quote.Some? then word == "" else IsPath(word)
    requires Settled(s, quote, EndsInIdentifier(word)) || (quote.Some? && Settled(s, quote, true))
    ensures Rewrite(s, word, quote) == word + s
    decreases |s|
  {
    hide GetPath, PathLength, Rewrite;
    if s == "" {
      RewriteOfNothing(word, quote);
    } else {
      var c, rest := s[0], s[1..];
      assert s == [c] + rest && word + s == word + [c] + rest && "" + rest == rest;
      RewriteHead(c, rest, word, quote);
      if quote.Some? || c == '\'' || c == '"' {
        SettledIsUnchanged(rest, "", Toggle(quote, c));
      } else if IsPathChar(c) {
        SettledIsUnchanged(rest, word + [c], None);
      } else {
        SettledIsUnchanged(rest, "", None);
      }
    }
  }

  /** One pass reaches the normal form, and exactly the texts in normal form are left unchanged. */
  lemma OnePassNormalizes(sql: string)
    ensures NormalForm(RewriteColonPath(sql))
    ensures RewriteColonPath(RewriteColonPath(sql)) == RewriteColonPath(sql)
    ensures RewriteColonPath(sql) == sql <==> NormalForm(sql)
  {
    hide Rewrite, Settled;
    var out := RewriteColonPath(sql);
    RewriteSettles(sql, "", None, false);
    NormalFormIff(out);
    NormalFormIff(sql);
    SettledIsUnchanged(out, "", None);
    assert "" + out == out && "" + sql == sql;
    if NormalForm(sql) {
      SettledIsUnchanged(sql, "", None);
    }
  }

  lemma NormalFormIff(s: string)
    ensures NormalForm(s) <==> Settled(s, None, false)
  {
    SettledIff(s, None, false);
    if NormalForm(s) {
      assert forall i :: 0 <= i < |s| ==> SettledAt(s, None, false, i);
    } else {
      var i :| 0 < i < |s| && s[i] == ':' && Toggles(None, s[..i]).None? && IsIdentChar(s[i - 1]);
      assert !SettledAt(s, None, false, i);
    }
  }
}
