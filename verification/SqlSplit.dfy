/**
 Splitting a script into statements (`split_sql_statements`).

 The program's loop looks one character ahead: it copies a doubled quote in one turn and a whole
 comment in one turn. The specification is an automaton that never looks ahead, so its state after
 `s + t` is the state reached from the state after `s`. The loop is proved to compute what the
 automaton computes, and the laws of splitting are proved about the automaton.
 */
module SqlSplit {
  import opened Literals
  import opened Text

  /** Where a reader of SQL text stands. The last three say what the previous character might still become. */
  datatype State =
    | Normal
    | Quoted(q: QuoteChar)
    | LineComment
    | BlockComment
    | BlockStar          // in a block comment, just after '*'
    | Closing(q: QuoteChar)   // just after a quote that closes its literal unless it is doubled
    | Dash               // after one '-'
    | Slash              // after one '/'
  {
    /** A semicolon read in this state separates statements. */
    predicate TopLevel() {
      Normal? || Closing? || Dash? || Slash?
    }
  }

  function Step(st: State, c: char): State {
    match st
    case Quoted(q) => if c == q then Closing(q) else st
    case LineComment => if c == '\n' then Normal else st
    case BlockComment => if c == '*' then BlockStar else st
    case BlockStar => if c == '/' then Normal else if c == '*' then BlockStar else BlockComment
    case Closing(q) => if c == q then Quoted(q) else Start(c)
    case Dash => if c == '-' then LineComment else Start(c)
    case Slash => if c == '*' then BlockComment else Start(c)
    case Normal => Start(c)
  }

  function Start(c: char): State {
    if c == '\'' || c == '"' then Quoted(c) else if c == '-' then Dash else if c == '/' then Slash else Normal
  }

  function Run(st: State, s: string): State
    decreases |s|
  {
    if s == "" then st else Run(Step(st, s[0]), s[1..])
  }

  lemma {:induction false} RunAppend(st: State, s: string, t: string)
    ensures Run(st, s + t) == Run(Run(st, s), t)
    decreases |s|
  {
    if s == "" {
      assert s + t == t;
    } else {
      assert (s + t)[1..] == s[1..] + t;
      RunAppend(Step(st, s[0]), s[1..], t);
    }
  }

  predicate Separates(st: State, c: char) {
    c == ';' && st.TopLevel()
  }

  /** No character of `s`, read from `st`, separates statements. */
  predicate Quiet(st: State, s: string)
    decreases |s|
  {
    s == "" || (!Separates(st, s[0]) && Quiet(Step(st, s[0]), s[1..]))
  }

  lemma {:induction false} QuietAppend(st: State, s: string, t: string)
    ensures Quiet(st, s + t) <==> Quiet(st, s) && Quiet(Run(st, s), t)
    decreases |s|
  {
    if s == "" {
      assert s + t == t;
    } else {
      assert (s + t)[1..] == s[1..] + t;
      QuietAppend(Step(st, s[0]), s[1..], t);
    }
  }

  function Emit(piece: string): seq<string> {
    if Trim(piece) == "" then [] else [Trim(piece)]
  }

  /** The statements of `s` read from state `st`, when `current` has been read of the first one. */
  function SplitFrom(st: State, s: string, current: string): seq<string>
    decreases |s|
  {
    if s == "" then Emit(current)
    else if Separates(st, s[0]) then Emit(current) + SplitFrom(Normal, s[1..], "")
    else SplitFrom(Step(st, s[0]), s[1..], current + [s[0]])
  }

  function Split(sql: string): seq<string> {
    SplitFrom(Normal, sql, "")
  }

  /** The positions in `s` of the semicolons that separate, counted from `at`. */
  function SeparatorsFrom(st: State, s: string, at: nat): seq<nat>
    decreases |s|
  {
    if s == "" then []
    else (if Separates(st, s[0]) then [at] else []) + SeparatorsFrom(Step(st, s[0]), s[1..], at + 1)
  }

  function Separators(sql: string): seq<nat> {
    SeparatorsFrom(Normal, sql, 0)
  }

  // ---- The loop ----

  /** One step of the loop's reading, in terms of the automaton. */
  lemma SplitStep(st: State, sql: string, i: nat, current: string)
    requires i < |sql|
    ensures !Separates(st, sql[i]) ==>
              SplitFrom(st, sql[i..], current) == SplitFrom(Step(st, sql[i]), sql[i + 1..], current + [sql[i]])
    ensures Separates(st, sql[i]) ==>
              SplitFrom(st, sql[i..], current) == Emit(current) + SplitFrom(Normal, sql[i + 1..], "")
  {
    assert sql[i..][1..] == sql[i + 1..];
  }

  lemma SplitEnd(st: State, sql: string, current: string)
    ensures SplitFrom(st, sql[|sql|..], current) == Emit(current)
  {
  }

  /** The next character does not turn what was read into a doubled quote or a comment opener. */
  ghost predicate Settled(st: State, sql: string, i: nat)
    requires i <= |sql|
  {
    || i == |sql|
    || match st
       case Normal => true
       case Closing(q) => sql[i] != q
       case Dash => sql[i] != '-'
       case Slash => sql[i] != '*'
       case _ => false
  }

  /** The comment loops: copy from just after the opener to just after the closer, or to the end. */
  method CopyLineComment(sql: string, start: nat, prefix: string)
    returns (i: nat, current: string, ghost st: State)
    requires start <= |sql|
    ensures start <= i <= |sql| && Settled(st, sql, i)
    ensures SplitFrom(st, sql[i..], current) == SplitFrom(LineComment, sql[start..], prefix)
  {
    i, current, st := start, prefix, LineComment;
    while i < |sql|
      invariant start <= i <= |sql|
      invariant st == LineComment
      invariant SplitFrom(st, sql[i..], current) == SplitFrom(LineComment, sql[start..], prefix)
    {
      var c := sql[i];
      SplitStep(st, sql, i, current);
      current := current + [c];
      i := i + 1;
      if c == '\n' {
        st := Normal;
        break;
      }
    }
  }

  method CopyBlockComment(sql: string, start: nat, prefix: string)
    returns (i: nat, current: string, ghost st: State)
    requires start <= |sql|
    ensures start <= i <= |sql| && Settled(st, sql, i)
    ensures SplitFrom(st, sql[i..], current) == SplitFrom(BlockComment, sql[start..], prefix)
  {
    i, current, st := start, prefix, BlockComment;
    while i < |sql|
      invariant start <= i <= |sql|
      invariant st == BlockComment || (st == BlockStar && (i < |sql| ==> sql[i] != '/'))
      invariant SplitFrom(st, sql[i..], current) == SplitFrom(BlockComment, sql[start..], prefix)
    {
      var c := sql[i];
      SplitStep(st, sql, i, current);
      current := current + [c];
      st := Step(st, c);
      i := i + 1;
      if c == '*' && i < |sql| && sql[i] == '/' {
        SplitStep(st, sql, i, current);
        current := current + [sql[i]];
        st := Normal;
        i := i + 1;
        break;
      }
    }
  }

  method SplitSqlStatements(sql: string) returns (statements: seq<string>)
    ensures statements == Split(sql)
  {
    hide Emit, SplitFrom;
    statements := [];
    var current := "";
    var quote: Option<QuoteChar> := None;
    var i := 0;
    ghost var st := Normal;
    assert sql[0..] == sql;
    while i < |sql|
      invariant i <= |sql|
      invariant quote.None? ==> Settled(st, sql, i)
      invariant quote.Some? ==> st == Quoted(quote.value)
      invariant statements + SplitFrom(st, sql[i..], current) == Split(sql)
    {
      var ch := sql[i];
      SplitStep(st, sql, i, current);
      if quote.Some? {
        current := current + [ch];
        st := Step(st, ch);
        i := i + 1;
        if ch == quote.value {
          if i < |sql| && sql[i] == ch {
            SplitStep(st, sql, i, current);
            current := current + [ch];
            st := Step(st, ch);
            i := i + 1;
          } else {
            quote := None;
          }
        }
      } else if ch == '-' && i + 1 < |sql| && sql[i + 1] == '-' {
        SplitStep(Dash, sql, i + 1, current + [ch]);
        i, current, st := CopyLineComment(sql, i + 2, current + [ch] + ['-']);
      } else if ch == '/' && i + 1 < |sql| && sql[i + 1] == '*' {
        SplitStep(Slash, sql, i + 1, current + [ch]);
        i, current, st := CopyBlockComment(sql, i + 2, current + [ch] + ['*']);
      } else if ch == ';' {
        statements := statements + Emit(current);
        current, st, i := "", Normal, i + 1;
      } else {
        if ch == '\'' || ch == '"' {
          quote := Some(ch);
        }
        current := current + [ch];
        st := Step(st, ch);
        i := i + 1;
      }
    }
    SplitEnd(st, sql, current);
    statements := statements + Emit(current);
  }

  // ---- Re-splitting ----

  /** Adding a newline and a semicolon after text in this state separates there. */
  predicate Finishable(st: State) {
    st.TopLevel() || st == LineComment
  }

  predicate OneStatement(s: string) {
    s != "" && Trim(s) == s && Quiet(Normal, s)
  }

  /** The lists of statements that splitting can produce. */
  ghost predicate Canonical(l: seq<string>) {
    && (forall k :: 0 <= k < |l| ==> OneStatement(l[k]))
    && (forall k :: 0 <= k < |l| - 1 ==> Finishable(Run(Normal, l[k])))
  }

  function Rejoin(l: seq<string>): string {
    if l == [] then "" else if |l| == 1 then l[0] else l[0] + "\n;" + Rejoin(l[1..])
  }

  lemma {:induction false} SplitPast(st: State, p: string, t: string, current: string)
    requires Quiet(st, p)
    ensures SplitFrom(st, p + t, current) == SplitFrom(Run(st, p), t, current + p)
    decreases |p|
  {
    if p == "" {
      assert p + t == t && current + p == current;
    } else {
      assert (p + t)[1..] == p[1..] + t;
      assert current + p == current + [p[0]] + p[1..];
      SplitPast(Step(st, p[0]), p[1..], t, current + [p[0]]);
    }
  }

  lemma {:induction false} TrimStartKeepsReading(s: string)
    ensures Run(Normal, TrimStart(s)) == Run(Normal, s)
    ensures Quiet(Normal, TrimStart(s)) <==> Quiet(Normal, s)
  {
    if s != "" && IsWhitespace(s[0]) {
      assert Step(Normal, s[0]) == Normal && !Separates(Normal, s[0]);
      assert TrimStart(s) == TrimStart(s[1..]);
      TrimStartKeepsReading(s[1..]);
    } else {
      assert TrimStart(s) == s;
    }
  }

  lemma {:induction false} TrimEndKeepsReading(s: string)
    requires Quiet(Normal, s)
    ensures Quiet(Normal, TrimEnd(s))
    ensures Finishable(Run(Normal, s)) ==> Finishable(Run(Normal, TrimEnd(s)))
  {
    if s != "" && IsWhitespace(s[|s| - 1]) {
      var t := s[..|s| - 1];
      assert s == t + [s[|s| - 1]];
      QuietAppend(Normal, t, [s[|s| - 1]]);
      RunAppend(Normal, t, [s[|s| - 1]]);
      TrimEndKeepsReading(t);
    }
  }

  lemma EmitCanonical(piece: string)
    requires Quiet(Normal, piece)
    ensures Canonical(Emit(piece))
    ensures Finishable(Run(Normal, piece)) ==>
              forall k :: 0 <= k < |Emit(piece)| ==> Finishable(Run(Normal, Emit(piece)[k]))
  {
    TrimStartKeepsReading(piece);
    TrimEndKeepsReading(TrimStart(piece));
    TrimIsIdempotent(piece);
    hide Run, Quiet, TrimStart, TrimEnd;
  }

  lemma {:induction false} SplitFromCanonical(s: string, current: string)
    requires Quiet(Normal, current)
    ensures Canonical(SplitFrom(Run(Normal, current), s, current))
    decreases |s|
  {
    var st := Run(Normal, current);
    EmitCanonical(current);
    if s != "" {
      if Separates(st, s[0]) {
        SplitFromCanonical(s[1..], "");
      } else {
        QuietAppend(Normal, current, [s[0]]);
        RunAppend(Normal, current, [s[0]]);
        SplitFromCanonical(s[1..], current + [s[0]]);
      }
    }
  }

  lemma ReadLine(line: string, rest: string)
    requires Quiet(Normal, line) && Run(Normal, line).TopLevel()
    ensures Split(line + (";" + rest)) == Emit(line) + Split(rest)
  {
    SplitPast(Normal, line, ";" + rest, "");
    SplitAtSemicolon(Run(Normal, line), rest, line);
    assert "" + line == line;
  }

  lemma NewlineFinishes(p: string)
    requires Quiet(Normal, p) && Finishable(Run(Normal, p))
    ensures Quiet(Normal, p + ['\n']) && Run(Normal, p + ['\n']).TopLevel()
  {
    var st := Run(Normal, p);
    QuietAppend(Normal, p, ['\n']);
    RunAppend(Normal, p, ['\n']);
    assert Run(st, ['\n']) == Run(Step(st, '\n'), []) == Step(st, '\n');
  }

  /** Reading a finishable statement, a newline and a semicolon emits the statement. */
  lemma SplitAfterStatement(p: string, rest: string)
    requires OneStatement(p) && Finishable(Run(Normal, p))
    ensures Split(p + "\n;" + rest) == [p] + Split(rest)
  {
    hide Split, SplitFrom, Run, Quiet, Trim;
    NewlineFinishes(p);
    ReadLine(p + ['\n'], rest);
    assert p + "\n;" + rest == p + ['\n'] + (";" + rest);
    TrimWithNewline(p);
  }

  lemma SplitAtSemicolon(st: State, rest: string, current: string)
    requires st.TopLevel()
    ensures SplitFrom(st, ";" + rest, current) == Emit(current) + Split(rest)
  {
    assert (";" + rest)[1..] == rest;
  }

  lemma OneStatementResplits(p: string)
    requires OneStatement(p)
    ensures Split(p) == [p]
  {
    hide Trim, Run, Quiet;
    SplitPast(Normal, p, "", "");
    assert p + "" == p && "" + p == p;
  }

  lemma {:induction false} CanonicalResplits(l: seq<string>)
    requires Canonical(l)
    ensures Split(Rejoin(l)) == l
  {
    hide Split, OneStatement, Run;
    if |l| == 1 {
      OneStatementResplits(l[0]);
    } else if |l| > 1 {
      SplitAfterStatement(l[0], Rejoin(l[1..]));
      CanonicalResplits(l[1..]);
    } else {
      EmptySplits();
    }
  }

  lemma EmptySplits()
    ensures Split("") == []
  {
  }

  lemma TrimWithNewline(s: string)
    requires s != "" && Trim(s) == s
    ensures Trim(s + ['\n']) == s
  {
    var t := s + ['\n'];
    assert TrimStart(t) == t by {
      assert t[0] == s[0];
    }
    assert t[..|t| - 1] == s;
    assert TrimEnd(t) == TrimEnd(s);
  }

  /** A list of statements survives joining and splitting exactly when splitting can produce it. */
  lemma RejoinResplitIff(l: seq<string>)
    ensures Split(Rejoin(l)) == l <==> Canonical(l)
  {
    if Canonical(l) {
      CanonicalResplits(l);
    }
    SplitFromCanonical(Rejoin(l), "");
  }

  /** Splitting, joining with newline-semicolon and splitting again changes nothing. */
  lemma ResplitIsStable(sql: string)
    ensures Split(Rejoin(Split(sql))) == Split(sql)
    ensures forall k :: 0 <= k < |Split(sql)| ==> Split(Split(sql)[k]) == [Split(sql)[k]]
  {
    SplitFromCanonical(sql, "");
    CanonicalResplits(Split(sql));
    forall k | 0 <= k < |Split(sql)|
      ensures Split(Split(sql)[k]) == [Split(sql)[k]]
    {
      CanonicalResplits([Split(sql)[k]]);
    }
  }

  // ---- Conservation of text ----

  function Concat(l: seq<string>): string {
    if l == [] then "" else l[0] + Concat(l[1..])
  }

  /** The text with the characters at its separator positions removed. */
  function WithoutSeparators(st: State, s: string): string
    decreases |s|
  {
    if s == "" then ""
    else (if Separates(st, s[0]) then "" else [s[0]]) + WithoutSeparators(Step(st, s[0]), s[1..])
  }

  lemma ConcatEmit(piece: string, rest: seq<string>)
    ensures Concat(Emit(piece) + rest) == Trim(piece) + Concat(rest)
  {
    if Emit(piece) == [] {
      assert Emit(piece) + rest == rest && "" + Concat(rest) == Concat(rest);
    } else {
      assert (Emit(piece) + rest)[1..] == rest;
    }
  }

  lemma EmitConserves(piece: string, rest: seq<string>, kept: string)
    requires NonBlank(Concat(rest)) == NonBlank(kept)
    ensures NonBlank(Concat(Emit(piece) + rest)) == NonBlank(piece + kept)
  {
    ConcatEmit(piece, rest);
    NonBlankAppend(Trim(piece), Concat(rest));
    TrimKeepsNonBlank(piece);
    NonBlankAppend(piece, kept);
  }

  lemma {:induction false} SplitFromConserves(st: State, s: string, current: string)
    ensures NonBlank(Concat(SplitFrom(st, s, current))) == NonBlank(current + WithoutSeparators(st, s))
    decreases |s|
  {
    hide Emit, NonBlank, Trim;
    if s == "" {
      EmitConserves(current, [], "");
      assert Emit(current) + [] == Emit(current);
    } else {
      var separates := Separates(st, s[0]);
      var next := if separates then Normal else Step(st, s[0]);
      var read := if separates then "" else current + [s[0]];
      SplitFromConserves(next, s[1..], read);
      var kept := WithoutSeparators(next, s[1..]);
      if separates {
        assert WithoutSeparators(st, s) == "" + kept == kept;
        EmitConserves(current, SplitFrom(Normal, s[1..], ""), kept);
      } else {
        assert current + [s[0]] + kept == current + ([s[0]] + kept);
      }
    }
  }

  /** Apart from whitespace, the statements together are the script without its separators. */
  lemma SplitConservesText(sql: string)
    ensures NonBlank(Concat(Split(sql))) == NonBlank(WithoutSeparators(Normal, sql))
  {
    SplitFromConserves(Normal, sql, "");
    assert "" + WithoutSeparators(Normal, sql) == WithoutSeparators(Normal, sql);
  }

  /** `SeparatorsFrom` lists exactly the positions of separating semicolons, in order. */
  lemma {:induction false} SeparatorsAreExact(st: State, s: string, at: nat)
    ensures forall k :: 0 <= k < |s| ==>
      (Separates(Run(st, s[..k]), s[k]) <==> at + k in SeparatorsFrom(st, s, at))
    ensures forall p :: p in SeparatorsFrom(st, s, at) ==> at <= p < at + |s|
    decreases |s|
  {
    if s != "" {
      var rest := SeparatorsFrom(Step(st, s[0]), s[1..], at + 1);
      SeparatorsAreExact(Step(st, s[0]), s[1..], at + 1);
      forall k | 0 <= k < |s|
        ensures Separates(Run(st, s[..k]), s[k]) <==> at + k in SeparatorsFrom(st, s, at)
      {
        if k > 0 {
          assert s[..k][1..] == s[1..][..k - 1];
          assert s[1..][k - 1] == s[k];
          assert at + k == at + 1 + (k - 1);
        }
      }
    }
  }

  lemma {:induction false} SeparatorsPast(st: State, p: string, t: string, at: nat)
    requires Quiet(st, p)
    ensures SeparatorsFrom(st, p + t, at) == SeparatorsFrom(Run(st, p), t, at + |p|)
    decreases |p|
  {
    if p == "" {
      assert p + t == t;
    } else {
      assert (p + t)[1..] == p[1..] + t;
      SeparatorsPast(Step(st, p[0]), p[1..], t, at + 1);
    }
  }
}
