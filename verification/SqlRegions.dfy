/**
 What the splitter takes for a literal or a comment, told without its automaton: by looking for where each one
 ends. The statements are what is left when the text is cut at the semicolons outside all of them.
 */
module SqlRegions {
  import opened Literals
  import opened Text
  import opened SqlSplit
  import opened SqlCommands

  // ---- Searching ----

  /** `Find` answers with the first position at which the pattern stands. */
  lemma {:induction false} FindIsFirst(s: string, pat: string)
    ensures Find(s, pat).Some? ==> pat <= s[Find(s, pat).value..]
    ensures forall k :: 0 <= k < (if Find(s, pat).Some? then Find(s, pat).value else |s| + 1) ==> !(k <= |s| && pat <= s[k..])
  {
    assert s[0..] == s;
    if !(pat <= s) && s != "" {
      FindIsFirst(s[1..], pat);
      assert forall k :: 0 < k <= |s| ==> s[k..] == s[1..][k - 1..];
    }
  }

  // ---- Regions ----

  /** The length of what starts the text: a comment with its end, a literal with its closing quote, or one character. */
  function RegionLength(s: string): (n: nat)
    requires s != ""
    ensures 0 < n <= |s|
  {
    if "--" <= s then
      var end := Find(s[2..], "\n");
      if end.Some? then end.value + 3 else |s|
    else if "/*" <= s then
      var end := Find(s[2..], "*/");
      if end.Some? then end.value + 4 else |s|
    else if s[0] == '\'' || s[0] == '"' then
      var end := Find(s[1..], [s[0]]);
      if end.Some? then end.value + 2 else |s|
    else 1
  }

  /** The positions, counted from `at`, of the semicolons that are regions of their own. */
  function Cuts(s: string, at: nat): seq<nat>
    decreases |s|
  {
    if s == "" then []
    else
      var n := RegionLength(s);
      (if s[0] == ';' then [at] else []) + Cuts(s[n..], at + n)
  }

  /** The pieces between the given positions, trimmed; blank ones are left out. */
  function Pieces(sql: string, cuts: seq<nat>, from: nat): seq<string>
    requires from <= |sql|
    decreases |cuts|
  {
    if cuts == [] then TrimmedUnlessBlank(sql[from..])
    else if cuts[0] < from || cuts[0] >= |sql| then []
    else TrimmedUnlessBlank(sql[from..cuts[0]]) + Pieces(sql, cuts[1..], cuts[0] + 1)
  }

  function TrimmedUnlessBlank(piece: string): seq<string> {
    if forall i :: 0 <= i < |piece| ==> IsWhitespace(piece[i]) then [] else [Trim(piece)]
  }

  // ---- The automaton reads regions ----

  /** The states in which nothing is pending for what comes next. */
  predicate Fresh(st: State, s: string) {
    match st
    case Normal => true
    case Closing(_) => true
    case Dash => s == "" || s[0] != '-'
    case Slash => s == "" || s[0] != '*'
    case _ => false
  }

  lemma {:induction false} ReadLiteral(q: QuoteChar, s: string, at: nat)
    ensures var end := Find(s, [q]);
      if end.None? then SeparatorsFrom(Quoted(q), s, at) == []
      else SeparatorsFrom(Quoted(q), s, at) == SeparatorsFrom(Closing(q), s[end.value + 1..], at + end.value + 1)
    decreases |s|
  {
    if s != "" && s[0] != q {
      ReadLiteral(q, s[1..], at + 1);
      LaterEnd(s, [q]);
    } else if s != "" {
      assert [q] <= s;
    }
  }

  lemma {:induction false} ReadLine(s: string, at: nat)
    ensures var end := Find(s, "\n");
      if end.None? then SeparatorsFrom(LineComment, s, at) == []
      else SeparatorsFrom(LineComment, s, at) == SeparatorsFrom(Normal, s[end.value + 1..], at + end.value + 1)
    decreases |s|
  {
    if s != "" && s[0] != '\n' {
      ReadLine(s[1..], at + 1);
      LaterEnd(s, "\n");
    } else if s != "" {
      assert "\n" <= s;
    }
  }

  lemma AfterStar(s: string, at: nat)
    ensures s != "" && s[0] == '/' ==> SeparatorsFrom(BlockStar, s, at) == SeparatorsFrom(Normal, s[1..], at + 1)
    ensures s == "" || s[0] != '/' ==> SeparatorsFrom(BlockStar, s, at) == SeparatorsFrom(BlockComment, s, at)
  {
  }

  lemma BlockStep(s: string, at: nat)
    requires s != ""
    ensures SeparatorsFrom(BlockComment, s, at) ==
      SeparatorsFrom(if s[0] == '*' then BlockStar else BlockComment, s[1..], at + 1)
  {
  }

  lemma {:induction false} ReadBlock(s: string, at: nat)
    ensures var end := Find(s, "*/");
      if end.None? then SeparatorsFrom(BlockComment, s, at) == []
      else SeparatorsFrom(BlockComment, s, at) == SeparatorsFrom(Normal, s[end.value + 2..], at + end.value + 2)
    decreases |s|
  {
    hide SeparatorsFrom, Find;
    if s != "" {
      BlockStep(s, at);
      AfterStar(s[1..], at + 1);
      if "*/" <= s {
        FindAtStart(s, "*/");
        assert s[1..][1..] == s[2..] && s[0] == '*' && s[1..][0] == '/';
      } else {
        assert "*/" <= s <==> |s| > 1 && s[0] == '*' && s[1] == '/';
        ReadBlock(s[1..], at + 1);
        LaterEnd(s, "*/");
      }
    } else {
      NothingSeparates(BlockComment, at);
      NothingFound("*/");
    }
  }

  lemma FindAtStart(s: string, pat: string)
    requires pat <= s
    ensures Find(s, pat) == Some(0)
  {
  }

  lemma NothingFound(pat: string)
    requires pat != ""
    ensures Find("", pat) == None
  {
  }

  /** A pattern that does not stand at the start is found one position earlier in the rest. */
  lemma LaterEnd(s: string, pat: string)
    requires s != "" && !(pat <= s)
    ensures Find(s, pat).Some? <==> Find(s[1..], pat).Some?
    ensures Find(s, pat).Some? ==> Find(s, pat).value == Find(s[1..], pat).value + 1
    ensures forall n :: 0 <= n < |s| ==> s[n + 1..] == s[1..][n..]
  {
  }

  lemma FreshStep(st: State, s: string, at: nat)
    requires s != "" && Fresh(st, s)
    ensures SeparatorsFrom(st, s, at) == (if s[0] == ';' then [at] else []) + SeparatorsFrom(Start(s[0]), s[1..], at + 1)
  {
  }

  lemma SecondStep(st: State, s: string, at: nat)
    requires |s| >= 2 && ((st == Dash && s[1] == '-') || (st == Slash && s[1] == '*'))
    ensures SeparatorsFrom(st, s[1..], at + 1) == SeparatorsFrom(Step(st, s[1]), s[2..], at + 2)
  {
    assert s[1..][1..] == s[2..];
  }

  /** What is separated behind the region that starts the text, when the automaton is fresh there. */
  ghost predicate GoesOn(s: string, at: nat, separators: seq<nat>)
    requires s != ""
  {
    var n := RegionLength(s);
    exists st :: Fresh(st, s[n..]) && separators == SeparatorsFrom(st, s[n..], at + n)
  }

  lemma NothingSeparates(st: State, at: nat)
    ensures SeparatorsFrom(st, "", at) == []
  {
  }

  lemma GoesOnAt(s: string, at: nat, st: State, n: nat)
    requires s != "" && n == RegionLength(s) && Fresh(st, s[n..])
    ensures GoesOn(s, at, SeparatorsFrom(st, s[n..], at + n))
  {
  }

  lemma LineGoesOn(s: string, at: nat)
    requires "--" <= s
    ensures GoesOn(s, at, SeparatorsFrom(Dash, s[1..], at + 1))
  {
    hide SeparatorsFrom, Find;
    var end := Find(s[2..], "\n");
    SecondStep(Dash, s, at);
    ReadLine(s[2..], at + 2);
    if end.Some? {
      assert s[2..][end.value + 1..] == s[end.value + 3..];
    } else {
      NothingSeparates(Normal, at + |s|);
      assert s[|s|..] == "";
    }
    GoesOnAt(s, at, Normal, RegionLength(s));
  }

  lemma BlockGoesOn(s: string, at: nat)
    requires "/*" <= s
    ensures GoesOn(s, at, SeparatorsFrom(Slash, s[1..], at + 1))
  {
    hide SeparatorsFrom, Find;
    var end := Find(s[2..], "*/");
    SecondStep(Slash, s, at);
    ReadBlock(s[2..], at + 2);
    if end.Some? {
      assert s[2..][end.value + 2..] == s[end.value + 4..];
    } else {
      NothingSeparates(Normal, at + |s|);
      assert s[|s|..] == "";
    }
    GoesOnAt(s, at, Normal, RegionLength(s));
  }

  lemma LiteralGoesOn(s: string, at: nat)
    requires s != "" && (s[0] == '\'' || s[0] == '"')
    ensures GoesOn(s, at, SeparatorsFrom(Quoted(s[0]), s[1..], at + 1))
  {
    hide SeparatorsFrom, Find;
    var end := Find(s[1..], [s[0]]);
    ReadLiteral(s[0], s[1..], at + 1);
    if end.Some? {
      assert s[1..][end.value + 1..] == s[end.value + 2..];
    } else {
      NothingSeparates(Closing(s[0]), at + |s|);
      assert s[|s|..] == "";
    }
    GoesOnAt(s, at, Closing(s[0]), RegionLength(s));
  }

  lemma OtherGoesOn(s: string, at: nat)
    requires s != "" && !("--" <= s) && !("/*" <= s) && s[0] != '\'' && s[0] != '"'
    ensures GoesOn(s, at, SeparatorsFrom(Start(s[0]), s[1..], at + 1))
  {
    hide SeparatorsFrom, Find;
    GoesOnAt(s, at, Start(s[0]), 1);
  }

  lemma RegionGoesOn(s: string, at: nat)
    requires s != ""
    ensures GoesOn(s, at, SeparatorsFrom(Start(s[0]), s[1..], at + 1))
  {
    hide GoesOn, SeparatorsFrom;
    if "--" <= s {
      LineGoesOn(s, at);
    } else if "/*" <= s {
      BlockGoesOn(s, at);
    } else if s[0] == '\'' || s[0] == '"' {
      LiteralGoesOn(s, at);
    } else {
      OtherGoesOn(s, at);
    }
  }

  /** The separating semicolons are exactly those outside every literal and comment. */
  lemma {:induction false} SeparatorsAreCuts(st: State, s: string, at: nat)
    requires Fresh(st, s)
    ensures SeparatorsFrom(st, s, at) == Cuts(s, at)
    decreases |s|
  {
    hide SeparatorsFrom, RegionLength, Start;
    if s == "" {
      NothingSeparates(st, at);
    } else {
      FreshStep(st, s, at);
      RegionGoesOn(s, at);
      var n := RegionLength(s);
      var next :| Fresh(next, s[n..]) && SeparatorsFrom(Start(s[0]), s[1..], at + 1) == SeparatorsFrom(next, s[n..], at + n);
      SeparatorsAreCuts(next, s[n..], at + n);
    }
  }

  // ---- The statements ----

  lemma TrimmedIsEmitted(piece: string)
    ensures Emit(piece) == TrimmedUnlessBlank(piece)
  {
    hide Trim, IsWhitespace;
    TrimIsEmptyIff(piece);
  }

  lemma {:induction false} TrimIsEmptyIff(s: string)
    ensures Trim(s) == "" <==> Blank(s)
  {
    if s != "" && IsWhitespace(s[0]) {
      TrimIsEmptyIff(s[1..]);
      assert Blank(s) <==> Blank(s[1..]);
    } else {
      TrimEndRemovesBlanks(s);
      assert TrimStart(s) == s;
    }
  }

  lemma {:induction false} SplitFromIsCutting(st: State, sql: string, from: nat, i: nat)
    requires from <= i <= |sql|
    ensures SplitFrom(st, sql[i..], sql[from..i]) == Pieces(sql, SeparatorsFrom(st, sql[i..], i), from)
    decreases |sql| - i
  {
    hide Emit, TrimmedUnlessBlank, Start;
    if i == |sql| {
      SplitEnd(st, sql, sql[from..i]);
      assert sql[from..i] == sql[from..];
      TrimmedIsEmitted(sql[from..]);
    } else {
      SplitStep(st, sql, i, sql[from..i]);
      assert sql[i..][1..] == sql[i + 1..];
      if Separates(st, sql[i]) {
        assert Step(st, ';') == Normal by {
          SemicolonStarts(st);
        }
        SplitFromIsCutting(Normal, sql, i + 1, i + 1);
        TrimmedIsEmitted(sql[from..i]);
        assert sql[i + 1..i + 1] == "";
        var cuts := SeparatorsFrom(Normal, sql[i + 1..], i + 1);
        assert SeparatorsFrom(st, sql[i..], i) == [i] + cuts && ([i] + cuts)[1..] == cuts;
      } else {
        SplitFromIsCutting(Step(st, sql[i]), sql, from, i + 1);
        assert sql[from..i] + [sql[i]] == sql[from..i + 1];
        var cuts := SeparatorsFrom(Step(st, sql[i]), sql[i + 1..], i + 1);
        assert SeparatorsFrom(st, sql[i..], i) == [] + cuts == cuts;
      }
    }
  }

  lemma SemicolonStarts(st: State)
    requires st.TopLevel()
    ensures Step(st, ';') == Normal
  {
  }

  /** Splitting cuts the text at the semicolons outside literals and comments, and keeps the trimmed pieces that are not blank. */
  lemma SplitIsCutting(sql: string)
    ensures Separators(sql) == Cuts(sql, 0)
    ensures Split(sql) == Pieces(sql, Cuts(sql, 0), 0)
  {
    hide SplitFrom, SeparatorsFrom, Cuts, Pieces;
    SeparatorsAreCuts(Normal, sql, 0);
    SplitFromIsCutting(Normal, sql, 0, 0);
    assert sql[0..] == sql && sql[0..0] == "";
  }

  // ---- Literals and comments hold no separator ----

  function Shifted(positions: seq<nat>, distance: nat): seq<nat> {
    seq(|positions|, i requires 0 <= i < |positions| => positions[i] + distance)
  }

  /** A semicolon right behind the text would separate. */
  predicate EndsOutside(s: string) {
    |s| in Separators(s + ";")
  }

  lemma ShiftedAppend(l: seq<nat>, m: seq<nat>, distance: nat)
    ensures Shifted(l + m, distance) == Shifted(l, distance) + Shifted(m, distance)
  {
  }

  lemma {:induction false} SeparatorsShift(st: State, s: string, at: nat, distance: nat)
    ensures SeparatorsFrom(st, s, at + distance) == Shifted(SeparatorsFrom(st, s, at), distance)
    decreases |s|
  {
    hide Step;
    if s != "" {
      var first, rest := if Separates(st, s[0]) then [at] else [], SeparatorsFrom(Step(st, s[0]), s[1..], at + 1);
      SeparatorsShift(Step(st, s[0]), s[1..], at + 1, distance);
      ShiftedAppend(first, rest, distance);
      assert Shifted(first, distance) == if Separates(st, s[0]) then [at + distance] else [];
    }
  }

  lemma {:induction false} SeparatorsAppend(st: State, s: string, t: string, at: nat)
    ensures SeparatorsFrom(st, s + t, at) == SeparatorsFrom(st, s, at) + SeparatorsFrom(Run(st, s), t, at + |s|)
    decreases |s|
  {
    if s == "" {
      assert s + t == t;
    } else {
      assert (s + t)[1..] == s[1..] + t;
      SeparatorsAppend(Step(st, s[0]), s[1..], t, at + 1);
    }
  }

  lemma OutsideIsTopLevel(s: string)
    ensures EndsOutside(s) <==> Run(Normal, s).TopLevel()
  {
    hide SeparatorsFrom;
    SeparatorsAreExact(Normal, s + ";", 0);
    assert (s + ";")[..|s|] == s && (s + ";")[|s|] == ';';
  }

  lemma FreshIsNormal(st: State, t: string)
    requires st.Normal? || st.Closing?
    ensures SeparatorsFrom(st, t, 0) == SeparatorsFrom(Normal, t, 0)
  {
  }

  /** Text that is read from outside to outside without a separator leaves those before and after it as they are. */
  lemma QuietInside(p: string, r: string, t: string, end: State)
    requires EndsOutside(p) && Passes(Run(Normal, p), r, end) && (end.Normal? || end.Closing?)
    ensures Separators(p + r + t) == Separators(p) + Shifted(Separators(t), |p| + |r|)
  {
    hide Run, SeparatorsFrom, Quiet;
    assert p + r + t == p + (r + t);
    SeparatorsAppend(Normal, p, r + t, 0);
    SeparatorsPast(Run(Normal, p), r, t, |p|);
    SeparatorsShift(end, t, 0, |p| + |r|);
    FreshIsNormal(end, t);
  }

  lemma {:induction false} BodyPasses(st: State, body: string)
    requires st.Quoted? || st.LineComment?
    requires st.Quoted? ==> st.q !in body
    requires st.LineComment? ==> '\n' !in body
    ensures Passes(st, body, st)
    decreases |body|
  {
    if body != "" {
      assert body[0] in body;
      BodyPasses(st, body[1..]);
    }
  }

  lemma OnePasses(st: State, c: char)
    requires !Separates(st, c)
    ensures Passes(st, [c], Step(st, c))
  {
    assert [c][1..] == "";
  }

  /** A literal holds no separator, whatever is in it. */
  lemma LiteralHoldsNoSeparator(p: string, q: char, body: string, t: string)
    requires EndsOutside(p) && q in {'\'', '"'} && q !in body
    ensures Separators(p + ([q] + body + [q]) + t) == Separators(p) + Shifted(Separators(t), |p| + |body| + 2)
  {
    hide Run, SeparatorsFrom, Quiet, Separators;
    OutsideIsTopLevel(p);
    var st := Run(Normal, p);
    QuoteOpens(st, q);
    OnePasses(st, q);
    BodyPasses(Quoted(q), body);
    OnePasses(Quoted(q), q);
    PassesAppend(st, [q], Quoted(q), body, Quoted(q));
    PassesAppend(st, [q] + body, Quoted(q), [q], Closing(q));
    QuietInside(p, [q] + body + [q], t, Closing(q));
  }

  lemma QuoteOpens(st: State, q: char)
    requires st.TopLevel() && q in {'\'', '"'}
    ensures !Separates(st, q) && Step(st, q) == Quoted(q) && Step(Quoted(q), q) == Closing(q)
  {
  }

  /** Nor does a comment to the end of the line. */
  lemma LineCommentHoldsNoSeparator(p: string, body: string, t: string)
    requires EndsOutside(p) && '\n' !in body
    ensures Separators(p + ("--" + body + "\n") + t) == Separators(p) + Shifted(Separators(t), |p| + |body| + 3)
  {
    hide Run, SeparatorsFrom, Quiet, Separators;
    OutsideIsTopLevel(p);
    var st := Run(Normal, p);
    LineOpens(st);
    BodyPasses(LineComment, body);
    OnePasses(LineComment, '\n');
    PassesAppend(st, "--", LineComment, body, LineComment);
    PassesAppend(st, "--" + body, LineComment, "\n", Normal);
    QuietInside(p, "--" + body + "\n", t, Normal);
  }

  lemma LineOpens(st: State)
    requires st.TopLevel()
    ensures Passes(st, "--", LineComment)
  {
    assert "--"[1..] == "-" && "-"[1..] == "";
  }

  lemma BlockOpens(st: State)
    requires st.TopLevel()
    ensures Passes(st, "/*", BlockComment)
  {
    assert "/*"[1..] == "*" && "*"[1..] == "";
  }

  lemma {:induction false} BlockPasses(st: State, body: string)
    requires st == BlockComment || (st == BlockStar && (body == "" || body[0] != '/'))
    requires Find(body, "*/").None?
    ensures Passes(st, body + "*/", Normal)
    decreases |body|
  {
    if body == "" {
      assert "" + "*/" == "*/" && "*/"[1..] == "/" && "/"[1..] == "";
    } else {
      assert (body + "*/")[1..] == body[1..] + "*/";
      assert "*/" <= body <==> |body| > 1 && body[0] == '*' && body[1] == '/';
      LaterEnd(body, "*/");
      BlockPasses(Step(st, body[0]), body[1..]);
    }
  }

  lemma {:induction false} NoCloserInside(body: string)
    requires forall k :: 0 <= k < |body| - 1 ==> !(body[k] == '*' && body[k + 1] == '/')
    ensures Find(body, "*/").None?
  {
    if body != "" {
      assert "*/" <= body <==> |body| > 1 && body[0] == '*' && body[1] == '/';
      NoCloserInside(body[1..]);
    }
  }

  /** Nor does one between a slash and star and the first star and slash behind them. */
  lemma BlockCommentHoldsNoSeparator(p: string, body: string, t: string)
    requires EndsOutside(p) && forall k :: 0 <= k < |body| - 1 ==> !(body[k] == '*' && body[k + 1] == '/')
    ensures Separators(p + ("/*" + body + "*/") + t) == Separators(p) + Shifted(Separators(t), |p| + |body| + 4)
  {
    hide Run, SeparatorsFrom, Quiet, Separators;
    OutsideIsTopLevel(p);
    var st := Run(Normal, p);
    NoCloserInside(body);
    BlockOpens(st);
    BlockPasses(BlockComment, body);
    PassesAppend(st, "/*", BlockComment, body + "*/", Normal);
    assert "/*" + (body + "*/") == "/*" + body + "*/";
    QuietInside(p, "/*" + body + "*/", t, Normal);
  }

  // ---- Texts without comments ----

  /** Outside literals no comment is opened. */
  ghost predicate NoComments(s: string) {
    forall i :: 0 <= i < |s| - 1 && Toggles(None, s[..i]).None? ==> s[i..i + 2] != "--" && s[i..i + 2] != "/*"
  }

  /** The automaton's state shows the open quote, and its last character when that may open a comment. */
  ghost predicate Shows(st: State, quote: Option<QuoteChar>, s: string, k: nat)
    requires k <= |s|
  {
    if quote.Some? then st == Quoted(quote.value)
    else
      && st.TopLevel()
      && (st == Dash ==> k > 0 && s[k - 1] == '-' && Toggles(None, s[..k - 1]).None?)
      && (st == Slash ==> k > 0 && s[k - 1] == '/' && Toggles(None, s[..k - 1]).None?)
  }

  lemma {:induction false} StateShows(s: string, k: nat)
    requires NoComments(s) && k <= |s|
    ensures Shows(Run(Normal, s[..k]), Toggles(None, s[..k]), s, k)
  {
    hide Run, Toggles, NoComments;
    if k == 0 {
      assert s[..0] == "";
      NothingRead();
    } else {
      StateShows(s, k - 1);
      var before := s[..k - 1];
      assert s[..k] == before + [s[k - 1]];
      RunAppend(Normal, before, [s[k - 1]]);
      TogglesAppend(None, before, [s[k - 1]]);
      OneRead(Run(Normal, before), Toggles(None, before), s[k - 1]);
      if k > 1 {
        assert s[k - 2..k] == [s[k - 2], s[k - 1]];
        if Toggles(None, s[..k - 2]).None? {
          PairOpensNothing(s, k - 2);
        }
      }
    }
  }

  lemma NothingRead()
    ensures Run(Normal, "") == Normal && Toggles(None, "") == None
  {
  }

  lemma OneRead(st: State, quote: Option<QuoteChar>, c: char)
    ensures Run(st, [c]) == Step(st, c) && Toggles(quote, [c]) == Toggle(quote, c)
  {
    assert [c][1..] == "";
  }

  lemma PairOpensNothing(s: string, i: nat)
    requires NoComments(s) && i < |s| - 1 && Toggles(None, s[..i]).None?
    ensures s[i..i + 2] != "--" && s[i..i + 2] != "/*"
  {
  }

  /** In a text without comments the separators are exactly the semicolons at which no quote is open. */
  lemma SeparatorsAreUnquoted(sql: string, k: nat)
    requires NoComments(sql) && k < |sql|
    ensures k in Separators(sql) <==> sql[k] == ';' && Toggles(None, sql[..k]).None?
  {
    hide Run, Toggles, NoComments, SeparatorsFrom;
    SeparatorsAreExact(Normal, sql, 0);
    StateShows(sql, k);
  }

  // ---- What stripping skips ----

  /** How far whitespace and comments reach from the start; a block comment counts only with its end. */
  function PreambleLength(s: string): (n: nat)
    ensures n <= |s|
    decreases |s|
  {
    if s == "" then 0
    else if IsWhitespace(s[0]) then 1 + PreambleLength(s[1..])
    else if "--" <= s || ("/*" <= s && Find(s[2..], "*/").Some?) then RegionLength(s) + PreambleLength(s[RegionLength(s)..])
    else 0
  }

  lemma CommentIsRegion(s: string)
    requires s != ""
    ensures CommentLength(s) ==
      if "--" <= s || ("/*" <= s && Find(s[2..], "*/").Some?) then Some(RegionLength(s)) else None
  {
    hide Find;
    OpenersAre(s);
  }

  lemma OpenersAre(s: string)
    ensures OpensLine(s) <==> "--" <= s
    ensures OpensBlock(s) <==> "/*" <= s
  {
  }

  lemma {:induction false} PreambleOfBlanks(s: string)
    ensures s[PreambleLength(s)..] == TrimStart(s)[PreambleLength(TrimStart(s))..]
    decreases |s|
  {
    if s != "" && IsWhitespace(s[0]) {
      PreambleOfBlanks(s[1..]);
      assert s[PreambleLength(s)..] == s[1..][PreambleLength(s[1..])..];
    } else {
      assert TrimStart(s) == s;
    }
  }

  /** Stripping removes exactly the whitespace and the comments at the start, so that none is left there. */
  lemma {:induction false} StripIsPreamble(sql: string)
    ensures StripLeadingComments(sql) == sql[PreambleLength(sql)..]
    ensures var r := StripLeadingComments(sql);
      r == "" || (!IsWhitespace(r[0]) && !("--" <= r) && ("/*" <= r ==> Find(r[2..], "*/").None?))
    decreases |sql|
  {
    hide Find, RegionLength;
    PreambleOfBlanks(sql);
    var s := TrimStart(sql);
    if s != "" {
      CommentIsRegion(s);
      hide CommentLength;
      var n := CommentLength(s);
      if n.Some? {
        StripIsPreamble(s[n.value..]);
        assert s[PreambleLength(s)..] == s[n.value..][PreambleLength(s[n.value..])..];
      }
    }
  }
}
