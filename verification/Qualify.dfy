/** The QUALIFY rewriting (`rewrite_qualify`, `find_keyword`). */
module Qualify {
  import opened Text

  /** Parenthesis depth, which may go below zero, and whether a single-quoted string is open. */
  datatype Scan = Scan(depth: int, inString: bool) {
    predicate TopLevel() {
      !inString && depth <= 0
    }

    function Deeper(): Scan {
      Scan(depth + 1, inString)
    }
  }

  function ScanStep(st: Scan, c: char): Scan {
    var inString := if c == '\'' then !st.inString else st.inString;
    if inString then Scan(st.depth, true)
    else if c == '(' then Scan(st.depth + 1, false)
    else if c == ')' then Scan(st.depth - 1, false)
    else Scan(st.depth, false)
  }

  function Run(st: Scan, s: string): Scan
    decreases |s|
  {
    if s == "" then st else Run(ScanStep(st, s[0]), s[1..])
  }

  const KEYWORD := "QUALIFY"

  /** `s` starts with the keyword, with no letter or digit behind it. */
  predicate KeywordHead(s: string) {
    && 7 <= |s|
    && (forall k :: 0 <= k < 7 ==> UpperChar(s[k]) == KEYWORD[k])
    && (7 == |s| || !IsAlphanumeric(s[7]))
  }

  /** Whether a letter or digit comes before what follows `s`, given what came before `s`. */
  predicate WordBefore(before: bool, s: string) {
    if s == "" then before else IsAlphanumeric(s[|s| - 1])
  }

  /** The positions, counted from `at`, of the keywords of `s` that stand outside strings at depth at most zero. */
  function Occurrences(st: Scan, before: bool, s: string, at: nat): seq<nat>
    decreases |s|
  {
    if s == "" then []
    else
      (if !before && st.TopLevel() && KeywordHead(s) then [at] else [])
      + Occurrences(ScanStep(st, s[0]), IsAlphanumeric(s[0]), s[1..], at + 1)
  }

  function TopLevelKeywords(sql: string): seq<nat> {
    Occurrences(Scan(0, false), false, sql, 0)
  }

  lemma {:induction false} OccurrencesAreAfter(st: Scan, before: bool, s: string, at: nat)
    ensures forall p :: p in Occurrences(st, before, s, at) ==> at <= p && p + 7 <= at + |s|
    decreases |s|
  {
    hide KeywordHead;
    if s != "" {
      OccurrencesAreAfter(ScanStep(st, s[0]), IsAlphanumeric(s[0]), s[1..], at + 1);
      KeywordIsLong(s);
    }
  }

  lemma KeywordIsLong(s: string)
    ensures KeywordHead(s) ==> 7 <= |s|
  {
  }

  /** The program's scan: the keyword is tested after the character at `i` has been read. */
  method FindKeyword(sql: string) returns (r: Option<nat>)
    ensures r.None? <==> TopLevelKeywords(sql) == []
    ensures r.Some? ==> r.value == TopLevelKeywords(sql)[0]
  {
    hide KeywordHead, IsAlphanumeric;
    var depth, inString := 0, false;
    assert sql[0..] == sql;
    for i := 0 to |sql|
      invariant Occurrences(Scan(depth, inString), i > 0 && IsAlphanumeric(sql[i - 1]), sql[i..], i) == TopLevelKeywords(sql)
    {
      assert sql[i..][1..] == sql[i + 1..];
      if sql[i] == '\'' {
        inString := !inString;
      }
      TestedCharacter(sql[i..]);
      if !inString {
        if sql[i] == '(' {
          depth := depth + 1;
        }
        if sql[i] == ')' {
          depth := depth - 1;
        }
        if depth <= 0 && KeywordHead(sql[i..]) && (i == 0 || !IsAlphanumeric(sql[i - 1])) {
          return Some(i);
        }
      }
    }
    r := None;
  }

  lemma TestedCharacter(s: string)
    ensures KeywordHead(s) ==> s != "" && s[0] != '\'' && s[0] != '(' && s[0] != ')'
  {
    assert KEYWORD[0] == 'Q';
  }

  /** The positions are exactly those of the keyword, as a word, outside strings and at depth at most zero. */
  lemma {:induction false} OccurrencesAreExact(st: Scan, before: bool, s: string, at: nat, k: nat)
    requires k < |s|
    ensures at + k in Occurrences(st, before, s, at) <==>
      !WordBefore(before, s[..k]) && Run(st, s[..k]).TopLevel() && KeywordHead(s[k..])
    decreases |s|
  {
    hide KeywordHead, IsAlphanumeric, ScanStep;
    OccurrencesAreAfter(ScanStep(st, s[0]), IsAlphanumeric(s[0]), s[1..], at + 1);
    if k == 0 {
      assert s[0..] == s && s[..0] == "";
    } else {
      assert s[..k] == [s[0]] + s[1..][..k - 1] && s[..k][1..] == s[1..][..k - 1];
      assert s[k..] == s[1..][k - 1..];
      OccurrencesAreExact(ScanStep(st, s[0]), IsAlphanumeric(s[0]), s[1..], at + 1, k - 1);
    }
  }

  const OPENING := "SELECT * FROM ("
  const MIDDLE := ") AS __q WHERE "

  function RewriteQualify(sql: string): string {
    var found := TopLevelKeywords(sql);
    OccurrencesAreAfter(Scan(0, false), false, sql, 0);
    if found == [] then sql
    else
      assert found[0] in found;
      OPENING + Trim(sql[..found[0]]) + MIDDLE + Trim(sql[found[0] + 7..])
  }

  // ---- Where a keyword counts ----

  /** An even number of single quotes stands in the text, so that it ends outside a string. */
  predicate OutsideStrings(s: string) {
    multiset(s)['\''] % 2 == 0
  }

  /** Parentheses opened outside strings less those closed. */
  function Depth(s: string): int {
    if s == "" then 0
    else
      var front, c := s[..|s| - 1], s[|s| - 1];
      Depth(front)
      + if !OutsideStrings(front) then 0 else if c == '(' then 1 else if c == ')' then -1 else 0
  }

  lemma {:induction false} RunIs(s: string)
    ensures Run(Scan(0, false), s) == Scan(Depth(s), !OutsideStrings(s))
  {
    if s != "" {
      var front, c := s[..|s| - 1], s[|s| - 1];
      RunIs(front);
      assert s == front + [c];
      RunAppend(Scan(0, false), front, [c]);
      assert Run(Run(Scan(0, false), front), [c]) == ScanStep(Run(Scan(0, false), front), c) by {
        assert [c][1..] == "";
      }
      assert multiset(s) == multiset(front) + multiset{c};
    }
  }

  lemma KeywordHeadIs(s: string)
    ensures KeywordHead(s) <==> |s| >= 7 && SameText(s[..7], "QUALIFY") && (|s| == 7 || !IsAlphanumeric(s[7]))
  {
    if |s| >= 7 {
      forall k | 0 <= k < 7
        ensures UpperChar(s[k]) == KEYWORD[k] <==> SameLetter(s[..7][k], "QUALIFY"[k])
      {
        CapitalIs(s[k], "QUALIFY"[k]);
      }
    }
  }

  lemma CapitalIs(c: char, capital: char)
    requires 'A' <= capital <= 'Z'
    ensures UpperChar(c) == capital <==> SameLetter(c, capital)
  {
  }

  /** The keywords found are the words QUALIFY, in any case, outside strings and at depth at most zero. */
  lemma KeywordsAreExact(sql: string, k: nat)
    requires k < |sql|
    ensures k in TopLevelKeywords(sql) <==>
      && k + 7 <= |sql| && SameText(sql[k..k + 7], "QUALIFY")
      && (k == 0 || !IsAlphanumeric(sql[k - 1])) && (k + 7 == |sql| || !IsAlphanumeric(sql[k + 7]))
      && OutsideStrings(sql[..k]) && Depth(sql[..k]) <= 0
  {
    hide Run, Occurrences, KeywordHead, IsAlphanumeric, SameText, OutsideStrings, Depth;
    OccurrencesAreExact(Scan(0, false), false, sql, 0, k);
    RunIs(sql[..k]);
    KeywordHeadIs(sql[k..]);
    assert k + 7 <= |sql| ==> sql[k..][..7] == sql[k..k + 7];
  }

  /** The text before the first keyword becomes a subquery, and the text behind it the condition on its rows. */
  lemma RewriteIs(sql: string)
    ensures TopLevelKeywords(sql) == [] ==> RewriteQualify(sql) == sql
    ensures TopLevelKeywords(sql) != [] ==>
      var p := TopLevelKeywords(sql)[0];
      p + 7 <= |sql| && RewriteQualify(sql) == "SELECT * FROM (" + Trim(sql[..p]) + ") AS __q WHERE " + Trim(sql[p + 7..])
  {
    hide Occurrences, Trim;
    OccurrencesAreAfter(Scan(0, false), false, sql, 0);
    if TopLevelKeywords(sql) != [] {
      assert TopLevelKeywords(sql)[0] in TopLevelKeywords(sql);
    }
  }

  // ---- Reading text piece by piece ----

  lemma {:induction false} RunAppend(st: Scan, a: string, b: string)
    ensures Run(st, a + b) == Run(Run(st, a), b)
    decreases |a|
  {
    if a == "" {
      assert a + b == b;
    } else {
      assert (a + b)[1..] == a[1..] + b;
      RunAppend(ScanStep(st, a[0]), a[1..], b);
    }
  }

  /** No word runs from `a` into `b`. */
  predicate Break(a: string, b: string) {
    || a == "" || b == ""
    || !IsAlphanumeric(a[|a| - 1]) || !IsAlphanumeric(b[0])
  }

  lemma KeywordStops(a: string, b: string)
    requires a != "" && Break(a, b)
    ensures KeywordHead(a + b) <==> KeywordHead(a)
  {
    var s := a + b;
    assert b == "" ==> s == a;
    if b != "" && KeywordHead(s) && |a| < 7 {
      KeywordIsWord(s, |a| - 1);
      KeywordIsWord(s, |a|);
    } else if |a| == 7 && (KeywordHead(a) || KeywordHead(s)) {
      KeywordIsWord(if KeywordHead(a) then a else s, 6);
    }
  }

  lemma KeywordIsWord(s: string, k: nat)
    requires KeywordHead(s) && k < 7
    ensures IsAlpha(s[k]) && (k > 0 ==> UpperChar(s[k]) != 'Q')
    ensures ScanStep(Scan(0, false), s[k]) == Scan(0, false)
  {
    assert UpperChar(s[k]) == KEYWORD[k];
  }

  lemma {:induction false} OccurrencesAppend(st: Scan, before: bool, a: string, b: string, at: nat)
    requires Break(a, b)
    ensures Occurrences(st, before, a + b, at) ==
      Occurrences(st, before, a, at) + Occurrences(Run(st, a), WordBefore(before, a), b, at + |a|)
    decreases |a|
  {
    hide KeywordHead, ScanStep, IsAlphanumeric;
    if a == "" {
      assert a + b == b;
    } else {
      assert (a + b)[0] == a[0] && (a + b)[1..] == a[1..] + b;
      KeywordStops(a, b);
      OccurrencesAppend(ScanStep(st, a[0]), IsAlphanumeric(a[0]), a[1..], b, at + 1);
    }
  }

  function Shift(ps: seq<nat>, offset: int): seq<int> {
    seq(|ps|, k requires 0 <= k < |ps| => ps[k] + offset)
  }

  lemma {:induction false} OccurrencesShift(st: Scan, before: bool, s: string, at: nat, to: nat)
    ensures Occurrences(st, before, s, to) == Shift(Occurrences(st, before, s, at), to - at)
    decreases |s|
  {
    hide KeywordHead, ScanStep, IsAlphanumeric;
    if s != "" {
      OccurrencesShift(ScanStep(st, s[0]), IsAlphanumeric(s[0]), s[1..], at + 1, to + 1);
    }
  }

  /** A word that does not start here is not ended by what came before. */
  lemma BeforeIsIrrelevant(st: Scan, s: string, at: nat)
    requires s == "" || !IsAlphanumeric(s[0])
    ensures Occurrences(st, true, s, at) == Occurrences(st, false, s, at)
  {
    if KeywordHead(s) {
      KeywordIsWord(s, 0);
      assert false;
    }
  }

  lemma KeywordStartsWithQ(s: string)
    ensures KeywordHead(s) ==> s != "" && UpperChar(s[0]) == 'Q'
  {
    assert KEYWORD[0] == 'Q';
  }

  /** Inside one more parenthesis there is no new top-level keyword. */
  lemma {:induction false} DeeperHasNoMore(st: Scan, before: bool, s: string, at: nat)
    requires Occurrences(st, before, s, at) == []
    ensures Occurrences(st.Deeper(), before, s, at) == []
    ensures Run(st.Deeper(), s) == Run(st, s).Deeper()
    decreases |s|
  {
    hide KeywordHead, IsAlphanumeric;
    if s != "" {
      assert ScanStep(st.Deeper(), s[0]) == ScanStep(st, s[0]).Deeper();
      DeeperHasNoMore(ScanStep(st, s[0]), IsAlphanumeric(s[0]), s[1..], at + 1);
    }
  }

  /** Text without quotes, parentheses or the letter Q, read from outside strings. */
  predicate Plain(s: string) {
    forall k :: 0 <= k < |s| ==> s[k] != '\'' && s[k] != '(' && s[k] != ')' && UpperChar(s[k]) != 'Q'
  }

  lemma {:induction false} PlainHasNone(st: Scan, before: bool, s: string, at: nat)
    requires Plain(s) && !st.inString
    ensures Occurrences(st, before, s, at) == [] && Run(st, s) == st
    decreases |s|
  {
    if s != "" {
      PlainHasNone(st, IsAlphanumeric(s[0]), s[1..], at + 1);
      KeywordStartsWithQ(s);
    }
  }

  lemma {:induction false} BlankHasNone(st: Scan, before: bool, s: string, at: nat)
    requires Blank(s)
    ensures Occurrences(st, before, s, at) == [] && Run(st, s) == st
    decreases |s|
  {
    if s != "" {
      assert !IsAlphanumeric(s[0]);
      assert ScanStep(st, s[0]) == st;
      assert Blank(s[1..]);
      BlankHasNone(st, false, s[1..], at + 1);
      KeywordStartsWithQ(s);
    }
  }

  // ---- One occurrence is removed ----

  /** What the first top-level keyword of a text tells about the text before it. */
  lemma FirstKeyword(sql: string) returns (p: nat, st: Scan)
    requires TopLevelKeywords(sql) != []
    ensures p == TopLevelKeywords(sql)[0] && p + 7 <= |sql|
    ensures KeywordHead(sql[p..]) && !WordBefore(false, sql[..p])
    ensures st == Run(Scan(0, false), sql[..p]) && st.TopLevel()
    ensures Occurrences(Scan(0, false), false, sql[..p], 0) == []
    ensures TopLevelKeywords(sql) == Occurrences(st, false, sql[p..], p)
  {
    hide KeywordHead, IsAlphanumeric, Occurrences;
    p := TopLevelKeywords(sql)[0];
    assert p in TopLevelKeywords(sql);
    OccurrencesAreAfter(Scan(0, false), false, sql, 0);
    OccurrencesAreExact(Scan(0, false), false, sql, 0, p);
    st := Run(Scan(0, false), sql[..p]);
    assert sql == sql[..p] + sql[p..];
    OccurrencesAppend(Scan(0, false), false, sql[..p], sql[p..], 0);
    OccurrencesAreAfter(Scan(0, false), false, sql[..p], 0);
    var front := Occurrences(Scan(0, false), false, sql[..p], 0);
    FirstIsBehind(front, Occurrences(st, false, sql[p..], p));
  }

  lemma FirstIsBehind(a: seq<nat>, b: seq<nat>)
    requires a + b != [] && (a + b)[0] !in a
    ensures a == [] && a + b == b
  {
  }

  /** The keyword itself is one occurrence, and what is behind it is read from the same state. */
  lemma PastKeyword(st: Scan, s: string, at: nat)
    requires KeywordHead(s) && st.TopLevel()
    ensures Occurrences(st, false, s, at) == [at] + Occurrences(st, false, s[7..], at + 7)
  {
    var word, rest := s[..7], s[7..];
    assert s == word + rest && s[1..] == word[1..] + rest;
    forall k | 0 <= k < 7
      ensures IsAlpha(s[k]) && (k > 0 ==> UpperChar(s[k]) != 'Q')
    {
      KeywordIsWord(s, k);
    }
    hide KeywordHead, Occurrences;
    assert Plain(word[1..]);
    PlainHasNone(st, true, word[1..], at + 1);
    OccurrencesAppend(st, true, word[1..], rest, at + 1);
    AtKeyword(st, s, at);
    BeforeIsIrrelevant(st, rest, at + 7);
  }

  lemma AtKeyword(st: Scan, s: string, at: nat)
    requires KeywordHead(s) && st.TopLevel()
    ensures Occurrences(st, false, s, at) == [at] + Occurrences(st, true, s[1..], at + 1)
    ensures 7 < |s| ==> !IsAlphanumeric(s[7])
  {
    KeywordIsWord(s, 0);
    KeywordStartsWithQ(s);
  }

  lemma TrimStartOccurrences(st: Scan, s: string, at: nat)
    ensures Occurrences(st, false, s, at) == Occurrences(st, false, TrimStart(s), at + |s| - |TrimStart(s)|)
    ensures Run(st, s) == Run(st, TrimStart(s))
  {
    hide Occurrences, Run, TrimStart, Blank;
    var blanks := s[..|s| - |TrimStart(s)|];
    TrimStartRemovesBlanks(s);
    BlankHasNone(st, false, blanks, at);
    BlankBreaks(blanks, TrimStart(s));
    OccurrencesAppend(st, false, blanks, TrimStart(s), at);
    RunAppend(st, blanks, TrimStart(s));
  }

  lemma TrimEndOccurrences(st: Scan, s: string, at: nat)
    ensures Occurrences(st, false, s, at) == Occurrences(st, false, TrimEnd(s), at)
    ensures Run(st, s) == Run(st, TrimEnd(s))
  {
    hide Occurrences, Run, TrimEnd;
    var t, tail := TrimEnd(s), s[|TrimEnd(s)|..];
    TrimEndRemovesBlanks(s);
    assert s == t + tail && Blank(tail);
    BlankBreaks(t, tail);
    OccurrencesAppend(st, false, t, tail, at);
    RunAppend(st, t, tail);
    BlankHasNone(Run(st, t), WordBefore(false, t), tail, at + |t|);
  }

  /** Trimming moves the occurrences by the blanks removed in front, and the final state not at all. */
  lemma TrimmedOccurrences(st: Scan, s: string, at: nat) returns (lead: nat)
    ensures Occurrences(st, false, s, at) == Occurrences(st, false, Trim(s), at + lead)
    ensures Run(st, s) == Run(st, Trim(s))
  {
    hide Occurrences, Run, TrimStart, TrimEnd;
    lead := |s| - |TrimStart(s)|;
    TrimStartOccurrences(st, s, at);
    TrimEndOccurrences(st, TrimStart(s), at + lead);
  }

  lemma BlankBreaks(a: string, b: string)
    requires Blank(a) || Blank(b)
    ensures Break(a, b) && (Blank(a) ==> !WordBefore(false, a))
  {
  }

  /** What the output's opening, inner query and middle contribute: nothing, and no change of depth. */
  lemma OutputFront(inner: string, rest: string)
    requires Occurrences(Scan(0, false), false, inner, 0) == [] && !Run(Scan(0, false), inner).inString
    ensures TopLevelKeywords(OPENING + inner + MIDDLE + rest) ==
      Occurrences(Run(Scan(0, false), inner), false, rest, |OPENING| + |inner| + |MIDDLE|)
  {
    hide Occurrences, Run, KeywordHead;
    var init := Scan(0, false);
    var st := Run(init, inner);
    var back := MIDDLE + rest;
    assert OPENING + inner + MIDDLE + rest == OPENING + (inner + back);
    OpeningRead();
    OccurrencesAppend(init, false, OPENING, inner + back, 0);
    DeeperHasNoMore(init, false, inner, 0);
    OccurrencesShift(init.Deeper(), false, inner, 0, |OPENING|);
    OccurrencesAppend(init.Deeper(), false, inner, back, |OPENING|);
    MiddleRead(st, WordBefore(false, inner), |OPENING| + |inner|);
    OccurrencesAppend(st.Deeper(), WordBefore(false, inner), MIDDLE, rest, |OPENING| + |inner|);
  }

  lemma OpeningRead()
    ensures Occurrences(Scan(0, false), false, OPENING, 0) == [] && Run(Scan(0, false), OPENING) == Scan(1, false)
    ensures !IsAlphanumeric(OPENING[14]) && |OPENING| == 15
  {
    hide Occurrences, Run;
    var text, open := OPENING[..14], "(";
    assert OPENING == text + open;
    PlainHasNone(Scan(0, false), false, text, 0);
    OccurrencesAppend(Scan(0, false), false, text, open, 0);
    RunAppend(Scan(0, false), text, open);
    ParenthesisRead(WordBefore(false, text), 14);
  }

  lemma ParenthesisRead(before: bool, at: nat)
    ensures Occurrences(Scan(0, false), before, "(", at) == [] && Run(Scan(0, false), "(") == Scan(1, false)
  {
    assert "("[1..] == "";
  }

  lemma MiddleRead(st: Scan, before: bool, at: nat)
    requires !st.inString
    ensures Occurrences(st.Deeper(), before, MIDDLE, at) == [] && Run(st.Deeper(), MIDDLE) == st
    ensures |MIDDLE| == 15 && !IsAlphanumeric(MIDDLE[14]) && !IsAlphanumeric(MIDDLE[0])
  {
    hide Occurrences, Run;
    var close, q, text := ") AS __", "q", " WHERE ";
    assert MIDDLE == close + (q + text);
    CloseRead(st, before, at);
    OccurrencesAppend(st.Deeper(), before, close, q + text, at);
    RunAppend(st.Deeper(), close, q + text);
    assert q + text == "q WHERE ";
    LetterRead(st, at + 7);
  }

  lemma CloseRead(st: Scan, before: bool, at: nat)
    requires !st.inString
    ensures Occurrences(st.Deeper(), before, ") AS __", at) == [] && Run(st.Deeper(), ") AS __") == st
  {
    var s := ") AS __";
    assert s[1..] == " AS __";
    KeywordStartsWithQ(s);
    PlainHasNone(st, false, s[1..], at + 1);
  }

  lemma LetterRead(st: Scan, at: nat)
    requires !st.inString
    ensures Occurrences(st, false, "q WHERE ", at) == [] && Run(st, "q WHERE ") == st
  {
    var s := "q WHERE ";
    assert s[1..] == " WHERE ";
    NotKeyword(s);
    hide KeywordHead;
    PlainHasNone(st, true, s[1..], at + 1);
  }

  lemma NotKeyword(s: string)
    requires |s| > 1 && s[1] == ' '
    ensures !KeywordHead(s)
  {
    if KeywordHead(s) {
      KeywordIsWord(s, 1);
      assert false;
    }
  }

  /**
   Rewriting a text that has top-level keywords removes the first one and moves the others by one
   fixed distance: no other is lost and none is added, whatever parentheses stand around them.
   */
  lemma RewriteRemovesOne(sql: string) returns (distance: int)
    requires TopLevelKeywords(sql) != []
    ensures TopLevelKeywords(RewriteQualify(sql)) == Shift(TopLevelKeywords(sql)[1..], distance)
    ensures |TopLevelKeywords(RewriteQualify(sql))| == |TopLevelKeywords(sql)| - 1
  {
    hide Occurrences, Run, KeywordHead, Trim;
    var init := Scan(0, false);
    var p, st := FirstKeyword(sql);
    var inner, rest := Trim(sql[..p]), Trim(sql[p + 7..]);
    var lead := TrimmedOccurrences(init, sql[..p], 0);
    OccurrencesShift(init, false, inner, lead, 0);
    OutputFront(inner, rest);
    PastKeyword(st, sql[p..], p);
    assert sql[p..][7..] == sql[p + 7..];
    var skip := TrimmedOccurrences(st, sql[p + 7..], p + 7);
    var to := |OPENING| + |inner| + |MIDDLE|;
    OccurrencesShift(st, false, rest, p + 7 + skip, to);
    distance := to - (p + 7 + skip);
  }

  lemma RewriteShrinks(sql: string)
    requires TopLevelKeywords(sql) != []
    ensures |TopLevelKeywords(RewriteQualify(sql))| < |TopLevelKeywords(sql)|
  {
    var distance := RewriteRemovesOne(sql);
  }

  /** So rewriting again and again ends, with no top-level keyword left. */
  function RewriteFully(sql: string): (r: string)
    ensures TopLevelKeywords(r) == []
    decreases |TopLevelKeywords(sql)|
  {
    if TopLevelKeywords(sql) == [] then sql
    else
      RewriteShrinks(sql);
      RewriteFully(RewriteQualify(sql))
  }
}
