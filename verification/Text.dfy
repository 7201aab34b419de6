/** Character classes and the handful of string operations the SQL front end relies on. */
module Text {

  datatype Option<+T> = None | Some(value: T)

  datatype Result<+T, +E> = Ok(value: T) | Err(error: E)

  /** The Unicode White_Space property, which is what trimming and token splitting use. */
  predicate IsWhitespace(c: char) {
    var n := c as int;
    || 0x09 <= n <= 0x0D || n == 0x20 || n == 0x85 || n == 0xA0 || n == 0x1680
    || 0x2000 <= n <= 0x200A || n == 0x2028 || n == 0x2029 || n == 0x202F || n == 0x205F || n == 0x3000
  }

  /** The code points with that property, one by one. */
  lemma WhitespaceIs(c: char)
    ensures IsWhitespace(c) <==>
      c as int in {9, 10, 11, 12, 13, 32, 133, 160, 5760, 8192, 8193, 8194, 8195, 8196, 8197, 8198, 8199, 8200, 8201, 8202,
                   8232, 8233, 8239, 8287, 12288}
  {
  }

  predicate IsDigit(c: char) {
    '0' <= c <= '9'
  }

  predicate IsAlpha(c: char) {
    'a' <= c <= 'z' || 'A' <= c <= 'Z'
  }

  /** An ASCII letter or digit. */
  predicate IsAlphanumeric(c: char) {
    IsAlpha(c) || IsDigit(c)
  }

  predicate IsIdentChar(c: char) {
    IsAlphanumeric(c) || c == '_'
  }

  function TrimStart(s: string): (r: string)
    ensures |r| <= |s|
    ensures r != "" ==> !IsWhitespace(r[0])
  {
    if s != "" && IsWhitespace(s[0]) then TrimStart(s[1..]) else s
  }

  function TrimEnd(s: string): (r: string)
    ensures r <= s
    ensures r != "" ==> !IsWhitespace(r[|r| - 1])
  {
    if s != "" && IsWhitespace(s[|s| - 1]) then TrimEnd(s[..|s| - 1]) else s
  }

  lemma {:induction false} TrimEndRemovesBlanks(s: string)
    ensures forall i :: |TrimEnd(s)| <= i < |s| ==> IsWhitespace(s[i])
  {
    if s != "" && IsWhitespace(s[|s| - 1]) {
      TrimEndRemovesBlanks(s[..|s| - 1]);
    }
  }

  function Trim(s: string): (r: string)
    ensures r != "" ==> !IsWhitespace(r[0]) && !IsWhitespace(r[|r| - 1])
  {
    TrimEnd(TrimStart(s))
  }

  lemma TrimIsIdempotent(s: string)
    ensures Trim(Trim(s)) == Trim(s)
  {
  }

  predicate Blank(s: string) {
    forall i :: 0 <= i < |s| ==> IsWhitespace(s[i])
  }

  lemma {:induction false} TrimStartRemovesBlanks(s: string)
    ensures s == s[..|s| - |TrimStart(s)|] + TrimStart(s)
    ensures Blank(s[..|s| - |TrimStart(s)|])
  {
    if s != "" && IsWhitespace(s[0]) {
      TrimStartRemovesBlanks(s[1..]);
      var k := |s| - |TrimStart(s)|;
      assert s[..k] == [s[0]] + s[1..][..k - 1];
    }
  }

  lemma {:induction false} TrimStartOf(blanks: string, core: string)
    requires Blank(blanks) && (core == "" || !IsWhitespace(core[0]))
    ensures TrimStart(blanks + core) == core
  {
    if blanks == "" {
      assert blanks + core == core;
    } else {
      assert (blanks + core)[1..] == blanks[1..] + core;
      TrimStartOf(blanks[1..], core);
    }
  }

  lemma {:induction false} TrimEndOf(core: string, blanks: string)
    requires Blank(blanks) && (core == "" || !IsWhitespace(core[|core| - 1]))
    ensures TrimEnd(core + blanks) == core
  {
    if blanks == "" {
      assert core + blanks == core;
    } else {
      var n := |blanks| - 1;
      assert (core + blanks)[..|core + blanks| - 1] == core + blanks[..n] && (core + blanks)[|core + blanks| - 1] == blanks[n];
      TrimEndOf(core, blanks[..n]);
    }
  }

  lemma TrimBetween(lead: string, core: string, tail: string)
    requires Blank(lead) && Blank(tail) && core != "" && !IsWhitespace(core[0]) && !IsWhitespace(core[|core| - 1])
    ensures Trim(lead + core + tail) == core
  {
    hide IsWhitespace, TrimStart, TrimEnd;
    assert lead + core + tail == lead + (core + tail) && (core + tail)[0] == core[0];
    TrimStartOf(lead, core + tail);
    TrimEndOf(core, tail);
  }

  /** What is left of `s` when every whitespace character is removed. */
  function NonBlank(s: string): string {
    if s == "" then "" else (if IsWhitespace(s[0]) then "" else [s[0]]) + NonBlank(s[1..])
  }

  lemma NonBlankAppend(s: string, t: string)
    ensures NonBlank(s + t) == NonBlank(s) + NonBlank(t)
  {
    if s == "" {
      assert s + t == t;
    } else {
      assert (s + t)[1..] == s[1..] + t;
      NonBlankAppend(s[1..], t);
    }
  }

  lemma {:induction false} TrimEndKeepsNonBlank(s: string)
    ensures NonBlank(TrimEnd(s)) == NonBlank(s)
  {
    if s != "" && IsWhitespace(s[|s| - 1]) {
      var t := s[..|s| - 1];
      assert s == t + [s[|s| - 1]];
      NonBlankAppend(t, [s[|s| - 1]]);
      TrimEndKeepsNonBlank(t);
    }
  }

  lemma {:induction false} TrimKeepsNonBlank(s: string)
    ensures NonBlank(Trim(s)) == NonBlank(s)
  {
    if s != "" && IsWhitespace(s[0]) {
      TrimKeepsNonBlank(s[1..]);
    } else {
      TrimEndKeepsNonBlank(s);
    }
  }

  function UpperChar(c: char): char {
    if 'a' <= c <= 'z' then (c as int - 32) as char else c
  }

  function LowerChar(c: char): char {
    if 'A' <= c <= 'Z' then (c as int + 32) as char else c
  }

  /** ASCII upper-casing; it never changes the length. */
  function Upper(s: string): (r: string)
    ensures |r| == |s|
    ensures forall i :: 0 <= i < |s| ==> r[i] == UpperChar(s[i])
  {
    seq(|s|, i requires 0 <= i < |s| => UpperChar(s[i]))
  }

  function Lower(s: string): (r: string)
    ensures |r| == |s|
    ensures forall i :: 0 <= i < |s| ==> r[i] == LowerChar(s[i])
  {
    seq(|s|, i requires 0 <= i < |s| => LowerChar(s[i]))
  }

  predicate EqualsIgnoreCase(s: string, t: string) {
    Upper(s) == Upper(t)
  }

  /** The same character, or the upper and lower case of one ASCII letter. */
  predicate SameLetter(a: char, b: char) {
    a == b || ('a' <= a <= 'z' && a as int - b as int == 32) || ('a' <= b <= 'z' && b as int - a as int == 32)
  }

  /** The same text, character by character, up to the case of ASCII letters. */
  predicate SameText(s: string, t: string) {
    |s| == |t| && forall i :: 0 <= i < |s| ==> SameLetter(s[i], t[i])
  }

  lemma EqualsIgnoreCaseIff(s: string, t: string)
    ensures EqualsIgnoreCase(s, t) <==> SameText(s, t)
    ensures SameText(s, Lower(t)) <==> SameText(s, t)
  {
    forall i | 0 <= i < |s| && |s| == |t|
      ensures Upper(s)[i] == Upper(t)[i] <==> SameLetter(s[i], t[i])
      ensures SameLetter(s[i], Lower(t)[i]) <==> SameLetter(s[i], t[i])
    {
    }
  }

  /** Lexicographic order, which is how the database orders text. */
  predicate Less(a: string, b: string) {
    if b == "" then false else if a == "" then true
    else a[0] < b[0] || (a[0] == b[0] && Less(a[1..], b[1..]))
  }

  /** The first difference decides, and a text comes before those it begins. */
  lemma {:induction false} LessIs(common: string, a: string, b: string)
    requires a == "" || b == "" || a[0] != b[0]
    ensures Less(common + a, common + b) <==> b != "" && (a == "" || a[0] < b[0])
  {
    if common == "" {
      assert common + a == a && common + b == b;
    } else {
      assert (common + a)[1..] == common[1..] + a && (common + b)[1..] == common[1..] + b;
      LessIs(common[1..], a, b);
    }
  }

  lemma {:induction false} LessIsOrder(a: string, b: string, c: string)
    ensures !Less(a, a)
    ensures Less(a, b) && Less(b, c) ==> Less(a, c)
    ensures a != b ==> Less(a, b) || Less(b, a)
    decreases |a|
  {
    if a != "" {
      LessIsOrder(a[1..], if b == "" then "" else b[1..], if c == "" then "" else c[1..]);
      if b != "" && a[0] == b[0] && a[1..] == b[1..] {
        assert a == [a[0]] + a[1..] && b == [b[0]] + b[1..];
      }
    }
  }

  predicate Ascending(l: seq<string>) {
    forall i, j :: 0 <= i < j < |l| ==> Less(l[i], l[j])
  }
}
