/** Quoted literals: which quote, if any, is open after some text. */
module Literals {
  import opened Text

  type QuoteChar = c: char | c == '\'' || c == '"' witness '"'

  /** Reading one character; a doubled quote is a close followed by an open. */
  function Toggle(quote: Option<QuoteChar>, c: char): Option<QuoteChar> {
    if quote.Some? then (if c == quote.value then None else quote)
    else if c == '\'' || c == '"' then Some(c) else None
  }

  function Toggles(quote: Option<QuoteChar>, s: string): Option<QuoteChar>
    decreases |s|
  {
    if s == "" then quote else Toggles(Toggle(quote, s[0]), s[1..])
  }

  lemma {:induction false} TogglesAppend(quote: Option<QuoteChar>, s: string, t: string)
    ensures Toggles(quote, s + t) == Toggles(Toggles(quote, s), t)
    decreases |s|
  {
    if s == "" {
      assert s + t == t;
    } else {
      assert (s + t)[1..] == s[1..] + t;
      TogglesAppend(Toggle(quote, s[0]), s[1..], t);
    }
  }

  /** A literal is open from its quote to the next one of the same kind, whatever stands between them. */
  lemma LiteralCloses(q: char, body: string)
    requires q in {'\'', '"'} && q !in body
    ensures Toggles(None, [q] + body) == Some(q)
    ensures Toggles(None, [q] + body + [q]) == None
  {
    assert ([q] + body)[1..] == body;
    InsideLiteral(q, body);
    TogglesAppend(None, [q] + body, [q]);
    assert [q][1..] == "";
  }

  lemma {:induction false} InsideLiteral(q: QuoteChar, body: string)
    requires q !in body
    ensures Toggles(Some(q), body) == Some(q)
    decreases |body|
  {
    if body != "" {
      assert body[0] in body;
      InsideLiteral(q, body[1..]);
    }
  }

  /** Text without quotes opens no literal. */
  lemma {:induction false} NothingOpens(s: string)
    requires '\'' !in s && '"' !in s
    ensures Toggles(None, s) == None
    decreases |s|
  {
    if s != "" {
      assert s[0] in s;
      NothingOpens(s[1..]);
    }
  }
}
