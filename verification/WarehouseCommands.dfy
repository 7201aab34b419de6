/** CREATE WAREHOUSE: the option parser, its printer in the agent tool, and the catalog it changes. */
module WarehouseCommands {
  import opened Text
  import opened SqlCommands
  import opened SqlTools

  const I64_MIN: int := -0x8000_0000_0000_0000
  const I64_MAX: int := 0x7FFF_FFFF_FFFF_FFFF

  predicate IsI64(n: int) {
    I64_MIN <= n <= I64_MAX
  }

  datatype Warehouse = Warehouse(name: string, size: string, minNodes: int, maxNodes: int, autoSuspend: int)

  // ---- Integers ----

  function Digit(d: nat): char
    requires d < 10
  {
    ('0' as int + d) as char
  }

  function PrintNat(n: nat): string {
    if n < 10 then [Digit(n)] else PrintNat(n / 10) + [Digit(n % 10)]
  }

  function PrintInt(n: int): string {
    if n < 0 then "-" + PrintNat(-n) else PrintNat(n)
  }

  predicate AllDigits(s: string) {
    forall i :: 0 <= i < |s| ==> IsDigit(s[i])
  }

  function DigitsValue(s: string): nat
    requires AllDigits(s)
  {
    if s == "" then 0 else DigitsValue(s[..|s| - 1]) * 10 + (s[|s| - 1] as int - '0' as int)
  }

  /** Reading a 64-bit integer: an optional sign, at least one digit, and no overflow. */
  function ParseI64(s: string): Option<int> {
    var signed := s != "" && (s[0] == '-' || s[0] == '+');
    var digits := if signed then s[1..] else s;
    if digits == "" || !AllDigits(digits) then None
    else
      var value := if signed && s[0] == '-' then 0 - DigitsValue(digits) else DigitsValue(digits);
      if IsI64(value) then Some(value) else None
  }

  lemma {:induction false} PrintedNat(n: nat)
    ensures PrintNat(n) != "" && AllDigits(PrintNat(n)) && DigitsValue(PrintNat(n)) == n
  {
    if n >= 10 {
      PrintedNat(n / 10);
      assert PrintNat(n)[..|PrintNat(n)| - 1] == PrintNat(n / 10);
    } else {
      assert PrintNat(n)[..0] == "";
    }
  }

  lemma IntegerRoundTrip(n: int)
    ensures ParseI64(PrintInt(n)) == if IsI64(n) then Some(n) else None
  {
    PrintedNat(if n < 0 then -n else n);
    if n < 0 {
      assert PrintInt(n)[1..] == PrintNat(-n);
    } else {
      assert IsDigit(PrintInt(n)[0]);
    }
  }

  // ---- Tokens ----

  predicate IsDelimiter(c: char) {
    IsWhitespace(c) || c == '=' || c == ',' || c == ';'
  }

  function StripLeft(s: string, c: char): string {
    if s != "" && s[0] == c then StripLeft(s[1..], c) else s
  }

  function StripRight(s: string, c: char): string {
    if s != "" && s[|s| - 1] == c then StripRight(s[..|s| - 1], c) else s
  }

  function StripBoth(s: string, c: char): string {
    StripRight(StripLeft(s, c), c)
  }

  function Unquote(token: string): string {
    StripBoth(StripBoth(token, '\''), '"')
  }

  function RunLength(s: string): (n: nat)
    ensures n <= |s|
    ensures s != "" && !IsDelimiter(s[0]) ==> n > 0
  {
    if s == "" || IsDelimiter(s[0]) then 0 else 1 + RunLength(s[1..])
  }

  /** The non-empty runs between delimiters, without the quotes around them. */
  function Tokens(s: string): seq<string>
    decreases |s|
  {
    if s == "" then []
    else if IsDelimiter(s[0]) then Tokens(s[1..])
    else [Unquote(s[..RunLength(s)])] + Tokens(s[RunLength(s)..])
  }

  // ---- The parser ----

  function NormalizeSize(size: string): Result<string, CommandError> {
    var normalized := Lower(size);
    if normalized in ["xsmall", "small", "medium", "large", "xlarge"] then Ok(normalized) else Err(BadSize(size))
  }

  /** A size is accepted exactly when it is one of the five, in any case, and becomes that one. */
  lemma SizeIs(size: string)
    ensures NormalizeSize(size).Ok? ==>
      SameText(size, NormalizeSize(size).value) && NormalizeSize(size).value in ["xsmall", "small", "medium", "large", "xlarge"]
    ensures NormalizeSize(size).Err? ==> NormalizeSize(size) == Err(BadSize(size))
    ensures forall known :: known in ["xsmall", "small", "medium", "large", "xlarge"] && SameText(size, known) ==>
      NormalizeSize(size) == Ok(known)
  {
    hide SameText, Lower;
    LoweredIsSame(size);
    forall known | known in ["xsmall", "small", "medium", "large", "xlarge"] && SameText(size, known)
      ensures Lower(size) == known
    {
      SizesAreLower(known);
      LowerOfSame(size, known);
    }
  }

  lemma LoweredIsSame(s: string)
    ensures SameText(s, Lower(s))
  {
  }

  lemma SizesAreLower(known: string)
    requires known in ["xsmall", "small", "medium", "large", "xlarge"]
    ensures forall i :: 0 <= i < |known| ==> 'a' <= known[i] <= 'z'
  {
  }

  lemma LowerOfSame(s: string, t: string)
    requires SameText(s, t) && forall i :: 0 <= i < |t| ==> 'a' <= t[i] <= 'z'
    ensures Lower(s) == t
  {
    assert forall i :: 0 <= i < |t| ==> Lower(s)[i] == t[i];
  }

  function ParseInteger(text: string): Result<int, CommandError> {
    var n := ParseI64(text);
    if n.Some? then Ok(n.value) else Err(BadInteger(text))
  }

  /** Read the options from token `i` on, over the values read so far. */
  function ParseOptions(tokens: seq<string>, i: nat, w: Warehouse): Result<Warehouse, CommandError>
    decreases |tokens| - i
  {
    if i >= |tokens| then Ok(w)
    else
      var option := Upper(tokens[i]);
      if option == "WITH" then ParseOptions(tokens, i + 1, w)
      else if option == "SIZE" then
        if i + 1 >= |tokens| then Err(MissingValue(option))
        else
          var size := NormalizeSize(tokens[i + 1]);
          if size.Err? then Err(size.error) else ParseOptions(tokens, i + 2, w.(size := size.value))
      else if option in ["MIN_NODES", "MAX_NODES", "AUTO_SUSPEND", "AUTO_SUSPEND_SECONDS"] then
        if i + 1 >= |tokens| then Err(MissingValue(option))
        else
          var n := ParseInteger(tokens[i + 1]);
          if n.Err? then Err(n.error)
          else if option == "MIN_NODES" then ParseOptions(tokens, i + 2, w.(minNodes := n.value))
          else if option == "MAX_NODES" then ParseOptions(tokens, i + 2, w.(maxNodes := n.value))
          else ParseOptions(tokens, i + 2, w.(autoSuspend := n.value))
      else Err(UnknownOption(option))
  }

  function CheckRanges(w: Warehouse): Result<Warehouse, CommandError> {
    if w.minNodes < 0 then Err(NegativeMin)
    else if w.maxNodes < 0 then Err(NegativeMax)
    else if w.maxNodes < w.minNodes then Err(MaxBelowMin)
    else if w.autoSuspend < 0 then Err(NegativeSuspend)
    else Ok(w)
  }

  const KEYWORDS := "CREATE WAREHOUSE"

  function Contains(s: string, pat: string): bool {
    Find(s, pat).Some?
  }

  function Arguments(sql: string): string
    requires |KEYWORDS| <= |sql|
  {
    Trim(StripRight(Trim(sql[|KEYWORDS|..]), ';'))
  }

  function ParseCreateWarehouse(sql: string): Result<Warehouse, CommandError>
    requires |KEYWORDS| <= |sql|
  {
    var arguments := Arguments(sql);
    var name := arguments[..TokenLength(arguments)];
    if name == "" then Err(MissingName)
    else if !IsSafeIdentifier(name) then Err(BadIdentifier(name))
    else
      var defaults := Warehouse(name, "small", 0, 4, 300);
      var w := if Contains(Upper(sql), "WITH") then ParseOptions(Tokens(arguments), 1, defaults) else Ok(defaults);
      if w.Err? then w else CheckRanges(w.value)
  }

  // ---- The printer ----

  datatype ToolOptions = ToolOptions(
    size: Option<string>, minNodes: Option<int>, maxNodes: Option<int>, autoSuspend: Option<int>)
  {
    /** JSON integers the tool accepts fit in 64 bits. */
    predicate InRange() {
      && (minNodes.Some? ==> IsI64(minNodes.value))
      && (maxNodes.Some? ==> IsI64(maxNodes.value))
      && (autoSuspend.Some? ==> IsI64(autoSuspend.value))
    }
  }

  function Piece(key: string, value: string): string {
    " " + key + " = " + value
  }

  function IntPiece(key: string, n: Option<int>): string {
    if n.Some? then Piece(key, PrintInt(n.value)) else ""
  }

  function SizePiece(size: Option<string>): string {
    if size.Some? then Piece("SIZE", "'" + size.value + "'") else ""
  }

  function IntPieces(options: seq<(string, Option<int>)>, k: nat): string
    requires k <= |options|
  {
    if k == 0 then "" else IntPieces(options, k - 1) + IntPiece(options[k - 1].0, options[k - 1].1)
  }

  function IntOptions(o: ToolOptions): seq<(string, Option<int>)> {
    [("MIN_NODES", o.minNodes), ("MAX_NODES", o.maxNodes), ("AUTO_SUSPEND", o.autoSuspend)]
  }

  function Clause(size: Option<string>, o: ToolOptions): string {
    SizePiece(size) + IntPieces(IntOptions(o), 3)
  }

  function PrintedSize(o: ToolOptions): Result<Option<string>, CommandError> {
    if o.size.None? then Ok(None)
    else
      var size := NormalizeSize(o.size.value);
      if size.Ok? then Ok(Some(size.value)) else Err(size.error)
  }

  function WarehouseText(name: string, clause: string): string {
    if clause == "" then KEYWORDS + " " + name else KEYWORDS + " " + name + " WITH" + clause
  }

  function PrintCreateWarehouse(name: string, o: ToolOptions): Result<string, CommandError> {
    var size := PrintedSize(o);
    if size.Err? then Err(size.error) else Ok(WarehouseText(name, Clause(size.value, o)))
  }

  method CreateWarehouseText(name: string, o: ToolOptions) returns (r: Result<string, CommandError>)
    ensures r == PrintCreateWarehouse(name, o)
  {
    hide NormalizeSize, PrintInt, WarehouseText, Piece;
    var clause := "";
    ghost var size: Option<string> := None;
    if o.size.Some? {
      var normalized := NormalizeSize(o.size.value);
      if normalized.Err? {
        return Err(normalized.error);
      }
      size := Some(normalized.value);
      clause := clause + Piece("SIZE", "'" + normalized.value + "'");
    }
    assert clause == SizePiece(size) + "";
    var options := IntOptions(o);
    for k := 0 to |options|
      invariant clause == SizePiece(size) + IntPieces(options, k)
    {
      if options[k].1.Some? {
        clause := clause + Piece(options[k].0, PrintInt(options[k].1.value));
      }
    }
    r := Ok(WarehouseText(name, clause));
  }

  // ---- The handler ----

  /** The catalog's warehouse table, keyed by its unique name. */
  class WarehouseTable {
    var rows: map<string, Warehouse>

    constructor ()
      ensures rows == map[]
    {
      rows := map[];
    }

    method HandleCreateWarehouse(sql: string) returns (r: Result<string, CommandError>)
      requires |KEYWORDS| <= |sql|
      modifies this
      ensures var parsed := ParseCreateWarehouse(sql);
        && (parsed.Err? ==> r == Err(parsed.error) && rows == old(rows))
        && (parsed.Ok? && parsed.value.name in old(rows) ==>
              r == Err(DuplicateName(parsed.value.name)) && rows == old(rows))
        && (parsed.Ok? && parsed.value.name !in old(rows) ==>
              r == Ok(parsed.value.name) && rows == old(rows)[parsed.value.name := parsed.value])
    {
      hide Arguments, TokenLength, Tokens, Contains, IsSafeIdentifier, NormalizeSize, ParseInteger;
      var arguments := Arguments(sql);
      var name := arguments[..TokenLength(arguments)];
      if name == "" {
        return Err(MissingName);
      }
      if !IsSafeIdentifier(name) {
        return Err(BadIdentifier(name));
      }
      var w := Warehouse(name, "small", 0, 4, 300);
      if Contains(Upper(sql), "WITH") {
        var tokens := Tokens(arguments);
        var i := 1;
        ghost var parsed := ParseOptions(tokens, 1, w);
        while i < |tokens|
          invariant ParseOptions(tokens, i, w) == parsed
          invariant w.name == name
          decreases |tokens| - i
        {
          var option := Upper(tokens[i]);
          if option == "WITH" {
            i := i + 1;
          } else if option == "SIZE" {
            if i + 1 >= |tokens| {
              return Err(MissingValue(option));
            }
            var size := NormalizeSize(tokens[i + 1]);
            if size.Err? {
              return Err(size.error);
            }
            w := w.(size := size.value);
            i := i + 2;
          } else if option in ["MIN_NODES", "MAX_NODES", "AUTO_SUSPEND", "AUTO_SUSPEND_SECONDS"] {
            if i + 1 >= |tokens| {
              return Err(MissingValue(option));
            }
            var n := ParseInteger(tokens[i + 1]);
            if n.Err? {
              return Err(n.error);
            }
            if option == "MIN_NODES" {
              w := w.(minNodes := n.value);
            } else if option == "MAX_NODES" {
              w := w.(maxNodes := n.value);
            } else {
              w := w.(autoSuspend := n.value);
            }
            i := i + 2;
          } else {
            return Err(UnknownOption(option));
          }
        }
      }
      var checked := CheckRanges(w);
      if checked.Err? {
        return Err(checked.error);
      }
      if name in rows {
        return Err(DuplicateName(name));
      }
      rows := rows[name := w];
      r := Ok(name);
    }
  }

  // ---- Reading what was printed ----

  predicate IsWord(w: string) {
    w != "" && forall i :: 0 <= i < |w| ==> !IsDelimiter(w[i])
  }

  predicate StartsApart(rest: string) {
    rest == "" || rest[0] == ' '
  }

  lemma {:induction false} RunOfWord(w: string, rest: string)
    requires (rest == "" || IsDelimiter(rest[0])) && forall i :: 0 <= i < |w| ==> !IsDelimiter(w[i])
    ensures RunLength(w + rest) == |w|
  {
    if w == "" {
      assert w + rest == rest;
    } else {
      assert (w + rest)[1..] == w[1..] + rest;
      RunOfWord(w[1..], rest);
    }
  }

  lemma TokensOfWord(w: string, rest: string)
    requires IsWord(w) && (rest == "" || IsDelimiter(rest[0]))
    ensures Tokens(w + rest) == [Unquote(w)] + Tokens(rest)
  {
    hide Unquote, IsDelimiter;
    RunOfWord(w, rest);
    assert (w + rest)[0] == w[0];
    assert (w + rest)[..|w|] == w && (w + rest)[|w|..] == rest;
  }

  lemma TokensAfterDelimiter(d: char, rest: string)
    requires IsDelimiter(d)
    ensures Tokens([d] + rest) == Tokens(rest)
  {
    assert ([d] + rest)[1..] == rest;
  }

  lemma TokensOfPiece(key: string, value: string, rest: string)
    requires IsWord(key) && IsWord(value) && StartsApart(rest)
    ensures Tokens(Piece(key, value) + rest) == [Unquote(key), Unquote(value)] + Tokens(rest)
  {
    hide Tokens, Unquote, IsWord;
    var a := value + rest;
    var b := [' '] + a;
    var c := ['='] + b;
    var d := [' '] + c;
    assert Piece(key, value) + rest == [' '] + (key + d);
    TokensAfterDelimiter(' ', key + d);
    TokensOfWord(key, d);
    TokensAfterDelimiter(' ', c);
    TokensAfterDelimiter('=', b);
    TokensAfterDelimiter(' ', a);
    TokensOfWord(value, rest);
  }

  /** A word without quotes at either end is its own token, and so is the same word in single quotes. */
  lemma PlainToken(w: string)
    requires w != "" && w[0] != '\'' && w[0] != '"' && w[|w| - 1] != '\'' && w[|w| - 1] != '"'
    ensures Unquote(w) == w
    ensures Unquote("'" + w + "'") == w
  {
    var q := "'" + w + "'";
    assert q[1..] == w + "'" && StripLeft(w + "'", '\'') == w + "'";
    assert (w + "'")[..|w|] == w && StripRight(w, '\'') == w;
  }

  lemma SignedDigitsAreWord(sign: string, digits: string)
    requires sign in ["", "-"] && digits != "" && AllDigits(digits)
    ensures IsWord(sign + digits) && (sign + digits)[0] !in "'\"" && IsDigit((sign + digits)[|sign + digits| - 1])
  {
    var w := sign + digits;
    forall i | 0 <= i < |w|
      ensures !IsDelimiter(w[i])
    {
      assert i >= |sign| ==> IsDigit(digits[i - |sign|]);
    }
  }

  lemma PrintedIntIsWord(n: int)
    ensures IsWord(PrintInt(n)) && Unquote(PrintInt(n)) == PrintInt(n)
    ensures IsDigit(PrintInt(n)[|PrintInt(n)| - 1])
  {
    var digits := PrintNat(if n < 0 then -n else n);
    PrintedNat(if n < 0 then -n else n);
    hide PrintNat, Unquote, DigitsValue, IsWord, AllDigits;
    SignedDigitsAreWord(if n < 0 then "-" else "", digits);
    assert "" + digits == digits;
    PlainToken(PrintInt(n));
  }

  // ---- Reading the options back ----

  /** The tokens a printed piece is read as. */
  function PieceTokens(key: string, value: Option<string>): seq<string> {
    if value.Some? then [key, value.value] else []
  }

  function IntToken(n: Option<int>): Option<string> {
    if n.Some? then Some(PrintInt(n.value)) else None
  }

  lemma TokensOfIntPiece(key: string, n: Option<int>, rest: string)
    requires IsWord(key) && Unquote(key) == key && StartsApart(rest)
    ensures Tokens(IntPiece(key, n) + rest) == PieceTokens(key, IntToken(n)) + Tokens(rest)
    ensures StartsApart(IntPiece(key, n) + rest)
  {
    hide Tokens, Unquote, IsWord, PrintInt;
    if n.Some? {
      PrintedIntIsWord(n.value);
      TokensOfPiece(key, PrintInt(n.value), rest);
    } else {
      assert IntPiece(key, n) + rest == rest;
    }
  }

  predicate IsSize(size: string) {
    size in ["xsmall", "small", "medium", "large", "xlarge"]
  }

  lemma SizeWord(size: string)
    requires IsSize(size)
    ensures IsWord("'" + size + "'") && Unquote("'" + size + "'") == size
    ensures NormalizeSize(size) == Ok(size)
  {
    hide Unquote;
    PlainToken(size);
    assert Lower(size) == size;
  }

  predicate IsKey(key: string) {
    key != "" && forall i :: 0 <= i < |key| ==> 'A' <= key[i] <= 'Z' || key[i] == '_'
  }

  lemma KeyIsPlain(key: string)
    requires IsKey(key)
    ensures IsWord(key) && Unquote(key) == key && Upper(key) == key
  {
    PlainToken(key);
  }

  lemma KeysArePlain()
    ensures forall k :: k in {"WITH", "SIZE", "MIN_NODES", "MAX_NODES", "AUTO_SUSPEND"} ==>
      IsWord(k) && Unquote(k) == k && Upper(k) == k
  {
    hide IsWord, Unquote, Upper;
    forall k | k in {"WITH", "SIZE", "MIN_NODES", "MAX_NODES", "AUTO_SUSPEND"}
      ensures IsWord(k) && Unquote(k) == k && Upper(k) == k
    {
      KeyIsPlain(k);
    }
  }

  /** The options printed after the name, as tokens. */
  function OptionTokens(size: Option<string>, o: ToolOptions): seq<string> {
    PieceTokens("SIZE", size)
    + (PieceTokens("MIN_NODES", IntToken(o.minNodes))
    + (PieceTokens("MAX_NODES", IntToken(o.maxNodes))
    + PieceTokens("AUTO_SUSPEND", IntToken(o.autoSuspend))))
  }

  lemma TokensOfClause(size: Option<string>, o: ToolOptions)
    requires size.Some? ==> IsSize(size.value)
    ensures Tokens(Clause(size, o)) == OptionTokens(size, o)
    ensures StartsApart(Clause(size, o))
  {
    hide Tokens, Unquote, IsWord, PrintInt, IntPiece, PieceTokens, IsSize, Piece;
    KeysArePlain();
    var d := IntPiece("AUTO_SUSPEND", o.autoSuspend);
    var c := IntPiece("MAX_NODES", o.maxNodes) + d;
    var b := IntPiece("MIN_NODES", o.minNodes) + c;
    assert Clause(size, o) == SizePiece(size) + b by {
      ClauseExpands(size, o);
    }
    TokensOfIntPiece("AUTO_SUSPEND", o.autoSuspend, "");
    assert d + "" == d;
    TokensOfIntPiece("MAX_NODES", o.maxNodes, d);
    TokensOfIntPiece("MIN_NODES", o.minNodes, c);
    TokensOfSizePiece(size, b);
    NoTokens();
  }

  lemma NoTokens()
    ensures Tokens("") == []
  {
  }

  lemma ClauseExpands(size: Option<string>, o: ToolOptions)
    ensures Clause(size, o) == SizePiece(size)
      + (IntPiece("MIN_NODES", o.minNodes)
      + (IntPiece("MAX_NODES", o.maxNodes)
      + IntPiece("AUTO_SUSPEND", o.autoSuspend)))
  {
    hide IntPiece, SizePiece;
    var options := IntOptions(o);
    assert IntPieces(options, 0) == "";
    assert IntPieces(options, 1) == "" + IntPiece("MIN_NODES", o.minNodes);
    assert IntPieces(options, 2) == IntPieces(options, 1) + IntPiece("MAX_NODES", o.maxNodes);
    assert IntPieces(options, 3) == IntPieces(options, 2) + IntPiece("AUTO_SUSPEND", o.autoSuspend);
  }

  lemma TokensOfSizePiece(size: Option<string>, rest: string)
    requires (size.Some? ==> IsSize(size.value)) && StartsApart(rest)
    ensures Tokens(SizePiece(size) + rest) == PieceTokens("SIZE", size) + Tokens(rest)
    ensures StartsApart(SizePiece(size) + rest)
  {
    hide Tokens, Unquote, IsWord, IsSize;
    if size.Some? {
      SizeWord(size.value);
      KeysArePlain();
      TokensOfPiece("SIZE", "'" + size.value + "'", rest);
    } else {
      assert SizePiece(size) + rest == rest;
    }
  }

  /** Options are read from the tokens that are left, whatever came before. */
  lemma {:induction false} ParseOptionsFrom(before: seq<string>, tokens: seq<string>, i: nat, w: Warehouse)
    ensures ParseOptions(before + tokens, |before| + i, w) == ParseOptions(tokens, i, w)
    decreases |tokens| - i
  {
    hide Upper, NormalizeSize, ParseInteger;
    if i < |tokens| {
      assert (before + tokens)[|before| + i] == tokens[i];
      assert i + 1 < |tokens| ==> (before + tokens)[|before| + i + 1] == tokens[i + 1];
      ParseOptionsFrom(before, tokens, i + 1, w);
      if i + 1 < |tokens| {
        var size, n := NormalizeSize(tokens[i + 1]), ParseInteger(tokens[i + 1]);
        if size.Ok? {
          ParseOptionsFrom(before, tokens, i + 2, w.(size := size.value));
        }
        if n.Ok? {
          ParseOptionsFrom(before, tokens, i + 2, w.(minNodes := n.value));
          ParseOptionsFrom(before, tokens, i + 2, w.(maxNodes := n.value));
          ParseOptionsFrom(before, tokens, i + 2, w.(autoSuspend := n.value));
        }
      }
    }
  }

  /** The warehouse an option piece makes of `w`. */
  lemma ReadPiece(key: string, value: Option<string>, rest: seq<string>, w: Warehouse, next: Warehouse)
    requires key in {"SIZE", "MIN_NODES", "MAX_NODES", "AUTO_SUSPEND"}
    requires value.None? ==> next == w
    requires value.Some? && key == "SIZE" ==> NormalizeSize(value.value).Ok? && next == w.(size := NormalizeSize(value.value).value)
    requires value.Some? && key != "SIZE" ==> ParseInteger(value.value).Ok?
    requires value.Some? && key == "MIN_NODES" ==> next == w.(minNodes := ParseInteger(value.value).value)
    requires value.Some? && key == "MAX_NODES" ==> next == w.(maxNodes := ParseInteger(value.value).value)
    requires value.Some? && key == "AUTO_SUSPEND" ==> next == w.(autoSuspend := ParseInteger(value.value).value)
    ensures ParseOptions(PieceTokens(key, value) + rest, 0, w) == ParseOptions(rest, 0, next)
  {
    hide Upper, NormalizeSize, ParseInteger;
    KeysArePlain();
    var tokens := PieceTokens(key, value) + rest;
    if value.Some? {
      assert tokens == [key, value.value] + rest;
      ParseOptionsFrom([key, value.value], rest, 0, next);
      assert ParseOptions(tokens, 0, w) == ParseOptions(tokens, 2, next);
    } else {
      assert tokens == rest;
    }
  }

  lemma IntegerToken(n: Option<int>)
    requires n.Some? ==> IsI64(n.value)
    ensures n.Some? ==> ParseInteger(PrintInt(n.value)) == Ok(n.value)
  {
    if n.Some? {
      IntegerRoundTrip(n.value);
    }
  }

  function OrElse<T>(value: Option<T>, default: T): T {
    if value.Some? then value.value else default
  }

  /** The warehouse the tool's caller asked for. */
  function Requested(name: string, size: Option<string>, o: ToolOptions): Warehouse {
    Warehouse(name, OrElse(size, "small"), OrElse(o.minNodes, 0), OrElse(o.maxNodes, 4), OrElse(o.autoSuspend, 300))
  }

  lemma ReadOptions(name: string, size: Option<string>, o: ToolOptions)
    requires o.InRange() && (size.Some? ==> IsSize(size.value))
    ensures ParseOptions(OptionTokens(size, o), 0, Warehouse(name, "small", 0, 4, 300)) == Ok(Requested(name, size, o))
  {
    hide ParseOptions, ParseInteger, PrintInt, NormalizeSize, PieceTokens, IsSize;
    var w0 := Warehouse(name, "small", 0, 4, 300);
    var w1 := w0.(size := OrElse(size, "small"));
    var w2 := w1.(minNodes := OrElse(o.minNodes, 0));
    var w3 := w2.(maxNodes := OrElse(o.maxNodes, 4));
    var t3 := PieceTokens("AUTO_SUSPEND", IntToken(o.autoSuspend));
    var t2 := PieceTokens("MAX_NODES", IntToken(o.maxNodes)) + t3;
    var t1 := PieceTokens("MIN_NODES", IntToken(o.minNodes)) + t2;
    if size.Some? {
      SizeWord(size.value);
    }
    IntegerToken(o.minNodes);
    IntegerToken(o.maxNodes);
    IntegerToken(o.autoSuspend);
    ReadPiece("SIZE", size, t1, w0, w1);
    ReadPiece("MIN_NODES", IntToken(o.minNodes), t2, w1, w2);
    ReadPiece("MAX_NODES", IntToken(o.maxNodes), t3, w2, w3);
    ReadPiece("AUTO_SUSPEND", IntToken(o.autoSuspend), [], w3, Requested(name, size, o));
    assert t3 + [] == t3;
    NoOptions(Requested(name, size, o));
  }

  lemma NoOptions(w: Warehouse)
    ensures ParseOptions([], 0, w) == Ok(w)
  {
  }

  // ---- The whole text ----

  predicate EndsWell(s: string) {
    s != "" && !IsWhitespace(s[|s| - 1]) && s[|s| - 1] != ';'
  }

  lemma IntPieceEndsWell(key: string, n: Option<int>)
    ensures IntPiece(key, n) == "" || EndsWell(IntPiece(key, n))
  {
    hide IsWord, PrintInt, Unquote;
    if n.Some? {
      PrintedIntIsWord(n.value);
      NotEmpty(PrintInt(n.value));
    }
  }

  lemma NotEmpty(w: string)
    requires IsWord(w)
    ensures w != ""
  {
  }

  lemma EndsWellAppend(s: string, t: string)
    requires s == "" || EndsWell(s)
    requires t == "" || EndsWell(t)
    ensures s + t == "" || EndsWell(s + t)
  {
  }

  lemma ClauseEndsWell(size: Option<string>, o: ToolOptions)
    ensures Clause(size, o) == "" || EndsWell(Clause(size, o))
  {
    hide EndsWell, IntPiece;
    ClauseExpands(size, o);
    IntPieceEndsWell("MIN_NODES", o.minNodes);
    IntPieceEndsWell("MAX_NODES", o.maxNodes);
    IntPieceEndsWell("AUTO_SUSPEND", o.autoSuspend);
    SizePieceEndsWell(size);
    var d := IntPiece("AUTO_SUSPEND", o.autoSuspend);
    var c := IntPiece("MAX_NODES", o.maxNodes) + d;
    EndsWellAppend(IntPiece("MAX_NODES", o.maxNodes), d);
    EndsWellAppend(IntPiece("MIN_NODES", o.minNodes), c);
    EndsWellAppend(SizePiece(size), IntPiece("MIN_NODES", o.minNodes) + c);
  }

  lemma SizePieceEndsWell(size: Option<string>)
    ensures SizePiece(size) == "" || EndsWell(SizePiece(size))
  {
  }

  lemma ArgumentsOf(sql: string, body: string)
    requires sql == KEYWORDS + (" " + body) && EndsWell(body) && !IsWhitespace(body[0])
    ensures Arguments(sql) == body
  {
    hide Trim;
    assert sql[|KEYWORDS|..] == " " + body;
    assert " " + body + "" == " " + body;
    TrimOfPadded(body, "");
    assert StripRight(body, ';') == body;
    TrimOfTrimmed(body);
  }

  lemma TrimOfTrimmed(body: string)
    requires EndsWell(body) && !IsWhitespace(body[0])
    ensures Trim(body) == body
  {
  }

  lemma {:induction false} FindOccurs(p: string, pat: string, q: string)
    ensures Find(p + pat + q, pat).Some?
  {
    if p == "" {
      assert p + pat + q == pat + q;
    } else {
      assert (p + pat + q)[1..] == p[1..] + pat + q;
      FindOccurs(p[1..], pat, q);
    }
  }

  lemma WithIsFound(p: string, q: string)
    ensures Contains(Upper(p + " WITH" + q), "WITH")
  {
    var text := p + " WITH" + q;
    assert Upper(text) == (Upper(p) + " ") + "WITH" + Upper(q);
    FindOccurs(Upper(p) + " ", "WITH", Upper(q));
  }

  lemma TokensOfBody(name: string, size: Option<string>, o: ToolOptions)
    requires IsSafeIdentifier(name) && (size.Some? ==> IsSize(size.value))
    ensures Tokens(name + " WITH" + Clause(size, o)) == [name, "WITH"] + OptionTokens(size, o)
    ensures Tokens(name) == [name]
  {
    hide Tokens, Unquote, IsSize, OptionTokens, Clause;
    var clause := Clause(size, o);
    TokensOfClause(size, o);
    KeysArePlain();
    assert IsIdentChar(name[0]) && IsIdentChar(name[|name| - 1]);
    PlainToken(name);
    assert name + " WITH" + clause == name + ([' '] + ("WITH" + clause));
    TokensOfWord(name, [' '] + ("WITH" + clause));
    TokensAfterDelimiter(' ', "WITH" + clause);
    TokensOfWord("WITH", clause);
    TokensOfWord(name, "");
    assert name + "" == name;
    NoTokens();
  }

  /** What the warehouse parser makes of the printed text. */
  lemma ParsePrintedWarehouse(name: string, size: Option<string>, o: ToolOptions)
    requires IsSafeIdentifier(name) && o.InRange() && (size.Some? ==> IsSize(size.value))
    ensures var text := WarehouseText(name, Clause(size, o));
      && |KEYWORDS| <= |text|
      && ParseCreateWarehouse(text) == CheckRanges(Requested(name, size, o))
  {
    hide Tokens, IsSize, OptionTokens, Clause, Arguments, Contains, TokenLength, CheckRanges, ParseOptions;
    var clause := Clause(size, o);
    var tail := if clause == "" then "" else " WITH" + clause;
    var body := name + tail;
    var text := WarehouseText(name, clause);
    assert text == KEYWORDS + (" " + body);
    assert IsIdentChar(name[0]) && IsIdentChar(name[|name| - 1]);
    ClauseEndsWell(size, o);
    assert body[|body| - 1] == if clause == "" then name[|name| - 1] else clause[|clause| - 1];
    ArgumentsOf(text, body);
    TokenAt(name, tail);
    assert body[..|name|] == name;
    var defaults := Warehouse(name, "small", 0, 4, 300);
    TokensOfBody(name, size, o);
    ReadOptions(name, size, o);
    if clause == "" {
      assert body == name;
      NameAlone(name, defaults);
      NoClause(size, o);
    } else {
      assert body == name + " WITH" + clause;
      assert text == (KEYWORDS + " " + name) + " WITH" + clause;
      WithIsFound(KEYWORDS + " " + name, clause);
      AfterWith(name, OptionTokens(size, o), defaults);
    }
  }

  lemma NameAlone(name: string, w: Warehouse)
    ensures ParseOptions([name], 1, w) == Ok(w)
  {
  }

  lemma AfterWith(name: string, tokens: seq<string>, w: Warehouse)
    ensures ParseOptions([name, "WITH"] + tokens, 1, w) == ParseOptions(tokens, 0, w)
  {
    ParseOptionsFrom([name, "WITH"], tokens, 0, w);
    assert Upper("WITH") == "WITH";
  }

  lemma NoClause(size: Option<string>, o: ToolOptions)
    requires Clause(size, o) == ""
    ensures size.None? && o.minNodes.None? && o.maxNodes.None? && o.autoSuspend.None?
  {
    ClauseExpands(size, o);
  }

  /**
   The warehouse the tool asks for is the warehouse the engine creates: the printed text reaches the
   warehouse handler, which reads the name, the size and the integers (or their defaults) back and
   accepts them exactly when 0 <= min <= max and the suspend time is not negative.
   */
  lemma WarehouseToolRoundTrip(name: string, o: ToolOptions)
    requires IsSafeIdentifier(name) && o.InRange()
    requires PrintCreateWarehouse(name, o).Ok?
    ensures var text := PrintCreateWarehouse(name, o).value;
      var w := Requested(name, PrintedSize(o).value, o);
      && |KEYWORDS| <= |text|
      && Dispatch(text) == CreateWarehouse(text)
      && (ParseCreateWarehouse(text) == Ok(w) <==> 0 <= w.minNodes <= w.maxNodes && 0 <= w.autoSuspend)
      && (ParseCreateWarehouse(text).Ok? ==> ParseCreateWarehouse(text) == Ok(w))
  {
    hide Clause, Dispatch, ParseCreateWarehouse;
    var size := PrintedSize(o).value;
    ParsePrintedWarehouse(name, size, o);
    WarehouseDispatches(name, Clause(size, o));
  }

  lemma WarehouseDispatches(name: string, clause: string)
    ensures Dispatch(WarehouseText(name, clause)) == CreateWarehouse(WarehouseText(name, clause))
  {
    hide StripLeadingComments, KeywordsEnd, FindAs, ContainsKeyword;
    var text := WarehouseText(name, clause);
    assert text[0] == 'C' && text[..|KEYWORDS|] == KEYWORDS;
    NoCommentToStrip(text);
    NotAPrefix(text, "SHOW WAREHOUSES", 0);
    assert KEYWORDS <= Upper(text) by {
      assert Upper(text)[..|KEYWORDS|] == KEYWORDS by {
        assert forall i :: 0 <= i < |KEYWORDS| ==> text[i] == KEYWORDS[i] && UpperChar(KEYWORDS[i]) == KEYWORDS[i];
      }
    }
  }
}
