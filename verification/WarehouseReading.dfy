/** What CREATE WAREHOUSE accepts (`handle_create_warehouse`), told on the text and its tokens. */
module WarehouseReading {
  import opened Text
  import opened SqlCommands
  import opened WarehouseCommands

  // ---- Integers ----

  /** An integer is digits with at most one sign in front, and lies between -2^63 and 2^63 - 1. */
  lemma IntegerIff(s: string)
    ensures ParseI64(s).Some? ==>
      exists sign, digits :: s == sign + digits && sign in {"", "+", "-"} && digits != "" && AllDigits(digits)
    ensures forall sign, digits :: s == sign + digits && sign in {"", "+", "-"} && digits != "" && AllDigits(digits) ==>
      ParseI64(s) ==
        var value: int := if sign == "-" then 0 - DigitsValue(digits) else DigitsValue(digits);
        if -9223372036854775808 <= value <= 9223372036854775807 then Some(value) else None
  {
    if ParseI64(s).Some? {
      var signed := s[0] == '-' || s[0] == '+';
      assert s == (if signed then [s[0]] else "") + (if signed then s[1..] else s);
    }
    forall sign, digits | s == sign + digits && sign in {"", "+", "-"} && digits != "" && AllDigits(digits)
      ensures ParseI64(s) ==
        var value: int := if sign == "-" then 0 - DigitsValue(digits) else DigitsValue(digits);
        if -9223372036854775808 <= value <= 9223372036854775807 then Some(value) else None
    {
      if sign == "" {
        assert s == digits && IsDigit(s[0]);
      } else {
        assert s[1..] == digits && s[0] == sign[0];
      }
    }
  }

  // ---- Tokens ----

  lemma DelimiterIff(c: char)
    ensures IsDelimiter(c) <==> IsWhitespace(c) || c in "=,;"
  {
  }

  /** Blanks, equals signs, commas and semicolons separate tokens and are no part of them. */
  lemma TokensSkip(c: char, rest: string)
    requires IsWhitespace(c) || c in "=,;"
    ensures Tokens([c] + rest) == Tokens(rest)
  {
    assert ([c] + rest)[1..] == rest;
  }

  /** A run without them is one token, which loses the quotes around it. */
  lemma TokensRun(run: string, rest: string)
    requires run != "" && forall c :: c in run ==> !IsWhitespace(c) && c !in "=,;"
    requires rest == "" || IsWhitespace(rest[0]) || rest[0] in "=,;"
    ensures Tokens(run + rest) == [Unquote(run)] + Tokens(rest)
  {
    RunIs(run, rest);
    assert (run + rest)[..|run|] == run && (run + rest)[|run|..] == rest;
    assert (run + rest)[0] == run[0] && run[0] in run;
  }

  lemma {:induction false} RunIs(run: string, rest: string)
    requires forall c :: c in run ==> !IsWhitespace(c) && c !in "=,;"
    requires rest == "" || IsWhitespace(rest[0]) || rest[0] in "=,;"
    ensures RunLength(run + rest) == |run|
  {
    if run == "" {
      assert run + rest == rest;
    } else {
      assert run[0] in run && (run + rest)[1..] == run[1..] + rest;
      RunIs(run[1..], rest);
    }
  }

  predicate AllAre(s: string, c: char) {
    forall i :: 0 <= i < |s| ==> s[i] == c
  }

  lemma {:induction false} StripLeftIs(front: string, core: string, c: char)
    requires AllAre(front, c) && (core == "" || core[0] != c)
    ensures StripLeft(front + core, c) == core
  {
    if front == "" {
      assert front + core == core;
    } else {
      assert (front + core)[1..] == front[1..] + core;
      StripLeftIs(front[1..], core, c);
    }
  }

  lemma {:induction false} StripRightIs(core: string, back: string, c: char)
    requires AllAre(back, c) && (core == "" || core[|core| - 1] != c)
    ensures StripRight(core + back, c) == core
  {
    if back == "" {
      assert core + back == core;
    } else {
      var all := core + back;
      assert all[..|all| - 1] == core + back[..|back| - 1];
      StripRightIs(core, back[..|back| - 1], c);
    }
  }

  /** A token loses the single quotes at its ends, and then the double quotes there. */
  lemma UnquoteIs(a: string, b: string, core: string, y: string, z: string)
    requires AllAre(a, '\'') && AllAre(b, '"') && AllAre(y, '"') && AllAre(z, '\'')
    requires core != "" && core[0] !in "'\"" && core[|core| - 1] !in "'\""
    ensures Unquote(a + (b + core + y) + z) == core
  {
    var inner := b + core + y;
    assert inner[0] != '\'' && inner[|inner| - 1] != '\'' by {
      assert inner[0] == if b == "" then core[0] else b[0];
      assert inner[|inner| - 1] == if y == "" then core[|core| - 1] else y[|y| - 1];
    }
    assert a + inner + z == a + (inner + z) && (inner + z)[0] == inner[0];
    StripLeftIs(a, inner + z, '\'');
    StripRightIs(inner, z, '\'');
    assert inner == b + (core + y) && (core + y)[0] == core[0];
    StripLeftIs(b, core + y, '"');
    StripRightIs(core, y, '"');
  }

  /** The arguments are what stands behind the keywords without the blanks around it and the semicolons at its end. */
  lemma ArgumentsAre(keywords: string, lead: string, core: string, gap: string, semicolons: string, tail: string)
    requires |keywords| == 16 && Blank(lead) && Blank(gap) && Blank(tail) && AllAre(semicolons, ';')
    requires core != "" && !IsWhitespace(core[0]) && !IsWhitespace(core[|core| - 1]) && core[|core| - 1] != ';'
    ensures |KEYWORDS| == 16 && Arguments(keywords + (lead + (core + gap + semicolons) + tail)) == core
  {
    hide Trim, IsWhitespace, StripRight;
    var sql := keywords + (lead + (core + gap + semicolons) + tail);
    assert sql[16..] == lead + (core + gap + semicolons) + tail;
    if semicolons == "" {
      assert Blank(gap + tail);
      assert lead + (core + gap + semicolons) + tail == lead + core + (gap + tail);
      TrimBetween(lead, core, gap + tail);
      StripRightIs(core, "", ';');
      assert core + "" == core;
      TrimBetween("", core, "");
      assert "" + core + "" == core;
    } else {
      SemicolonIsNoBlank();
      TrimBetween(lead, core + gap + semicolons, tail);
      assert gap != "" ==> IsWhitespace(gap[|gap| - 1]);
      assert (core + gap)[|core + gap| - 1] == if gap == "" then core[|core| - 1] else gap[|gap| - 1];
      StripRightIs(core + gap, semicolons, ';');
      TrimBetween("", core, gap);
      assert "" + core + gap == core + gap;
    }
  }

  lemma SemicolonIsNoBlank()
    ensures !IsWhitespace(';')
  {
  }

  // ---- Options ----

  /** What one option does to the values read so far, and how many tokens it takes. */
  datatype Effect = Takes(w: Warehouse, tokens: nat) | Stops(error: CommandError)

  function EffectOf(tokens: seq<string>, i: nat, w: Warehouse): Effect
    requires i < |tokens|
  {
    var name, value := tokens[i], if i + 1 < |tokens| then Some(tokens[i + 1]) else None;
    if SameText(name, "with") then Takes(w, 1)
    else if SameText(name, "size") then
      if value.None? then Stops(MissingValue("SIZE"))
      else if exists size :: size in SIZES && SameText(value.value, size) then Takes(w.(size := Lower(value.value)), 2)
      else Stops(BadSize(value.value))
    else
      var minimum, maximum := SameText(name, "min_nodes"), SameText(name, "max_nodes");
      var suspend := SameText(name, "auto_suspend") || SameText(name, "auto_suspend_seconds");
      if !minimum && !maximum && !suspend then Stops(UnknownOption(Upper(name)))
      else if value.None? then Stops(MissingValue(Upper(name)))
      else
        var n := ParseI64(value.value);
        if n.None? then Stops(BadInteger(value.value))
        else if minimum then Takes(w.(minNodes := n.value), 2)
        else if maximum then Takes(w.(maxNodes := n.value), 2)
        else Takes(w.(autoSuspend := n.value), 2)
  }

  const SIZES := ["xsmall", "small", "medium", "large", "xlarge"]

  lemma OptionNamesAre(name: string)
    ensures Upper(name) == "WITH" <==> SameText(name, "with")
    ensures Upper(name) == "SIZE" <==> SameText(name, "size")
    ensures Upper(name) == "MIN_NODES" <==> SameText(name, "min_nodes")
    ensures Upper(name) == "MAX_NODES" <==> SameText(name, "max_nodes")
    ensures Upper(name) == "AUTO_SUSPEND" <==> SameText(name, "auto_suspend")
    ensures Upper(name) == "AUTO_SUSPEND_SECONDS" <==> SameText(name, "auto_suspend_seconds")
  {
    CapitalsAre();
    hide Upper, SameText;
    EqualsIgnoreCaseIff(name, "with");
    EqualsIgnoreCaseIff(name, "size");
    EqualsIgnoreCaseIff(name, "min_nodes");
    EqualsIgnoreCaseIff(name, "max_nodes");
    EqualsIgnoreCaseIff(name, "auto_suspend");
    EqualsIgnoreCaseIff(name, "auto_suspend_seconds");
  }

  lemma CapitalsAre()
    ensures Upper("with") == "WITH" && Upper("size") == "SIZE" && Upper("min_nodes") == "MIN_NODES"
    ensures Upper("max_nodes") == "MAX_NODES" && Upper("auto_suspend") == "AUTO_SUSPEND"
    ensures Upper("auto_suspend_seconds") == "AUTO_SUSPEND_SECONDS"
  {
  }

  /** The options are read from left to right, each with its own effect, until one stops the reading. */
  lemma OptionsAre(tokens: seq<string>, i: nat, w: Warehouse)
    ensures ParseOptions(tokens, i, w) ==
      if i >= |tokens| then Ok(w)
      else
        match EffectOf(tokens, i, w)
        case Takes(next, n) => ParseOptions(tokens, i + n, next)
        case Stops(error) => Err(error)
  {
    hide Upper, SameText, Lower, NormalizeSize, ParseI64;
    if i < |tokens| {
      OptionNamesAre(tokens[i]);
      if i + 1 < |tokens| {
        SizeEffect(tokens[i + 1]);
      }
    }
  }

  lemma SizeEffect(size: string)
    ensures NormalizeSize(size) ==
      if exists known :: known in SIZES && SameText(size, known) then Ok(Lower(size)) else Err(BadSize(size))
  {
    hide SameText;
    SizeIs(size);
  }

  /** A warehouse is created only with 0 <= min <= max and a suspension time that is not negative. */
  lemma RangesAre(w: Warehouse)
    ensures var r := CheckRanges(w);
      && (r == Ok(w) <==> 0 <= w.minNodes <= w.maxNodes && 0 <= w.autoSuspend)
      && (r.Ok? ==> r.value == w)
      && (r == Err(NegativeMin) <==> w.minNodes < 0)
      && (r == Err(NegativeMax) <==> w.maxNodes < 0 <= w.minNodes)
      && (r == Err(MaxBelowMin) <==> 0 <= w.maxNodes < w.minNodes)
      && (r == Err(NegativeSuspend) <==> 0 <= w.minNodes <= w.maxNodes && w.autoSuspend < 0)
  {
  }

  /** The name comes first; without the word WITH in the text the options are not looked at. */
  lemma WarehouseIs(sql: string)
    requires 16 <= |sql|
    ensures |KEYWORDS| == 16
    ensures var r, arguments := ParseCreateWarehouse(sql), Arguments(sql);
      var name := arguments[..TokenLength(arguments)];
      var w := Warehouse(name, "small", 0, 4, 300);
      && (name == "" ==> r == Err(MissingName))
      && (name != "" && !IsSafeIdentifier(name) ==> r == Err(BadIdentifier(name)))
      && (IsSafeIdentifier(name) && Find(Upper(sql), "WITH").None? ==> r == Ok(w))
      && (IsSafeIdentifier(name) && Find(Upper(sql), "WITH").Some? ==>
            var options := ParseOptions(Tokens(arguments), 1, w);
            if options.Err? then r == options else r == CheckRanges(options.value))
  {
    hide Arguments, TokenLength, IsSafeIdentifier, ParseOptions, Tokens, Find, Upper;
    UnsafeIfEmpty();
    RangesAre(Warehouse(Arguments(sql)[..TokenLength(Arguments(sql))], "small", 0, 4, 300));
  }

  lemma UnsafeIfEmpty()
    ensures !IsSafeIdentifier("")
  {
  }

  /** The tool prints a statement exactly for a size that is one of the five, in any case, or for none. */
  lemma PrintedSizeIs(name: string, o: ToolOptions)
    ensures var printed, size := PrintCreateWarehouse(name, o), PrintedSize(o);
      && (printed.Ok? <==> o.size.None? || exists known :: known in SIZES && SameText(o.size.value, known))
      && (printed.Err? ==> printed == Err(BadSize(o.size.value)))
      && (printed.Ok? && o.size.None? ==> size == Ok(None))
      && (printed.Ok? && o.size.Some? ==> size == Ok(Some(Lower(o.size.value))))
  {
    hide SameText, Lower, NormalizeSize;
    if o.size.Some? {
      SizeEffect(o.size.value);
    }
  }

  /** The warehouse that the printed statement creates has the size that was asked for, in small letters, or is small. */
  lemma ToolSizeRoundTrip(name: string, o: ToolOptions)
    requires IsSafeIdentifier(name) && o.InRange() && PrintCreateWarehouse(name, o).Ok?
    ensures var text := PrintCreateWarehouse(name, o).value;
      && |KEYWORDS| <= |text|
      && (ParseCreateWarehouse(text).Ok? ==>
            ParseCreateWarehouse(text).value.size == if o.size.Some? then Lower(o.size.value) else "small")
  {
    hide ParseCreateWarehouse, PrintCreateWarehouse, PrintedSize, SqlTools.Dispatch, Lower, IsSafeIdentifier;
    WarehouseToolRoundTrip(name, o);
    PrintedSizeIs(name, o);
  }
}
