/**
 What every command on views and tables answers, and what it leaves in the catalog, the files and the session, told on
 those three stores one by one (`commands.rs`).
 */
module ViewCommands {
  import opened Text
  import opened SqlCommands
  import opened SqlReading
  import opened WarehousePaths
  import opened MaterializedViews

  // ---- Writing and registering ----

  /** The file is written, the name's key freed, and taken again by the new source if that can be read. */
  ghost predicate WritesAnew(df: DataFusion, w: World, name: string, path: string, data: Data, next: World, error: Option<ViewError>) {
    && next.cwd == w.cwd && next.root == w.root
    && next.files == w.files[Locate(w.cwd, path) := data]
    && if !df.readable(path, next.files.Keys) then
         error == Some(Unreadable(path)) && forall k :: (k in next.session <==> k in w.session && df.resolve(name) != Some(k))
                                                        && (k in next.session ==> next.session[k] == w.session[k])
       else if df.resolve(name).None? then error == Some(NoSchema(name)) && next.session == w.session
       else error == None && next.session == w.session[df.resolve(name).value := path]
  }

  lemma StoreWritesAnew(df: DataFusion, w: World, name: string, path: string, data: Data)
    ensures var (next, r) := Store(df, w, name, path, data);
      && WritesAnew(df, w, name, path, data, next, if r.Ok? then None else Some(r.error))
      && next.catalog == w.catalog && (r.Ok? ==> r.value == data)
  {
    hide Locate;
    StoreIs(df, w, name, path, data);
  }

  // ---- Views ----

  /** What a create or a refresh of a view does when it comes to its query. */
  ghost predicate Materializes(
    df: DataFusion, w: World, name: string, query: string, next: World, r: Result<(string, Data), ViewError>)
  {
    match df.answer(query, Tables(df, w))
    case Failed => next == w && r == Err(QueryFailed)
    case NoBatches => next == w && r == Err(EmptyResult)
    case Batches(data) =>
      && WritesAnew(df, w, name, ViewPath(w.root, name), data, next, if r.Ok? then None else Some(r.error))
      && (r.Ok? ==> r.value == (name, data))
      && next.catalog == if r.Ok? then w.catalog[name := View(query, ViewPath(w.root, name))] else w.catalog
  }

  lemma CreateViewIs(df: DataFusion, w: World, sql: string)
    ensures var (next, r) := CreateView(df, w, sql); var parsed := ParseCreateView(sql);
      if parsed.Err? then next == w && r == Err(Refused(parsed.error))
      else if parsed.value.name in w.catalog then next == w && r == Err(AlreadyExists(parsed.value.name))
      else Materializes(df, w, parsed.value.name, parsed.value.query, next, r)
  {
    hide ParseCreateView, Store, Tables, ViewPath, WritesAnew;
    var parsed := ParseCreateView(sql);
    if parsed.Ok? && parsed.value.name !in w.catalog {
      var ViewDefinition(name, query) := parsed.value;
      var answer := df.answer(query, Tables(df, w));
      if answer.Batches? {
        StoreWritesAnew(df, w, name, ViewPath(w.root, name), answer.data);
        CatalogIsApart(df, w, name, ViewPath(w.root, name), answer.data, View(query, ViewPath(w.root, name)));
        var (next, r) := CreateView(df, w, sql);
        assert Materialize(df, w, name, query) == Store(df, w, name, ViewPath(w.root, name), answer.data);
        assert WritesAnew(df, w, name, ViewPath(w.root, name), answer.data, next, if r.Ok? then None else Some(r.error));
      }
    }
  }

  lemma CatalogIsApart(df: DataFusion, w: World, name: string, path: string, data: Data, row: View)
    ensures var (next, r) := Store(df, w, name, path, data);
      var error := if r.Ok? then None else Some(r.error);
      WritesAnew(df, w, name, path, data, next, error)
      && WritesAnew(df, w, name, path, data, next.(catalog := next.catalog[name := row]), error)
  {
    hide Store, Locate;
    StoreWritesAnew(df, w, name, path, data);
  }

  /** A refresh takes the SQL that the catalog holds for exactly the name it reads. */
  lemma RefreshViewIs(df: DataFusion, w: World, sql: string)
    requires |REFRESH| <= |sql|
    ensures var (next, r) := RefreshView(df, w, sql); var name := NameArgument(sql, "REFRESH MATERIALIZED VIEW");
      if name.None? then next == w && r == Err(NoName)
      else if name.value !in w.catalog then next == w && r == Err(NotFound(name.value))
      else Materializes(df, w, name.value, w.catalog[name.value].sql, next, r)
  {
    hide NameArgument, Store, Tables, ViewPath, WritesAnew;
    var name := NameArgument(sql, REFRESH);
    if name.Some? && name.value in w.catalog {
      var query := w.catalog[name.value].sql;
      var answer := df.answer(query, Tables(df, w));
      if answer.Batches? {
        StoreWritesAnew(df, w, name.value, ViewPath(w.root, name.value), answer.data);
        CatalogIsApart(df, w, name.value, ViewPath(w.root, name.value), answer.data, View(query, ViewPath(w.root, name.value)));
        var (next, r) := RefreshView(df, w, sql);
        assert Materialize(df, w, name.value, query) == Store(df, w, name.value, ViewPath(w.root, name.value), answer.data);
        assert WritesAnew(
            df, w, name.value, ViewPath(w.root, name.value), answer.data, next, if r.Ok? then None else Some(r.error));
      }
    }
  }

  /** The key of the name is freed. */
  ghost predicate Frees(df: DataFusion, w: World, name: string, next: World) {
    forall k :: (k in next.session <==> k in w.session && df.resolve(name) != Some(k))
                && (k in next.session ==> next.session[k] == w.session[k])
  }

  /** A drop frees the name's key first; row and file go only for a view of exactly that name. */
  lemma DropViewIs(df: DataFusion, w: World, sql: string)
    requires |DROP| <= |sql|
    ensures var (next, r) := DropView(df, w, sql); var name := NameArgument(sql, "DROP MATERIALIZED VIEW");
      if name.None? then next == w && r == Err(NoName)
      else
        && next.cwd == w.cwd && next.root == w.root && Frees(df, w, name.value, next)
        && if name.value !in w.catalog then next.catalog == w.catalog && next.files == w.files && r == Err(NotFound(name.value))
           else
             && r == Ok(name.value) && next.catalog == w.catalog - {name.value}
             && next.files == w.files - {Locate(w.cwd, w.catalog[name.value].path)}
  {
    hide NameArgument, Locate;
  }

  // ---- Tables ----

  /** A table's definition is read like a view's, but its name is looked at before its query. */
  lemma ParseCreateTableIs(sql: string, end: nat)
    requires WordsAt(sql, 0, ["CREATE", "TABLE"], end)
    ensures KeywordsEnd(sql, ["CREATE", "TABLE"], 0) == Some(end)
    ensures var r, clause := ParseCreateTable(sql), FindAs(sql, end);
      if clause.None? then r == Err(MissingAs)
      else
        var name, query := Trim(sql[end..clause.value.0]), ValidateMaterializationQuery(sql[clause.value.1..]);
        if !IsSafeIdentifier(name) then r == Err(BadIdentifier(name))
        else if query.Err? then r == Err(query.error)
        else r == Ok(ViewDefinition(name, query.value))
  {
    hide KeywordsEnd, FindAs, Trim, ValidateMaterializationQuery, IsSafeIdentifier, WordsAt;
    KeywordsIff(sql, ["CREATE", "TABLE"], 0, end);
  }

  lemma CreateTableIs(df: DataFusion, w: World, sql: string)
    requires KeywordsEnd(sql, ["CREATE", "TABLE"], 0).Some?
    ensures var (next, r) := CreateTableAs(df, w, sql); var parsed := ParseCreateTable(sql);
      if parsed.Err? then next == w && r == Err(Refused(parsed.error))
      else
        match df.answer(parsed.value.query, Tables(df, w))
        case Failed => next == w && r == Err(QueryFailed)
        case NoBatches => next == w && r == Ok([])
        case Batches(data) =>
          var name := parsed.value.name;
          && next.catalog == w.catalog && (r.Ok? ==> r.value == data)
          && WritesAnew(df, w, name, TablePath(w.root, name), data, next, if r.Ok? then None else Some(r.error))
  {
    hide ParseCreateTable, KeywordsEnd, Store, Tables, TablePath, WritesAnew;
    var parsed := ParseCreateTable(sql);
    if parsed.Ok? {
      var answer := df.answer(parsed.value.query, Tables(df, w));
      if answer.Batches? {
        StoreWritesAnew(df, w, parsed.value.name, TablePath(w.root, parsed.value.name), answer.data);
      }
    }
  }

  lemma DropTableIs(df: DataFusion, w: World, table: string)
    ensures var (next, r) := DropTable(df, w, table); var name := WithoutQuotes(table);
      if df.resolve(name).None? then next == w && r == Err(NoSchema(name))
      else
        && r == Ok(name) && next.cwd == w.cwd && next.root == w.root && next.catalog == w.catalog && Frees(df, w, name, next)
        && next.files == w.files - {Locate(w.cwd, w.root + "/opensnow/public/" + name + ".parquet")}
  {
    hide WithoutQuotes, Locate;
    var name := WithoutQuotes(table);
    assert w.root + "/" + TABLES == w.root + ("/" + TABLES) && "/" + TABLES == "/opensnow/public/";
  }

  /** Taking the quotes out takes out every single and double quote, and nothing else. */
  lemma {:induction false} WithoutQuotesAppends(s: string, t: string)
    ensures WithoutQuotes(s + t) == WithoutQuotes(s) + WithoutQuotes(t)
    ensures '\'' !in WithoutQuotes(s) && '"' !in WithoutQuotes(s)
  {
    if s == "" {
      assert s + t == t;
    } else {
      assert (s + t)[1..] == s[1..] + t;
      WithoutQuotesAppends(s[1..], t);
    }
  }

  lemma OneWithoutQuotes(c: char)
    ensures WithoutQuotes([c]) == if c in "'\"" then "" else [c]
  {
    assert [c][1..] == "";
  }

  /** The word that DROP TABLE takes for a name: the fifth behind IF EXISTS in any case, and otherwise the third. */
  lemma TableArgumentIs(sql: string)
    ensures var words := Words(sql);
      TableArgument(sql) ==
        if |words| >= 5 && SameText(words[2], "IF") && SameText(words[3], "EXISTS") then words[4]
        else if |words| >= 3 then words[2] else ""
  {
    hide Words, EqualsIgnoreCase, SameText;
    var words := Words(sql);
    if |words| >= 5 {
      EqualsIgnoreCaseIff(words[2], "if");
      EqualsIgnoreCaseIff(words[3], "exists");
      EitherCase(words[2], words[3]);
    }
  }

  lemma EitherCase(a: string, b: string)
    ensures SameText(a, "if") <==> SameText(a, "IF")
    ensures SameText(b, "exists") <==> SameText(b, "EXISTS")
  {
    EqualsIgnoreCaseIff(a, "if");
    EqualsIgnoreCaseIff(a, "IF");
    EqualsIgnoreCaseIff(b, "exists");
    EqualsIgnoreCaseIff(b, "EXISTS");
    assert Upper("if") == Upper("IF") && Upper("exists") == Upper("EXISTS");
  }

  /** The words of a text are its runs without blanks. */
  lemma WordsAre(blanks: string, word: string, rest: string)
    requires Blank(blanks) && word != "" && forall i :: 0 <= i < |word| ==> !IsWhitespace(word[i])
    requires rest == "" || IsWhitespace(rest[0])
    ensures Words(blanks + (word + rest)) == [word] + Words(rest)
    ensures Words(blanks) == []
  {
    hide IsWhitespace, TrimStart;
    assert (word + rest)[0] == word[0];
    TrimStartOf(blanks, word + rest);
    TrimStartOf(blanks, "");
    assert blanks + "" == blanks;
    SqlTools.TokenAt(word, rest);
    assert (word + rest)[..|word|] == word && (word + rest)[|word|..] == rest;
  }

  // ---- Starting ----

  /** A view is brought back only when its file is there and can be read and its key is free; otherwise it is passed over. */
  lemma RegisterViewIs(df: DataFusion, w: World, name: string)
    ensures RegisterView(df, w, name) ==
      if name in w.catalog && Locate(w.cwd, w.catalog[name].path) in w.files && df.readable(w.catalog[name].path, w.files.Keys)
         && df.resolve(name).Some? && df.resolve(name).value !in w.session
      then World(w.cwd, w.root, w.catalog, w.files, w.session[df.resolve(name).value := w.catalog[name].path])
      else w
  {
    hide Locate;
  }

  /** A source is registered when it can be read and the name has a key that is free, and the first that fails is reported. */
  lemma RegisterIs(df: DataFusion, w: World, name: string, source: string)
    ensures var r := Register(df, w, name, source);
      if !df.readable(source, w.files.Keys) then r == Err(Unreadable(source))
      else
        match df.resolve(name)
        case None => r == Err(NoSchema(name))
        case Some(key) =>
          if key in w.session then r == Err(NameTaken(name))
          else r == Ok(World(w.cwd, w.root, w.catalog, w.files, w.session[key := source]))
  {
  }
}
