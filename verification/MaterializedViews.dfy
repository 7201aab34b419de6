/**
 Materialized views and the tables beside them: catalog rows, Parquet files and session registrations,
 changed by create, refresh, drop and restart (`commands.rs`, `engine.rs`). Queries and the reading of a
 name as a table reference are uninterpreted; writing a file replaces its contents.
 */
module MaterializedViews {
  import opened Text
  import opened SqlCommands
  import opened WarehousePaths
  import SqlTools
  import WarehouseCommands

  // ---- The three stores ----

  type Data = seq<string>

  /** What a query reads of a registered table: the contents of the files that its source covers. */
  type Table = map<Location, Data>

  datatype Answer = Failed | NoBatches | Batches(data: Data)

  /**
   What the query engine decides: the answer of a query on the tables of the session; the key under which a
   session keeps the table that a name refers to; and what a registered source covers and whether it can be
   read. Names may share a key (folding of case, quotes and a schema in front all do that), and a name of a
   schema that is not there has none. A source may be a path, a URL, a directory or a pattern, so that
   several spellings cover one file and one source covers several.
   */
  datatype DataFusion = DataFusion(
    answer: (string, map<string, Table>) -> Answer,
    resolve: string -> Option<string>,
    covers: (string, Location) -> bool,
    readable: (string, set<Location>) -> bool)

  datatype View = View(sql: string, path: string)

  /** Files are kept by location; the session maps keys to sources. */
  datatype World = World(
    cwd: Location, root: string, catalog: map<string, View>, files: map<Location, Data>, session: map<string, string>)
  {
    function File(path: string): Location {
      Locate(cwd, path)
    }

    /** The file that a view of this name has. */
    function FileOf(name: string): Location {
      ViewFile(cwd, root, name)
    }
  }

  /** What a query sees: every registered table with the files of its source that are there. */
  function Tables(df: DataFusion, w: World): map<string, Table> {
    map k | k in w.session :: map l | l in w.files && df.covers(w.session[k], l) :: w.files[l]
  }

  datatype ViewError =
    | Refused(error: CommandError)
    | AlreadyExists(name: string)
    | NoName
    | NotFound(name: string)
    | QueryFailed
    | EmptyResult
    | NoSchema(name: string)
    | NameTaken(name: string)
    | Unreadable(source: string)

  // ---- The session ----

  function Deregister(df: DataFusion, w: World, name: string): World {
    var key := df.resolve(name);
    if key.None? then w else w.(session := w.session - {key.value})
  }

  /** A registration is refused when the source cannot be read, the name has no schema or its key is taken. */
  function Register(df: DataFusion, w: World, name: string, source: string): Result<World, ViewError> {
    var key := df.resolve(name);
    if !df.readable(source, w.files.Keys) then Err(Unreadable(source))
    else if key.None? then Err(NoSchema(name))
    else if key.value in w.session then Err(NameTaken(name))
    else Ok(w.(session := w.session[key.value := source]))
  }

  /** Write a file and register it anew; the file stays when the registration is refused. */
  function Store(df: DataFusion, w: World, name: string, path: string, data: Data): (World, Result<Data, ViewError>) {
    var cleared := Deregister(df, w.(files := w.files[w.File(path) := data]), name);
    var registered := Register(df, cleared, name, path);
    if registered.Ok? then (registered.value, Ok(data)) else (cleared, Err(registered.error))
  }

  /** What storing does: the file is written and the key freed; it is taken again if there is one and the file can be read. */
  lemma StoreIs(df: DataFusion, w: World, name: string, path: string, data: Data)
    ensures var written := w.(files := w.files[w.File(path) := data]);
      var key := df.resolve(name);
      Store(df, w, name, path, data) ==
        if !df.readable(path, written.files.Keys) then (Deregister(df, written, name), Err(Unreadable(path)))
        else if key.None? then (written, Err(NoSchema(name)))
        else (written.(session := w.session[key.value := path]), Ok(data))
  {
    hide Locate;
    if df.resolve(name).Some? {
      var key := df.resolve(name).value;
      assert (w.session - {key})[key := path] == w.session[key := path];
    }
  }

  // ---- The commands on views ----

  /** Run the query and store its answer (`materialize_query_to_parquet`). */
  function Materialize(df: DataFusion, w: World, name: string, sql: string): (World, Result<Data, ViewError>) {
    match df.answer(sql, Tables(df, w))
    case Failed => (w, Err(QueryFailed))
    case NoBatches => (w, Err(EmptyResult))
    case Batches(data) => Store(df, w, name, ViewPath(w.root, name), data)
  }

  function CreateView(df: DataFusion, w: World, sql: string): (World, Result<(string, Data), ViewError>) {
    var parsed := ParseCreateView(sql);
    if parsed.Err? then (w, Err(Refused(parsed.error)))
    else
      var ViewDefinition(name, query) := parsed.value;
      if name in w.catalog then (w, Err(AlreadyExists(name)))
      else
        var (next, made) := Materialize(df, w, name, query);
        if made.Err? then (next, Err(made.error))
        else (next.(catalog := next.catalog[name := View(query, ViewPath(w.root, name))]), Ok((name, made.value)))
  }

  const REFRESH := "REFRESH MATERIALIZED VIEW"
  const DROP := "DROP MATERIALIZED VIEW"

  /** The first word after the keywords, without a trailing semicolon. */
  function NameArgument(sql: string, keywords: string): (name: Option<string>)
    requires |keywords| <= |sql|
  {
    var rest := Trim(WarehouseCommands.StripRight(Trim(sql[|keywords|..]), ';'));
    var n := TokenLength(rest);
    if n == 0 then None else Some(rest[..n])
  }

  function RefreshView(df: DataFusion, w: World, sql: string): (World, Result<(string, Data), ViewError>)
    requires |REFRESH| <= |sql|
  {
    var name := NameArgument(sql, REFRESH);
    if name.None? then (w, Err(NoName))
    else if name.value !in w.catalog then (w, Err(NotFound(name.value)))
    else
      var view := w.catalog[name.value];
      var (next, made) := Materialize(df, w, name.value, view.sql);
      if made.Err? then (next, Err(made.error))
      else
        var row := View(view.sql, ViewPath(w.root, name.value));
        (next.(catalog := next.catalog[name.value := row]), Ok((name.value, made.value)))
  }

  /** A name that is no view is still deregistered before the command fails. */
  function DropView(df: DataFusion, w: World, sql: string): (World, Result<string, ViewError>)
    requires |DROP| <= |sql|
  {
    var name := NameArgument(sql, DROP);
    if name.None? then (w, Err(NoName))
    else
      var next := Deregister(df, w, name.value);
      if name.value !in w.catalog then (next, Err(NotFound(name.value)))
      else
        (next.(files := w.files - {w.File(w.catalog[name.value].path)}, catalog := w.catalog - {name.value}),
         Ok(name.value))
  }

  // ---- The commands on tables ----

  function ParseCreateTable(sql: string): Result<ViewDefinition, CommandError>
    requires KeywordsEnd(sql, ["CREATE", "TABLE"], 0).Some?
  {
    var header := KeywordsEnd(sql, ["CREATE", "TABLE"], 0).value;
    var clause := FindAs(sql, header);
    if clause.None? then Err(MissingAs)
    else
      var name := Trim(sql[header..clause.value.0]);
      if !IsSafeIdentifier(name) then Err(BadIdentifier(name))
      else
        var query := ValidateMaterializationQuery(sql[clause.value.1..]);
        if query.Err? then Err(query.error) else Ok(ViewDefinition(name, query.value))
  }

  /** CREATE TABLE AS; an empty answer changes nothing and is no error. */
  function CreateTableAs(df: DataFusion, w: World, sql: string): (World, Result<Data, ViewError>)
    requires KeywordsEnd(sql, ["CREATE", "TABLE"], 0).Some?
  {
    var parsed := ParseCreateTable(sql);
    if parsed.Err? then (w, Err(Refused(parsed.error)))
    else
      var ViewDefinition(name, query) := parsed.value;
      match df.answer(query, Tables(df, w))
      case Failed => (w, Err(QueryFailed))
      case NoBatches => (w, Ok([]))
      case Batches(data) => Store(df, w, name, TablePath(w.root, name), data)
  }

  function Words(s: string): (words: seq<string>)
    decreases |s|
  {
    var rest := TrimStart(s);
    if rest == "" then [] else [rest[..TokenLength(rest)]] + Words(rest[TokenLength(rest)..])
  }

  /** The third word, or the fifth behind IF EXISTS. */
  function TableArgument(sql: string): string {
    var words := Words(sql);
    var k := if |words| >= 5 && EqualsIgnoreCase(words[2], "if") && EqualsIgnoreCase(words[3], "exists") then 4 else 2;
    if k < |words| then words[k] else ""
  }

  function WithoutQuotes(s: string): string {
    if s == "" then ""
    else (if s[0] == '\'' || s[0] == '"' then "" else [s[0]]) + WithoutQuotes(s[1..])
  }

  /** DROP TABLE takes any word for a name; one of a missing schema fails before the file is looked for. */
  function DropTable(df: DataFusion, w: World, table: string): (World, Result<string, ViewError>) {
    var name := WithoutQuotes(table);
    if df.resolve(name).None? then (w, Err(NoSchema(name)))
    else (Deregister(df, w, name).(files := w.files - {w.File(RawTablePath(w.root, name))}), Ok(name))
  }

  // ---- Starting ----

  /** The tables on disk, in the order the directory lists them; the first refusal stops the start. */
  function RegisterTables(df: DataFusion, w: World, stems: seq<string>): Result<World, ViewError>
    decreases |stems|
  {
    if stems == [] then Ok(w)
    else
      var next := Register(df, w, stems[0], RawTablePath(w.root, stems[0]));
      if next.Err? then next else RegisterTables(df, next.value, stems[1..])
  }

  /** A view whose file is missing or whose registration is refused is passed over with a warning. */
  function RegisterView(df: DataFusion, w: World, name: string): World {
    if name !in w.catalog || w.File(w.catalog[name].path) !in w.files then w
    else
      var next := Register(df, w, name, w.catalog[name].path);
      if next.Ok? then next.value else w
  }

  function RegisterViews(df: DataFusion, w: World, names: seq<string>): World
    decreases |names|
  {
    if names == [] then w else RegisterViews(df, RegisterView(df, w, names[0]), names[1..])
  }

  /** What the catalog lists: every view once, in ascending order. */
  ghost predicate Lists(w: World, names: seq<string>) {
    Ascending(names) && forall n :: n in names <==> n in w.catalog
  }

  /** A restart keeps the catalog and the files and fills an empty session: first with the tables, then with the views. */
  function Restart(df: DataFusion, w: World, stems: seq<string>, names: seq<string>): Result<World, ViewError> {
    var tables := RegisterTables(df, w.(session := map[]), stems);
    if tables.Err? then tables else Ok(RegisterViews(df, tables.value, names))
  }

  class Engine {
    const df: DataFusion
    const cwd: Location
    const root: string
    var catalog: map<string, View>
    var files: map<Location, Data>
    var session: map<string, string>

    constructor (df: DataFusion, cwd: Location, root: string, catalog: map<string, View>, files: map<Location, Data>)
      ensures this.df == df && Now() == World(cwd, root, catalog, files, map[])
    {
      this.df, this.cwd, this.root, this.catalog, this.files := df, cwd, root, catalog, files;
      session := map[];
    }

    function Now(): World
      reads this
    {
      World(cwd, root, catalog, files, session)
    }

    method DeregisterTable(name: string) returns (r: Result<(), ViewError>)
      modifies this`session
      ensures Now() == Deregister(df, old(Now()), name)
      ensures r == if df.resolve(name).Some? then Ok(()) else Err(NoSchema(name))
    {
      var key := df.resolve(name);
      if key.None? {
        return Err(NoSchema(name));
      }
      session := session - {key.value};
      r := Ok(());
    }

    method RegisterParquet(name: string, source: string) returns (r: Result<(), ViewError>)
      modifies this`session
      ensures var registered := Register(df, old(Now()), name, source);
        if registered.Ok? then Now() == registered.value && r == Ok(())
        else Now() == old(Now()) && r == Err(registered.error)
    {
      if !df.readable(source, files.Keys) {
        return Err(Unreadable(source));
      }
      var key := df.resolve(name);
      if key.None? {
        return Err(NoSchema(name));
      }
      if key.value in session {
        return Err(NameTaken(name));
      }
      session := session[key.value := source];
      r := Ok(());
    }

    method MaterializeQueryToParquet(name: string, sql: string) returns (r: Result<Data, ViewError>)
      modifies this
      ensures (Now(), r) == Materialize(df, old(Now()), name, sql)
    {
      hide ViewPath, Locate, Tables;
      match df.answer(sql, Tables(df, Now())) {
        case Failed => r := Err(QueryFailed);
        case NoBatches => r := Err(EmptyResult);
        case Batches(data) =>
          var path := ViewPath(root, name);
          files := files[Locate(cwd, path) := data];
          var ignored := DeregisterTable(name);
          var registered := RegisterParquet(name, path);
          r := if registered.Ok? then Ok(data) else Err(registered.error);
      }
    }

    method HandleCreateMaterializedView(sql: string) returns (r: Result<(string, Data), ViewError>)
      modifies this
      ensures (Now(), r) == CreateView(df, old(Now()), sql)
    {
      hide ParseCreateView, Materialize;
      var parsed := ParseCreateView(sql);
      if parsed.Err? {
        return Err(Refused(parsed.error));
      }
      var ViewDefinition(name, query) := parsed.value;
      if name in catalog {
        return Err(AlreadyExists(name));
      }
      var made := MaterializeQueryToParquet(name, query);
      if made.Err? {
        return Err(made.error);
      }
      catalog := catalog[name := View(query, ViewPath(root, name))];
      r := Ok((name, made.value));
    }

    method HandleRefreshMaterializedView(sql: string) returns (r: Result<(string, Data), ViewError>)
      requires |REFRESH| <= |sql|
      modifies this
      ensures (Now(), r) == RefreshView(df, old(Now()), sql)
    {
      hide NameArgument, Materialize;
      var name := NameArgument(sql, REFRESH);
      if name.None? {
        return Err(NoName);
      }
      if name.value !in catalog {
        return Err(NotFound(name.value));
      }
      var view := catalog[name.value];
      var made := MaterializeQueryToParquet(name.value, view.sql);
      if made.Err? {
        return Err(made.error);
      }
      catalog := catalog[name.value := View(view.sql, ViewPath(root, name.value))];
      r := Ok((name.value, made.value));
    }

    method HandleDropMaterializedView(sql: string) returns (r: Result<string, ViewError>)
      requires |DROP| <= |sql|
      modifies this
      ensures (Now(), r) == DropView(df, old(Now()), sql)
    {
      hide NameArgument, Locate;
      var name := NameArgument(sql, DROP);
      if name.None? {
        return Err(NoName);
      }
      var ignored := DeregisterTable(name.value);
      if name.value in catalog {
        var file := Locate(cwd, catalog[name.value].path);
        if file in files {
          files := files - {file};
        }
        assert files == old(files) - {file};
        catalog := catalog - {name.value};
        return Ok(name.value);
      }
      r := Err(NotFound(name.value));
    }

    method HandleCtas(sql: string) returns (r: Result<Data, ViewError>)
      requires KeywordsEnd(sql, ["CREATE", "TABLE"], 0).Some?
      modifies this
      ensures (Now(), r) == CreateTableAs(df, old(Now()), sql)
    {
      hide ParseCreateTable, TablePath, Locate, Tables, KeywordsEnd;
      var parsed := ParseCreateTable(sql);
      if parsed.Err? {
        return Err(Refused(parsed.error));
      }
      var ViewDefinition(name, query) := parsed.value;
      match df.answer(query, Tables(df, Now())) {
        case Failed => r := Err(QueryFailed);
        case NoBatches => r := Ok([]);
        case Batches(data) =>
          var path := TablePath(root, name);
          files := files[Locate(cwd, path) := data];
          var ignored := DeregisterTable(name);
          var registered := RegisterParquet(name, path);
          r := if registered.Ok? then Ok(data) else Err(registered.error);
      }
    }

    method HandleDropTable(table: string) returns (r: Result<string, ViewError>)
      modifies this
      ensures (Now(), r) == DropTable(df, old(Now()), table)
    {
      hide WithoutQuotes, Locate;
      var name := WithoutQuotes(table);
      var deregistered := DeregisterTable(name);
      if deregistered.Err? {
        return Err(deregistered.error);
      }
      var file := Locate(cwd, RawTablePath(root, name));
      if file in files {
        files := files - {file};
      }
      assert files == old(files) - {file};
      r := Ok(name);
    }

    /** The server's start: every Parquet file of the tables' directory is registered under its stem. */
    method RegisterWarehouseTables(stems: seq<string>) returns (r: Result<(), ViewError>)
      modifies this`session
      ensures var tables := RegisterTables(df, old(Now()), stems);
        if tables.Ok? then Now() == tables.value && r == Ok(()) else r == Err(tables.error)
    {
      hide Register, RawTablePath;
      for i := 0 to |stems|
        invariant RegisterTables(df, Now(), stems[i..]) == RegisterTables(df, old(Now()), stems)
      {
        assert stems[i..][1..] == stems[i + 1..];
        var registered := RegisterParquet(stems[i], RawTablePath(root, stems[i]));
        if registered.Err? {
          return Err(registered.error);
        }
      }
      r := Ok(());
    }

    /** The worker's start: the catalog's listing is registered, passing over what cannot be. */
    method RegisterMaterializedViews(names: seq<string>)
      requires Lists(Now(), names)
      modifies this`session
      ensures Now() == RegisterViews(df, old(Now()), names)
    {
      hide Register, Locate, Ascending;
      for i := 0 to |names|
        invariant RegisterViews(df, Now(), names[i..]) == RegisterViews(df, old(Now()), names)
      {
        assert names[i..][1..] == names[i + 1..];
        assert names[i] in names;
        var path := catalog[names[i]].path;
        if Locate(cwd, path) in files {
          var registered := RegisterParquet(names[i], path);
        }
      }
    }
  }

  // ---- What the tools print ----

  /** One word without a semicolon behind the keywords is the name that is read. */
  lemma NameIsRead(keywords: string, name: string)
    requires name != "" && forall i :: 0 <= i < |name| ==> !IsWhitespace(name[i]) && name[i] != ';'
    ensures NameArgument(keywords + " " + name, keywords) == Some(name)
  {
    hide IsWhitespace;
    var sql := keywords + " " + name;
    assert sql[|keywords|..] == " " + name + "";
    SqlTools.TrimOfPadded(name, "");
    assert WarehouseCommands.StripRight(name, ';') == name;
    WarehouseCommands.TrimOfTrimmed(name);
    SqlTools.TokenAt(name, "");
    assert name + "" == name && name[..|name|] == name;
  }

  lemma {:induction false} StripSemicolons(core: string, semicolons: string)
    requires (core == "" || core[|core| - 1] != ';') && forall i :: 0 <= i < |semicolons| ==> semicolons[i] == ';'
    ensures WarehouseCommands.StripRight(core + semicolons, ';') == core
  {
    if semicolons == "" {
      assert core + semicolons == core;
    } else {
      var n, all := |semicolons| - 1, core + semicolons;
      assert all[..|all| - 1] == core + semicolons[..n] && all[|all| - 1] == semicolons[n];
      StripSemicolons(core, semicolons[..n]);
    }
  }

  /** Behind the keywords a name is read with any blanks around it and any semicolons at the end. */
  lemma NameIsReadAmong(keywords: string, lead: string, name: string, gap: string, semicolons: string, tail: string)
    requires name != "" && forall i :: 0 <= i < |name| ==> !IsWhitespace(name[i]) && name[i] != ';'
    requires Blank(lead) && Blank(gap) && Blank(tail) && forall i :: 0 <= i < |semicolons| ==> semicolons[i] == ';'
    ensures NameArgument(keywords + (lead + (name + gap + semicolons) + tail), keywords) == Some(name)
  {
    hide Trim, IsWhitespace, TokenLength, WarehouseCommands.StripRight;
    var sql := keywords + (lead + (name + gap + semicolons) + tail);
    assert sql[|keywords|..] == lead + (name + gap + semicolons) + tail;
    assert !IsWhitespace(';') by {
      SemicolonIsNoBlank();
    }
    var inner := if semicolons == "" then name else name + gap + semicolons;
    if semicolons == "" {
      assert Blank(gap + tail);
      assert lead + (name + gap + semicolons) + tail == lead + name + (gap + tail);
      TrimBetween(lead, name, gap + tail);
      StripSemicolons(name, "");
      assert name + "" == name;
      TrimBetween("", name, "");
      assert "" + name + "" == name;
    } else {
      TrimBetween(lead, inner, tail);
      GapEnds(name, gap);
      StripSemicolons(name + gap, semicolons);
      TrimBetween("", name, gap);
      assert "" + name + gap == name + gap;
    }
    SqlTools.TokenAt(name, "");
    assert name + "" == name && name[..|name|] == name;
  }

  lemma TrimOfBlank(blanks: string)
    requires Blank(blanks)
    ensures Trim(blanks) == ""
  {
    TrimStartOf(blanks, "");
    assert blanks + "" == blanks;
  }

  /** Blanks and semicolons alone are no name. */
  lemma NoNameIsRead(keywords: string, lead: string, semicolons: string, tail: string)
    requires Blank(lead) && Blank(tail) && forall i :: 0 <= i < |semicolons| ==> semicolons[i] == ';'
    ensures NameArgument(keywords + (lead + semicolons + tail), keywords) == None
  {
    hide Trim, IsWhitespace, TokenLength, WarehouseCommands.StripRight;
    assert (keywords + (lead + semicolons + tail))[|keywords|..] == lead + semicolons + tail;
    if semicolons == "" {
      assert Blank(lead + tail) && lead + semicolons + tail == lead + tail;
      TrimOfBlank(lead + tail);
    } else {
      SemicolonIsNoBlank();
      TrimBetween(lead, semicolons, tail);
    }
    StripSemicolons("", semicolons);
    assert "" + semicolons == semicolons;
    StripSemicolons("", "");
    assert "" + "" == "";
    TrimOfBlank("");
  }

  lemma SemicolonIsNoBlank()
    ensures !IsWhitespace(';')
  {
  }

  lemma GapEnds(name: string, gap: string)
    requires name != "" && name[|name| - 1] != ';' && Blank(gap)
    ensures (name + gap)[|name + gap| - 1] != ';'
  {
  }

  lemma IdentifierChars(name: string)
    requires forall i :: 0 <= i < |name| ==> IsIdentChar(name[i])
    ensures forall i :: 0 <= i < |name| ==> !IsWhitespace(name[i]) && name[i] != ';'
  {
  }

  /** The statements the refresh and drop tools print reach their handlers, which read the name back. */
  lemma ViewNameRoundTrip(name: string)
    requires IsSafeIdentifier(name)
    ensures SqlTools.Dispatch(REFRESH + " " + name) == SqlTools.RefreshView(REFRESH + " " + name)
    ensures NameArgument(REFRESH + " " + name, REFRESH) == Some(name)
    ensures SqlTools.Dispatch(DROP + " " + name) == SqlTools.DropView(DROP + " " + name)
    ensures NameArgument(DROP + " " + name, DROP) == Some(name)
  {
    hide NameArgument, SqlTools.Dispatch;
    IdentifierChars(name);
    NameIsRead(REFRESH, name);
    NameIsRead(DROP, name);
    assert IsWhitespace((" " + name)[0]);
    SqlTools.RefreshDispatches(" " + name);
    SqlTools.DropDispatches(" " + name);
    assert REFRESH + " " + name == REFRESH + (" " + name) && DROP + " " + name == DROP + (" " + name);
  }
}
