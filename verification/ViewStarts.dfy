/**
 Which stores a server can start from, and over which runs of commands they stay so: the start registers every
 table on disk, and one that is refused stops it (`register_warehouse_tables`).
 */
module ViewStarts {
  import opened Text
  import opened SqlCommands
  import opened WarehousePaths
  import opened MaterializedViews
  import opened ViewAgreement
  import opened ViewRuns

  /** Every table on disk can be read and has a key, and no two tables share one. */
  ghost predicate CanStart(df: DataFusion, w: World) {
    && (forall s :: OnDisk(w, s) ==> IsStartable(df, w, s))
    && (forall s, t :: OnDisk(w, s) && OnDisk(w, t) && s != t ==> df.resolve(s) != df.resolve(t))
  }

  predicate IsStartable(df: DataFusion, w: World, stem: string) {
    df.resolve(stem).Some? && df.readable(RawTablePath(w.root, stem), w.files.Keys)
  }

  /** A start on what the directory lists comes up exactly when the stores can start, in whatever order it lists. */
  lemma StartComesUpIff(df: DataFusion, w: World, stems: seq<string>, names: seq<string>)
    requires ListsTables(w, stems)
    ensures Restart(df, w, stems, names).Ok? <==> CanStart(df, w)
  {
    hide OnDisk, RawTablePath;
    var empty := w.(session := map[]);
    TablesRegisterIff(df, empty, stems);
    hide RegisterTables, RegisterViews;
    assert forall i :: 0 <= i < |stems| ==> stems[i] in stems && OnDisk(w, stems[i]);
    if AreRegistrable(df, empty, stems) {
      forall s, t | OnDisk(w, s) && OnDisk(w, t) && s != t
        ensures df.resolve(s) != df.resolve(t)
      {
        assert s in stems && t in stems;
      }
    }
  }

  // ---- What the commands do to the tables on disk ----

  /** The Parquet files of the tables' directory can be read where they are. */
  ghost predicate TablesAreReadable(df: DataFusion, cwd: Location, root: string) {
    forall s, files :: IsStem(s) && Locate(cwd, RawTablePath(root, s)) in files ==> df.readable(RawTablePath(root, s), files)
  }

  /** The command writes the file of the table `s`. */
  ghost predicate Makes(df: DataFusion, w: World, op: Op, s: string)
    requires WellFormed(df, w, op)
  {
    op.TableAsOp? && WrittenTable(df, w, op.sql).Some? && WrittenTable(df, w, op.sql).value.0 == s
  }

  /** The command removes the file of the table `s`. */
  ghost predicate Removes(df: DataFusion, w: World, op: Op, s: string) {
    op.DropTableOp? && df.resolve(WithoutQuotes(op.table)).Some?
    && w.File(RawTablePath(w.root, WithoutQuotes(op.table))) == w.File(RawTablePath(w.root, s))
  }

  /** CREATE TABLE AS adds its table, DROP TABLE takes those away that its path leads to, and no other command changes the tables on disk. */
  lemma ApplyChangesDisk(df: DataFusion, w: World, last: map<string, Data>, op: Op, s: string)
    requires WellFormed(df, w, op) && Agrees(df, w, last) && IsStem(s)
    ensures var next := Apply(df, w, last, op).0;
      && next.cwd == w.cwd && next.root == w.root
      && (OnDisk(next, s) <==> Makes(df, w, op, s) || (OnDisk(w, s) && !Removes(df, w, op, s)))
  {
    hide Agrees, WithoutQuotes, Locate, RawTablePath, KeywordsEnd, Lists, IsStem, ParseCreateTable, Register, CreateView, RefreshView,
      DropView, Store, TablePath, Tables, ListsTables, Restart;
    match op
    case CreateOp(sql) => CreateKeepsTables(df, w, sql, s);
    case RefreshOp(sql) => RefreshKeepsTables(df, w, last, sql, s);
    case DropOp(sql) => DropKeepsTables(df, w, last, sql, s);
    case TableAsOp(sql) =>
      var written := WrittenTable(df, w, sql);
      if written.Some? {
        ParsedTableIsSafe(sql);
        StoreIs(df, w, written.value.0, TablePath(w.root, written.value.0), written.value.1);
        TablesAreSameIff(w, written.value.0, s);
      }
    case DropTableOp(table) =>
    case RegisterOp(name, source) => RegisterKeepsFiles(df, w, name, source);
    case RestartOp(stems, names) => RestartKeepsFiles(df, w, last, stems, names);
  }

  /** The two stores hold the same directories and the same file, or lack of one, for the table `s`. */
  predicate SameTable(w: World, v: World, s: string) {
    v.cwd == w.cwd && v.root == w.root && (OnDisk(v, s) <==> OnDisk(w, s))
  }

  lemma CreateKeepsTables(df: DataFusion, w: World, sql: string, s: string)
    requires IsStem(s)
    ensures SameTable(w, CreateView(df, w, sql).0, s)
  {
    hide Locate, RawTablePath, ViewPath, IsStem, ParseCreateView, Store, Tables;
    if Written(df, w, sql).Some? {
      var (name, data) := Written(df, w, sql).value;
      ParsedViewIsValid(sql);
      StoreIs(df, w, name, ViewPath(w.root, name), data);
      ViewIsNoTable(w, name, s);
    }
  }

  lemma RefreshKeepsTables(df: DataFusion, w: World, last: map<string, Data>, sql: string, s: string)
    requires IsStem(s) && Agrees(df, w, last) && |REFRESH| <= |sql|
    ensures SameTable(w, RefreshView(df, w, sql).0, s)
  {
    hide Agrees, Locate, RawTablePath, ViewPath, IsStem, NameArgument, Store, Tables;
    var argument := NameArgument(sql, REFRESH);
    if argument.Some? && argument.value in w.catalog {
      var name := argument.value;
      var answer := df.answer(w.catalog[name].sql, Tables(df, w));
      if answer.Batches? {
        StoreIs(df, w, name, ViewPath(w.root, name), answer.data);
        CatalogNameIsSafe(df, w, last, name);
        ViewIsNoTable(w, name, s);
      }
    }
  }

  lemma DropKeepsTables(df: DataFusion, w: World, last: map<string, Data>, sql: string, s: string)
    requires IsStem(s) && Agrees(df, w, last) && |DROP| <= |sql|
    ensures SameTable(w, DropView(df, w, sql).0, s)
  {
    hide Agrees, Locate, RawTablePath, ViewPath, IsStem, NameArgument;
    var argument := NameArgument(sql, DROP);
    if argument.Some? && argument.value in w.catalog {
      CatalogNameIsSafe(df, w, last, argument.value);
      ViewIsNoTable(w, argument.value, s);
    }
  }

  lemma CatalogNameIsSafe(df: DataFusion, w: World, last: map<string, Data>, name: string)
    requires Agrees(df, w, last) && name in w.catalog
    ensures IsSafeIdentifier(name) && w.File(w.catalog[name].path) == w.File(ViewPath(w.root, name))
  {
    hide ValidateMaterializationQuery, IsSafeIdentifier, Locate, ViewPath, IsPlain;
    assert ViewAgrees(df, w, last, name);
  }

  lemma ViewIsNoTable(w: World, name: string, s: string)
    requires IsSafeIdentifier(name) && IsStem(s)
    ensures w.File(ViewPath(w.root, name)) != w.File(RawTablePath(w.root, s))
  {
    hide IsSafeIdentifier, Locate, ViewPath, RawTablePath, IsComponent;
    TableFilesAreNoViews(w.cwd, w.root, name, s);
    ViewPathLeads(w.cwd, w.root, name);
  }

  lemma TablesAreSameIff(w: World, name: string, s: string)
    requires IsSafeIdentifier(name) && IsStem(s)
    ensures w.File(TablePath(w.root, name)) == w.File(RawTablePath(w.root, s)) <==> name == s
    ensures IsStem(name)
  {
    hide IsSafeIdentifier, Locate, TablePath, RawTablePath, IsComponent;
    SafeNameIsComponent(name);
    TableFileIs(w.cwd, w.root, name);
    TableFileIs(w.cwd, w.root, s);
    var k := |Base(w.cwd, w.root)| + 2;
    assert w.File(TablePath(w.root, name))[k] == name + SUFFIX && w.File(RawTablePath(w.root, s))[k] == s + SUFFIX;
    assert (name + SUFFIX)[..|name + SUFFIX| - |SUFFIX|] == name && (s + SUFFIX)[..|s + SUFFIX| - |SUFFIX|] == s;
    assert name != "" by {
      SafeIsNotEmpty(name);
    }
  }

  lemma SafeIsNotEmpty(name: string)
    requires IsSafeIdentifier(name)
    ensures name != ""
  {
  }

  lemma RegisterKeepsFiles(df: DataFusion, w: World, name: string, source: string)
    ensures var r := Register(df, w, name, source); r.Ok? ==> r.value == w.(session := r.value.session)
  {
  }

  lemma RestartKeepsFiles(df: DataFusion, w: World, last: map<string, Data>, stems: seq<string>, names: seq<string>)
    requires Agrees(df, w, last) && Lists(w, names) && Restart(df, w, stems, names).Ok?
    ensures var next := Restart(df, w, stems, names).value; next == w.(session := next.session)
  {
    hide Agrees, RegisterTables, RegisterViews, Ascending;
    TablesRegistered(df, w.(session := map[]), stems);
    ViewsRegistered(df, w, last, RegisterTables(df, w.(session := map[]), stems).value, names);
  }

  // ---- Which commands keep a start possible ----

  /** A CREATE TABLE AS that writes a new table gives it a name with a key that no table on disk has. */
  ghost predicate KeepsStart(df: DataFusion, w: World, op: Op)
    requires WellFormed(df, w, op)
  {
    forall t :: Makes(df, w, op, t) && !OnDisk(w, t) ==>
      df.resolve(t).Some? && forall s :: OnDisk(w, s) ==> df.resolve(s) != df.resolve(t)
  }

  /** A command leaves stores that can start again exactly when a table it makes has a key of its own. */
  lemma ApplyCanStartIff(df: DataFusion, w: World, last: map<string, Data>, op: Op)
    requires WellFormed(df, w, op) && Agrees(df, w, last)
    requires TablesAreReadable(df, w.cwd, w.root) && CanStart(df, w)
    ensures CanStart(df, Apply(df, w, last, op).0) <==> KeepsStart(df, w, op)
  {
    hide Agrees, Apply, WellFormed, Makes, Removes, IsStem, RawTablePath, Locate;
    var next := Apply(df, w, last, op).0;
    forall s | IsStem(s)
      ensures OnDisk(next, s) <==> Makes(df, w, op, s) || (OnDisk(w, s) && !Removes(df, w, op, s))
      ensures next.cwd == w.cwd && next.root == w.root
      ensures OnDisk(next, s) ==> df.readable(RawTablePath(w.root, s), next.files.Keys)
    {
      ApplyChangesDisk(df, w, last, op, s);
    }
    SomeStem();
    MakesOneStem(df, w, op);
    KeepsNamesIff(df, w, next, op);
  }

  lemma MakesOneStem(df: DataFusion, w: World, op: Op)
    requires WellFormed(df, w, op)
    ensures forall t :: Makes(df, w, op, t) ==> IsStem(t) && !op.DropTableOp?
    ensures forall t, u :: Makes(df, w, op, t) && Makes(df, w, op, u) ==> t == u
  {
    hide ParseCreateTable, KeywordsEnd, Tables, IsSafeIdentifier, IsComponent, Lists, ListsTables, Restart;
    if op.TableAsOp? && WrittenTable(df, w, op.sql).Some? {
      var name := WrittenTable(df, w, op.sql).value.0;
      ParsedTableIsSafe(op.sql);
      SafeNameIsComponent(name);
      SafeIsNotEmpty(name);
    }
  }

  lemma SomeStem()
    ensures IsStem("t")
  {
    assert "t" + SUFFIX == "t.parquet";
  }

  lemma KeepsNamesIff(df: DataFusion, w: World, next: World, op: Op)
    requires WellFormed(df, w, op) && CanStart(df, w) && next.root == w.root
    requires forall s :: OnDisk(next, s) <==> Makes(df, w, op, s) || (OnDisk(w, s) && !Removes(df, w, op, s))
    requires forall s :: OnDisk(next, s) ==> df.readable(RawTablePath(w.root, s), next.files.Keys)
    requires forall t, u :: Makes(df, w, op, t) && Makes(df, w, op, u) ==> t == u
    requires forall t :: Makes(df, w, op, t) ==> !op.DropTableOp?
    ensures CanStart(df, next) <==> KeepsStart(df, w, op)
  {
    hide OnDisk, Makes, WellFormed, RawTablePath;
  }

  // ---- Runs ----

  ghost predicate CanStartThroughout(df: DataFusion, w: World, last: map<string, Data>, ops: seq<Op>)
    requires WellFormedRun(df, w, last, ops)
    decreases |ops|
  {
    CanStart(df, w)
    && (ops != [] ==> var (next, last') := Apply(df, w, last, ops[0]); CanStartThroughout(df, next, last', ops[1..]))
  }

  ghost predicate KeepsStartThroughout(df: DataFusion, w: World, last: map<string, Data>, ops: seq<Op>)
    requires WellFormedRun(df, w, last, ops)
    decreases |ops|
  {
    ops != [] ==>
      KeepsStart(df, w, ops[0])
      && var (next, last') := Apply(df, w, last, ops[0]); KeepsStartThroughout(df, next, last', ops[1..])
  }

  /**
   Over a run that agrees throughout, a server can start again at every moment exactly when every table that was
   made had a key of its own.
   */
  lemma {:induction false} RunCanStartIff(df: DataFusion, w: World, last: map<string, Data>, ops: seq<Op>)
    requires WellFormedRun(df, w, last, ops) && AgreesThroughout(df, w, last, ops)
    requires TablesAreReadable(df, w.cwd, w.root) && CanStart(df, w)
    ensures CanStartThroughout(df, w, last, ops) <==> KeepsStartThroughout(df, w, last, ops)
    decreases |ops|
  {
    hide Agrees, Apply, CanStart, KeepsStart, WellFormed, TablesAreReadable, IsStem;
    if ops != [] {
      var (next, last') := Apply(df, w, last, ops[0]);
      ApplyCanStartIff(df, w, last, ops[0]);
      SomeStem();
      ApplyChangesDisk(df, w, last, ops[0], "t");
      if CanStart(df, next) {
        RunCanStartIff(df, next, last', ops[1..]);
      } else {
        NoStartThroughout(df, next, last', ops[1..]);
      }
    }
  }

  lemma NoStartThroughout(df: DataFusion, w: World, last: map<string, Data>, ops: seq<Op>)
    requires WellFormedRun(df, w, last, ops) && !CanStart(df, w)
    ensures !CanStartThroughout(df, w, last, ops)
  {
  }

  lemma EmptyWarehouseCanStart(df: DataFusion, cwd: Location, root: string)
    ensures CanStart(df, World(cwd, root, map[], map[], map[]))
  {
  }

  /** CREATE TABLE AS of `a` beside a table `A`, where both have one key, leaves two files, and the next start is refused. */
  lemma FoldedTablesStopStart(
    df: DataFusion, w: World, last: map<string, Data>, sql: string, stems: seq<string>, names: seq<string>)
    requires Agrees(df, w, last) && OnDisk(w, "A") && SameKey(df, "A", "a")
    requires KeywordsEnd(sql, ["CREATE", "TABLE"], 0).Some?
    requires WrittenTable(df, w, sql).Some? && WrittenTable(df, w, sql).value.0 == "a"
    requires ListsTables(CreateTableAs(df, w, sql).0, stems)
    ensures var next := CreateTableAs(df, w, sql).0;
      OnDisk(next, "A") && OnDisk(next, "a") && Restart(df, next, stems, names).Err?
  {
    hide Agrees, OnDisk, WrittenTable, CreateTableAs, KeywordsEnd, Restart, ListsTables;
    var op := TableAsOp(sql);
    ParsedTableIsStem(df, w, op, "a");
    OnDiskIsStem(w, "A");
    ApplyChangesDisk(df, w, last, op, "A");
    ApplyChangesDisk(df, w, last, op, "a");
    StartComesUpIff(df, CreateTableAs(df, w, sql).0, stems, names);
  }

  lemma ParsedTableIsStem(df: DataFusion, w: World, op: Op, t: string)
    requires WellFormed(df, w, op) && Makes(df, w, op, t)
    ensures IsStem(t)
  {
    hide IsStem, WellFormed, Makes;
    MakesOneStem(df, w, op);
  }

  lemma OnDiskIsStem(w: World, s: string)
    requires OnDisk(w, s)
    ensures IsStem(s)
  {
  }
}
