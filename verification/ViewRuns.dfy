/** Restarts, and the agreement of the stores over whole runs of commands and restarts. */
module ViewRuns {
  import opened Text
  import opened SqlCommands
  import opened WarehousePaths
  import opened MaterializedViews
  import opened ViewAgreement
  import SqlTools

  // ---- Restarts ----

  /** A Parquet file that the tables' directory lists under this stem. */
  predicate IsStem(stem: string) {
    stem != "" && IsComponent(stem + SUFFIX)
  }

  /** The tables' directory has a file with this stem. */
  predicate OnDisk(w: World, stem: string) {
    IsStem(stem) && w.File(RawTablePath(w.root, stem)) in w.files
  }

  /** What the directory lists: every table on disk once, in any order. */
  ghost predicate ListsTables(w: World, stems: seq<string>) {
    && (forall s :: s in stems <==> OnDisk(w, s))
    && (forall i, j :: 0 <= i < j < |stems| ==> stems[i] != stems[j])
  }

  /** `k` is the key of some stem, registered with that stem's file. */
  ghost predicate TableAt(df: DataFusion, root: string, stems: seq<string>, k: string, path: string) {
    exists s :: s in stems && df.resolve(s) == Some(k) && path == RawTablePath(root, s)
  }

  lemma {:induction false} TablesRegistered(df: DataFusion, w: World, stems: seq<string>)
    requires RegisterTables(df, w, stems).Ok?
    ensures var end := RegisterTables(df, w, stems).value;
      && end == w.(session := end.session)
      && (forall k :: k in w.session ==> k in end.session && end.session[k] == w.session[k])
      && (forall s :: s in stems ==> df.resolve(s).Some? && df.resolve(s).value in end.session
                                     && end.session[df.resolve(s).value] == RawTablePath(w.root, s))
      && (forall k :: k in end.session && k !in w.session ==> TableAt(df, w.root, stems, k, end.session[k]))
    decreases |stems|
  {
    hide RawTablePath;
    if stems != [] {
      var next := Register(df, w, stems[0], RawTablePath(w.root, stems[0])).value;
      TablesRegistered(df, next, stems[1..]);
      var end := RegisterTables(df, w, stems).value;
      assert forall s :: s in stems <==> s == stems[0] || s in stems[1..];
      forall k | k in end.session && k !in w.session
        ensures TableAt(df, w.root, stems, k, end.session[k])
      {
        if k in next.session {
          assert stems[0] in stems && df.resolve(stems[0]) == Some(k);
        }
      }
    }
  }

  /** Every file can be read, every stem has a key, no key is in the session already, and no two stems share one. */
  predicate AreRegistrable(df: DataFusion, w: World, stems: seq<string>) {
    && (forall i :: 0 <= i < |stems| ==>
          && df.readable(RawTablePath(w.root, stems[i]), w.files.Keys)
          && df.resolve(stems[i]).Some? && df.resolve(stems[i]).value !in w.session)
    && (forall i, j :: 0 <= i < j < |stems| ==> df.resolve(stems[i]) != df.resolve(stems[j]))
  }

  /** The tables on disk are registered exactly when they can be read and their keys are free; otherwise the server does not start. */
  lemma {:induction false} TablesRegisterIff(df: DataFusion, w: World, stems: seq<string>)
    ensures RegisterTables(df, w, stems).Ok? <==> AreRegistrable(df, w, stems)
    decreases |stems|
  {
    hide RawTablePath;
    if stems != [] {
      var next := Register(df, w, stems[0], RawTablePath(w.root, stems[0]));
      if next.Ok? {
        var rest := stems[1..];
        TablesRegisterIff(df, next.value, rest);
        if AreRegistrable(df, next.value, rest) {
          assert forall i :: 0 < i < |stems| ==> stems[i] == rest[i - 1];
        } else if AreRegistrable(df, w, stems) {
          assert forall i :: 0 <= i < |rest| ==> rest[i] == stems[i + 1];
          assert false;
        }
      }
    }
  }

  /** `k` is the key of some view, registered with that view's path. */
  ghost predicate ViewAt(df: DataFusion, root: string, names: seq<string>, k: string, path: string) {
    exists n :: n in names && df.resolve(n) == Some(k) && path == ViewPath(root, n)
  }

  lemma {:induction false} ViewsRegistered(df: DataFusion, base: World, last: map<string, Data>, w: World, names: seq<string>)
    requires Agrees(df, base, last) && w == base.(session := w.session)
    requires forall n :: n in names ==> n in base.catalog
    ensures var end := RegisterViews(df, w, names);
      && end == w.(session := end.session)
      && (forall k :: k in w.session ==> k in end.session && end.session[k] == w.session[k])
      && (forall n :: n in names ==> df.resolve(n).Some? && df.resolve(n).value in end.session)
      && (forall k :: k in end.session && k !in w.session ==> ViewAt(df, w.root, names, k, end.session[k]))
    decreases |names|
  {
    hide ViewPath, Locate, ValidateMaterializationQuery, IsSafeIdentifier, ReadsView, IsPlain;
    if names != [] {
      var name := names[0];
      var next := RegisterView(df, w, name);
      assert name in names;
      assert ViewAgrees(df, base, last, name);
      OneViewRegistered(df, base, last, w, name);
      hide Agrees, ViewAgrees, RegisterView;
      assert forall n :: n in names <==> n == name || n in names[1..];
      ViewsRegistered(df, base, last, next, names[1..]);
      var end := RegisterViews(df, w, names);
      forall k | k in end.session && k !in w.session
        ensures ViewAt(df, w.root, names, k, end.session[k])
      {
        if k in next.session {
          assert name in names && df.resolve(name) == Some(k);
        } else {
          assert ViewAt(df, w.root, names[1..], k, end.session[k]);
        }
      }
    }
  }

  lemma OneViewRegistered(df: DataFusion, base: World, last: map<string, Data>, w: World, name: string)
    requires Agrees(df, base, last) && w == base.(session := w.session) && name in base.catalog
    ensures df.resolve(name).Some?
    ensures var key := df.resolve(name).value;
      RegisterView(df, w, name).session == if key in w.session then w.session else w.session[key := ViewPath(w.root, name)]
    ensures RegisterView(df, w, name) == w.(session := RegisterView(df, w, name).session)
  {
    hide ValidateMaterializationQuery, IsSafeIdentifier, ReadsView, Locate, ViewPath;
    assert ViewAgrees(df, base, last, name);
  }

  /** No stem of the tables' directory is read as a view's name, and no table's path as a view's file. */
  ghost predicate StemsAreClear(df: DataFusion, w: World, stems: seq<string>) {
    forall s :: s in stems ==> !Claimed(df, w, s) && !CoversView(df, w, RawTablePath(w.root, s))
  }

  /**
   A restart that comes up keeps catalog and files and registers exactly the tables on disk and the views.
   It keeps the agreement exactly when no table file's stem has a view's key and none is read as a view's file.
   */
  lemma RestartAgreesIff(df: DataFusion, w: World, last: map<string, Data>, stems: seq<string>, names: seq<string>)
    requires Agrees(df, w, last) && Lists(w, names) && Restart(df, w, stems, names).Ok?
    requires forall s :: s in stems ==> IsStem(s)
    ensures var next := Restart(df, w, stems, names).value;
      && next.catalog == w.catalog && next.files == w.files && next.root == w.root
      && (forall k :: k in next.session <==> exists n :: (n in stems || n in w.catalog) && df.resolve(n) == Some(k))
      && (Agrees(df, next, last) <==> StemsAreClear(df, w, stems))
  {
    hide Ascending, ViewPath, RawTablePath, Locate, ValidateMaterializationQuery, IsSafeIdentifier, ReadsView, IsPlain, IsStem,
      TableAt, ViewAt, Agrees, StemsAreClear, RegisterTables, RegisterViews;
    var tables := RegisterTables(df, w.(session := map[]), stems).value;
    TablesRegistered(df, w.(session := map[]), stems);
    ViewsRegistered(df, w, last, tables, names);
    var next := RegisterViews(df, tables, names);
    RestartKeys(df, w, stems, names, tables, next);
    if StemsAreClear(df, w, stems) {
      ClearRestartAgrees(df, w, last, stems, names, tables, next);
    } else {
      TakenRestartDisagrees(df, w, last, stems, tables, next);
    }
  }

  /** What the two registrations leave in the session. */
  ghost predicate Filled(df: DataFusion, w: World, stems: seq<string>, names: seq<string>, tables: World, next: World) {
    && tables == w.(session := tables.session) && next == w.(session := next.session)
    && (forall s :: s in stems ==> df.resolve(s).Some? && df.resolve(s).value in tables.session
                                   && tables.session[df.resolve(s).value] == RawTablePath(w.root, s))
    && (forall k :: k in tables.session ==> TableAt(df, w.root, stems, k, tables.session[k]))
    && (forall k :: k in tables.session ==> k in next.session && next.session[k] == tables.session[k])
    && (forall n :: n in names ==> df.resolve(n).Some? && df.resolve(n).value in next.session)
    && (forall k :: k in next.session && k !in tables.session ==> ViewAt(df, w.root, names, k, next.session[k]))
  }

  lemma RestartKeys(df: DataFusion, w: World, stems: seq<string>, names: seq<string>, tables: World, next: World)
    requires Filled(df, w, stems, names, tables, next) && Lists(w, names)
    ensures forall k :: k in next.session <==> exists n :: (n in stems || n in w.catalog) && df.resolve(n) == Some(k)
  {
    hide Ascending, RawTablePath, ViewPath;
    forall k
      ensures k in next.session <==> exists n :: (n in stems || n in w.catalog) && df.resolve(n) == Some(k)
    {
      if k in next.session {
        if k in tables.session {
          assert TableAt(df, w.root, stems, k, tables.session[k]);
        } else {
          assert ViewAt(df, w.root, names, k, next.session[k]);
        }
      }
    }
  }

  lemma ClearRestartAgrees(
    df: DataFusion, w: World, last: map<string, Data>, stems: seq<string>, names: seq<string>, tables: World, next: World)
    requires Agrees(df, w, last) && Lists(w, names) && Filled(df, w, stems, names, tables, next)
    requires StemsAreClear(df, w, stems)
    ensures Agrees(df, next, last)
  {
    hide Ascending, RawTablePath, ViewPath, Locate, ValidateMaterializationQuery, IsSafeIdentifier, Claimed, ReadsView, IsPlain;
    forall n | n in w.catalog
      ensures ViewAgrees(df, next, last, n)
    {
      assert ViewAgrees(df, w, last, n);
      RestartedView(df, w, last, stems, names, tables, next, n);
    }
    forall k, n | ReadsView(df, next, k, n)
      ensures df.resolve(n) == Some(k)
    {
      RestartedRegistration(df, w, last, stems, names, tables, next, k, n);
    }
  }

  lemma RestartedView(
    df: DataFusion, w: World, last: map<string, Data>, stems: seq<string>, names: seq<string>, tables: World, next: World, n: string)
    requires Agrees(df, w, last) && Lists(w, names) && Filled(df, w, stems, names, tables, next)
    requires StemsAreClear(df, w, stems) && n in w.catalog
    ensures df.resolve(n).Some? && df.resolve(n).value in next.session
    ensures next.session[df.resolve(n).value] == ViewPath(w.root, n)
  {
    hide Ascending, RawTablePath, ViewPath, Agrees, CoversView;
    assert n in names;
    var key := df.resolve(n).value;
    assert key !in tables.session;
    assert ViewAt(df, w.root, names, key, next.session[key]);
    var m :| m in names && df.resolve(m) == Some(key) && next.session[key] == ViewPath(w.root, m);
    KeysAreDistinct(df, w, last, n, m);
  }

  lemma RestartedRegistration(
    df: DataFusion, w: World, last: map<string, Data>, stems: seq<string>, names: seq<string>, tables: World, next: World,
    k: string, n: string)
    requires Agrees(df, w, last) && Lists(w, names) && Filled(df, w, stems, names, tables, next)
    requires StemsAreClear(df, w, stems) && ReadsView(df, next, k, n)
    ensures df.resolve(n) == Some(k)
  {
    hide Ascending, RawTablePath, ViewPath, Locate, ValidateMaterializationQuery, IsSafeIdentifier, Claimed;
    if k in tables.session {
      TableReadsNoView(df, w, stems, k, tables.session[k], n);
    } else {
      assert ViewAt(df, w.root, names, k, next.session[k]);
      var m :| m in names && df.resolve(m) == Some(k) && next.session[k] == ViewPath(w.root, m);
      assert ViewAgrees(df, w, last, m) && ViewAgrees(df, w, last, n);
      ViewFilesAreDistinct(w.cwd, w.root, n, m);
    }
  }

  lemma TableReadsNoView(df: DataFusion, w: World, stems: seq<string>, k: string, source: string, n: string)
    requires StemsAreClear(df, w, stems) && TableAt(df, w.root, stems, k, source) && n in w.catalog
    ensures !df.covers(source, w.FileOf(n))
  {
    hide RawTablePath, ViewFile, Claimed;
  }

  /** A table file with a view's key keeps the view from being registered, and one that is read as a view's file is read with it. */
  lemma TakenRestartDisagrees(
    df: DataFusion, w: World, last: map<string, Data>, stems: seq<string>, tables: World, next: World)
    requires Agrees(df, w, last) && (forall s :: s in stems ==> IsStem(s)) && !StemsAreClear(df, w, stems)
    requires next == w.(session := next.session)
    requires forall s :: s in stems ==> df.resolve(s).Some? && df.resolve(s).value in tables.session
                                        && tables.session[df.resolve(s).value] == RawTablePath(w.root, s)
    requires forall k :: k in tables.session ==> k in next.session && next.session[k] == tables.session[k]
    ensures !Agrees(df, next, last)
  {
    hide RawTablePath, ViewPath, Locate, ValidateMaterializationQuery, IsSafeIdentifier, IsComponent, IsPlain, ReadsView, CoversView;
    var s :| s in stems && (Claimed(df, w, s) || CoversView(df, w, RawTablePath(w.root, s)));
    if Agrees(df, next, last) {
      assert !Claimed(df, w, s) by {
        StemIsUnclaimed(df, w, last, s, next);
      }
      CoveringStemDisagrees(df, w, last, s, next);
      assert false;
    }
  }

  lemma StemIsUnclaimed(df: DataFusion, w: World, last: map<string, Data>, s: string, next: World)
    requires IsStem(s) && next == w.(session := next.session) && Agrees(df, next, last)
    requires df.resolve(s).Some? && df.resolve(s).value in next.session
    requires next.session[df.resolve(s).value] == RawTablePath(w.root, s)
    ensures !Claimed(df, w, s)
  {
    hide RawTablePath, ViewPath, Locate, ValidateMaterializationQuery, IsSafeIdentifier, IsComponent, IsPlain, ReadsView;
    forall n | n in w.catalog
      ensures !SameKey(df, n, s)
    {
      assert ViewAgrees(df, next, last, n);
      ViewPathLeads(w.cwd, w.root, n);
      TableFilesAreNoViews(w.cwd, w.root, n, s);
    }
  }

  lemma CoveringStemDisagrees(df: DataFusion, w: World, last: map<string, Data>, s: string, next: World)
    requires next == w.(session := next.session) && Agrees(df, next, last)
    requires df.resolve(s).Some? && df.resolve(s).value in next.session && !Claimed(df, w, s)
    requires next.session[df.resolve(s).value] == RawTablePath(w.root, s)
    ensures !CoversView(df, w, RawTablePath(w.root, s))
  {
    hide RawTablePath, ViewAgrees, ViewFile, IsSafeIdentifier;
    forall n | n in w.catalog
      ensures !df.covers(RawTablePath(w.root, s), w.FileOf(n))
    {
      assert df.covers(RawTablePath(w.root, s), w.FileOf(n)) ==> ReadsView(df, next, df.resolve(s).value, n);
      assert !SameKey(df, n, s);
    }
  }

  // ---- Runs ----

  datatype Op =
    | CreateOp(sql: string)
    | RefreshOp(sql: string)
    | DropOp(sql: string)
    | TableAsOp(sql: string)
    | DropTableOp(table: string)
    | RegisterOp(name: string, source: string)
    | RestartOp(stems: seq<string>, names: seq<string>)

  /** What the dispatch of commands and the listings of directory and catalog provide, and a start that comes up. */
  ghost predicate WellFormed(df: DataFusion, w: World, op: Op) {
    match op
    case CreateOp(_) => true
    case RefreshOp(sql) => |REFRESH| <= |sql|
    case DropOp(sql) => |DROP| <= |sql|
    case TableAsOp(sql) => KeywordsEnd(sql, ["CREATE", "TABLE"], 0).Some?
    case DropTableOp(_) => true
    case RegisterOp(_, _) => true
    case RestartOp(stems, names) =>
      (stems == [] || ListsTables(w, stems)) && Lists(w, names) && Restart(df, w, stems, names).Ok?
  }

  /** The condition on names under which a command keeps the agreement; it can be checked before the command. */
  ghost predicate Keeps(df: DataFusion, w: World, op: Op)
    requires WellFormed(df, w, op)
  {
    match op
    case CreateOp(sql) =>
      var written := Written(df, w, sql);
      written.Some? ==> Fits(df, w, written.value.0)
    case RefreshOp(_) => true
    case DropOp(sql) => DropIsClean(df, w, sql)
    case TableAsOp(sql) =>
      var written := WrittenTable(df, w, sql);
      written.Some? ==> !Claimed(df, w, written.value.0) && !TableReadsView(df, w, written.value.0)
    case DropTableOp(table) =>
      var name := WithoutQuotes(table);
      df.resolve(name).None? || (!Claimed(df, w, name) && !LeadsToView(w, name))
    case RegisterOp(name, source) => Register(df, w, name, source).Ok? ==> !CoversView(df, w, source)
    case RestartOp(stems, _) => StemsAreClear(df, w, stems)
  }

  /** One command, and the record of each view's last answer. */
  ghost function Apply(df: DataFusion, w: World, last: map<string, Data>, op: Op): (World, map<string, Data>)
    requires WellFormed(df, w, op)
  {
    match op
    case CreateOp(sql) => var (next, r) := CreateView(df, w, sql); (next, Noted(last, r))
    case RefreshOp(sql) => var (next, r) := RefreshView(df, w, sql); (next, Noted(last, r))
    case DropOp(sql) => var (next, r) := DropView(df, w, sql); (next, if r.Ok? then last - {r.value} else last)
    case TableAsOp(sql) => (CreateTableAs(df, w, sql).0, last)
    case DropTableOp(table) => (DropTable(df, w, table).0, last)
    case RegisterOp(name, source) => var r := Register(df, w, name, source); (if r.Ok? then r.value else w, last)
    case RestartOp(stems, names) => (Restart(df, w, stems, names).value, last)
  }

  /** Every command keeps the agreement exactly under its condition. */
  lemma ApplyAgreesIff(df: DataFusion, w: World, last: map<string, Data>, op: Op)
    requires WellFormed(df, w, op) && Agrees(df, w, last)
    ensures var (next, last') := Apply(df, w, last, op); Agrees(df, next, last') <==> Keeps(df, w, op)
  {
    hide Agrees, CreateView, RefreshView, DropView, CreateTableAs, DropTable, Restart, Register, Written, WrittenTable,
      DropIsClean, Fits, CoversView, TableReadsView, KeywordsEnd, Claimed, LeadsToView, StemsAreClear, WithoutQuotes, Lists, IsStem, World.File, RawTablePath;
    match op
    case CreateOp(sql) =>
      CreateViewAgreesIff(df, w, last, sql);
      assert Noted(last, CreateView(df, w, sql).1) == last || Written(df, w, sql).Some?;
    case RefreshOp(sql) => RefreshViewAgrees(df, w, last, sql);
    case DropOp(sql) =>
      DropViewAgreesIff(df, w, last, sql);
      if DropView(df, w, sql).1.Ok? {
        DropOfViewIsClean(df, w, sql);
      }
    case TableAsOp(sql) => CreateTableAsAgreesIff(df, w, last, sql);
    case DropTableOp(table) => DropTableAgreesIff(df, w, last, table);
    case RegisterOp(name, source) => RegisterAgreesIff(df, w, last, name, source);
    case RestartOp(stems, names) => RestartAgreesIff(df, w, last, stems, names);
  }

  lemma DropOfViewIsClean(df: DataFusion, w: World, sql: string)
    requires |DROP| <= |sql| && DropView(df, w, sql).1.Ok?
    ensures DropIsClean(df, w, sql)
  {
    hide NameArgument, Locate, Claimed;
  }

  ghost predicate WellFormedRun(df: DataFusion, w: World, last: map<string, Data>, ops: seq<Op>)
    decreases |ops|
  {
    ops != [] ==>
      WellFormed(df, w, ops[0])
      && var (next, last') := Apply(df, w, last, ops[0]); WellFormedRun(df, next, last', ops[1..])
  }

  /** The stores agree before, between and after the commands. */
  ghost predicate AgreesThroughout(df: DataFusion, w: World, last: map<string, Data>, ops: seq<Op>)
    requires WellFormedRun(df, w, last, ops)
    decreases |ops|
  {
    Agrees(df, w, last)
    && (ops != [] ==> var (next, last') := Apply(df, w, last, ops[0]); AgreesThroughout(df, next, last', ops[1..]))
  }

  /** Every command of the run meets its condition. */
  ghost predicate KeepsThroughout(df: DataFusion, w: World, last: map<string, Data>, ops: seq<Op>)
    requires WellFormedRun(df, w, last, ops)
    decreases |ops|
  {
    ops != [] ==>
      Keeps(df, w, ops[0])
      && var (next, last') := Apply(df, w, last, ops[0]); KeepsThroughout(df, next, last', ops[1..])
  }

  /** The stores agree throughout a run, from stores that agree, exactly when every command meets its condition on names. */
  lemma {:induction false} RunAgreesIff(df: DataFusion, w: World, last: map<string, Data>, ops: seq<Op>)
    requires WellFormedRun(df, w, last, ops) && Agrees(df, w, last)
    ensures AgreesThroughout(df, w, last, ops) <==> KeepsThroughout(df, w, last, ops)
    decreases |ops|
  {
    hide Agrees, Apply, Keeps, WellFormed;
    if ops != [] {
      var (next, last') := Apply(df, w, last, ops[0]);
      ApplyAgreesIff(df, w, last, ops[0]);
      if Agrees(df, next, last') {
        RunAgreesIff(df, next, last', ops[1..]);
      } else {
        NotThroughout(df, next, last', ops[1..]);
      }
    }
  }

  lemma NotThroughout(df: DataFusion, w: World, last: map<string, Data>, ops: seq<Op>)
    requires WellFormedRun(df, w, last, ops) && !Agrees(df, w, last)
    ensures !AgreesThroughout(df, w, last, ops)
  {
  }

  lemma EmptyWarehouseAgrees(df: DataFusion, cwd: Location, root: string)
    ensures Agrees(df, World(cwd, root, map[], map[], map[]), map[])
  {
  }

  /** Creating one view in an empty warehouse gives stores that agree and hold just that view. */
  lemma FirstViewAgrees(df: DataFusion, cwd: Location, root: string, name: string, query: string)
    requires IsSafeIdentifier(name) && !SqlTools.IsAs(name) && df.resolve(name).Some?
    requires IsPlain(df, ViewPath(root, name), ViewFile(cwd, root, name))
    requires ValidateMaterializationQuery(query) == Ok(query) && df.answer(query, map[]).Batches?
    ensures var empty := World(cwd, root, map[], map[], map[]);
      var (next, r) := CreateView(df, empty, SqlTools.PrintCreateView(name, query));
      && r == Ok((name, df.answer(query, map[]).data)) && next.catalog.Keys == {name}
      && Agrees(df, next, map[name := r.value.1])
  {
    hide ViewPath, Locate, ValidateMaterializationQuery, IsSafeIdentifier, ParseCreateView, ReadsView, IsPlain, SqlTools.IsAs,
      SqlTools.PrintCreateView, Store;
    var empty, sql := World(cwd, root, map[], map[], map[]), SqlTools.PrintCreateView(name, query);
    EmptyWarehouseAgrees(df, cwd, root);
    assert Tables(df, empty) == map[];
    SqlTools.ParsePrintedView(name, query);
    assert !Claimed(df, empty, name);
    CreateViewAgreesIff(df, empty, map[], sql);
    StoreIs(df, empty, name, ViewPath(root, name), df.answer(query, map[]).data);
    assert Unread(df, empty, name);
  }

  // ---- Inputs that break the agreement ----

  /**
   DROP MATERIALIZED VIEW of another name for the view `v` is refused and takes the registration of `v`
   away: `public.v`, `V` and `"v"` are such names wherever the session folds case, quotes and schema.
   */
  lemma RefusedDropTakesRegistration(df: DataFusion, w: World, last: map<string, Data>, name: string)
    requires Agrees(df, w, last) && "v" in w.catalog && name !in w.catalog && SameKey(df, "v", name)
    requires name in ["public.v", "V", "\"v\""]
    ensures var sql := DROP + " " + name; var (next, r) := DropView(df, w, sql);
      && r == Err(NotFound(name)) && next.catalog == w.catalog && next.files == w.files
      && df.resolve("v").value in w.session && df.resolve("v").value !in next.session
      && !Agrees(df, next, last)
  {
    hide NameArgument, ViewPath, Locate, ValidateMaterializationQuery, IsSafeIdentifier, ReadsView, IsPlain;
    var sql := DROP + " " + name;
    DropNames();
    NameIsRead(DROP, name);
    assert ViewAgrees(df, w, last, "v");
    assert Claimed(df, w, name);
    DropViewAgreesIff(df, w, last, sql);
  }

  lemma DropNames()
    ensures forall name, i :: name in {"public.v", "V", "\"v\""} && 0 <= i < |name| ==> !IsWhitespace(name[i]) && name[i] != ';'
  {
  }

  /** Creating `v` beside `V` leaves two rows on one registration, and the next restart registers the other file. */
  lemma FoldedNamesShareRegistration(df: DataFusion, w: World, last: map<string, Data>, query: string)
    requires Agrees(df, w, last) && w.catalog.Keys == {"V"} && SameKey(df, "V", "v")
    requires IsPlain(df, ViewPath(w.root, "v"), w.FileOf("v"))
    requires ValidateMaterializationQuery(query) == Ok(query) && df.answer(query, Tables(df, w)).Batches?
    ensures var (next, r) := CreateView(df, w, SqlTools.PrintCreateView("v", query));
      var key := df.resolve("v").value;
      && r.Ok? && next.catalog.Keys == {"V", "v"} && !Agrees(df, next, Noted(last, r))
      && key in next.session && next.session[key] == ViewPath(w.root, "v")
      && Lists(next, ["V", "v"])
      && var again := Restart(df, next, [], ["V", "v"]).value;
         key in again.session && again.session[key] == ViewPath(w.root, "V")
  {
    hide ViewPath, Locate, ValidateMaterializationQuery, IsSafeIdentifier, ParseCreateView, Tables, ReadsView, IsPlain;
    var sql := SqlTools.PrintCreateView("v", query);
    VIsSafe();
    SqlTools.ParsePrintedView("v", query);
    assert Claimed(df, w, "v");
    CreateViewAgreesIff(df, w, last, sql);
    var data := df.answer(query, Tables(df, w)).data;
    StoreIs(df, w, "v", ViewPath(w.root, "v"), data);
    ReadableWhenPlain(df, ViewPath(w.root, "v"), w.FileOf("v"), w.files[w.FileOf("v") := data].Keys);
    assert ViewAgrees(df, w, last, "V");
    hide Agrees, ViewAgrees;
    FirstListedIsRegistered(df, CreateView(df, w, sql).0);
  }

  lemma FirstListedIsRegistered(df: DataFusion, w: World)
    requires w.catalog.Keys == {"V", "v"} && SameKey(df, "V", "v")
    requires w.catalog["V"].path == ViewPath(w.root, "V") && w.FileOf("V") in w.files
    requires IsPlain(df, ViewPath(w.root, "V"), w.FileOf("V"))
    ensures var again := Restart(df, w, [], ["V", "v"]); var key := df.resolve("v").value;
      again.Ok? && key in again.value.session && again.value.session[key] == ViewPath(w.root, "V")
  {
    hide ViewPath, Locate, IsPlain;
    ViewPathLeads(w.cwd, w.root, "V");
    ReadableWhenPlain(df, ViewPath(w.root, "V"), w.FileOf("V"), w.files.Keys);
    assert ["V", "v"][1..] == ["v"] && ["v"][1..] == [];
    assert RegisterView(df, w.(session := map[]), "V").session == map[df.resolve("v").value := ViewPath(w.root, "V")];
  }

  lemma VIsSafe()
    ensures IsSafeIdentifier("v") && !SqlTools.IsAs("v") && Ascending(["V", "v"])
  {
    assert Upper("v")[0] == 'V' && Upper("AS")[0] == 'A';
  }

  /** DROP TABLE of a word that leads, pasted into the path, to a view's file deletes that file. */
  lemma LeadingDropDeletesView(df: DataFusion, w: World, last: map<string, Data>, v: string, table: string)
    requires Agrees(df, w, last) && v in w.catalog && df.resolve(table).Some?
    requires w.File(RawTablePath(w.root, table)) == w.FileOf(v)
    requires table != "" && forall i :: 0 <= i < |table| ==> !IsWhitespace(table[i]) && table[i] != '\'' && table[i] != '"'
    ensures TableArgument("DROP TABLE " + table) == table
    ensures var next := DropTable(df, w, table).0;
      && w.FileOf(v) in w.files && w.FileOf(v) !in next.files && v in next.catalog
      && !Agrees(df, next, last)
  {
    hide ViewPath, ViewFile, Locate, RawTablePath, ValidateMaterializationQuery, IsSafeIdentifier, ReadsView, IsPlain, Claimed,
      TableArgument, WithoutQuotes, IsWhitespace;
    assert ViewAgrees(df, w, last, v);
    ThirdWord(table);
    NothingToUnquote(table);
    assert LeadsToView(w, table);
    DropTableAgreesIff(df, w, last, table);
  }

  /** Such a word goes up from the tables' directory and down into that of the views. */
  lemma DropTableOfPathDeletesView(df: DataFusion, w: World, last: map<string, Data>, v: string, table: string)
    requires Agrees(df, w, last) && v in w.catalog
    requires table == "../materialized_views/" + v && df.resolve(table).Some?
    ensures TableArgument("DROP TABLE " + table) == table
    ensures var next := DropTable(df, w, table).0;
      && w.FileOf(v) in w.files && w.FileOf(v) !in next.files && v in next.catalog
      && !Agrees(df, next, last)
  {
    hide ViewPath, ViewFile, Locate, RawTablePath, ValidateMaterializationQuery, IsSafeIdentifier, ReadsView, IsPlain, IsWhitespace,
      TableArgument, WithoutQuotes;
    assert ViewAgrees(df, w, last, v);
    PathOfTableLeadsToView(w.cwd, w.root, v);
    PathIsWord(table, v);
    LeadingDropDeletesView(df, w, last, v, table);
  }

  /** Or it climbs out of a working directory under which the root is relative, and comes back by its full path. */
  lemma ClimbingDropDeletesView(df: DataFusion, w: World, last: map<string, Data>, table: string)
    requires Agrees(df, w, last) && "v" in w.catalog && w.cwd == ["/", "srv"] && w.root == "data"
    requires table == "../../../../srv/data/" + VIEWS + "v" && df.resolve(table).Some?
    ensures TableArgument("DROP TABLE " + table) == table
    ensures var next := DropTable(df, w, table).0;
      && w.FileOf("v") in w.files && w.FileOf("v") !in next.files && "v" in next.catalog
      && !Agrees(df, next, last)
  {
    hide ViewPath, ViewFile, Locate, RawTablePath, ValidateMaterializationQuery, ReadsView, IsPlain, TableArgument, WithoutQuotes, Agrees;
    ClimbingPathLeadsToView();
    ClimbIsWord(table);
    LeadingDropDeletesView(df, w, last, "v", table);
  }

  predicate IsPathText(s: string) {
    forall i :: 0 <= i < |s| ==> 'a' <= s[i] <= 'z' || s[i] == '.' || s[i] == '/' || s[i] == '_'
  }

  lemma PathTextIsWord(s: string)
    requires IsPathText(s)
    ensures forall i :: 0 <= i < |s| ==> !IsWhitespace(s[i]) && s[i] != '\'' && s[i] != '"'
  {
  }

  lemma ClimbIsWord(table: string)
    requires table == "../../../../srv/data/" + VIEWS + "v"
    ensures forall i :: 0 <= i < |table| ==> !IsWhitespace(table[i]) && table[i] != '\'' && table[i] != '"'
  {
    hide IsWhitespace;
    ClimbIsPathText();
    PathTextIsWord(table);
  }

  lemma ClimbIsPathText()
    ensures IsPathText("../../../../srv/data/" + VIEWS + "v")
  {
    hide IsPathText;
    assert IsPathText("../../../../srv/data/") by { ClimbStart(); }
    assert IsPathText(VIEWS) by { ViewsText(); }
    assert IsPathText("v") by { EndText(); }
    PathTexts("../../../../srv/data/", VIEWS);
    PathTexts("../../../../srv/data/" + VIEWS, "v");
  }

  lemma PathTexts(s: string, t: string)
    requires IsPathText(s) && IsPathText(t)
    ensures IsPathText(s + t)
  {
  }

  lemma ClimbStart()
    ensures IsPathText("../../../../srv/data/")
  {
  }

  lemma ViewsText()
    ensures IsPathText(VIEWS)
  {
  }

  lemma EndText()
    ensures IsPathText("v")
  {
  }

  /** DROP MATERIALIZED VIEW of `v` succeeds, deletes its file, and leaves `key` registered with `source`. */
  predicate DropLeaves(df: DataFusion, w: World, v: string, key: string, source: string) {
    var (next, r) := DropView(df, w, DROP + " " + v);
    r == Ok(v) && w.FileOf(v) !in next.files && key in next.session && next.session[key] == source
  }

  /**
   A view's file registered by its URL is read under a second key, and dropping the view leaves that key
   behind on a file that is gone.
   */
  lemma UrlRegistrationOutlivesView(
    df: DataFusion, w: World, last: map<string, Data>, name: string, key: string, v: string, url: string, next: World)
    requires Agrees(df, w, last) && v in w.catalog && url == "file://" + ViewPath(w.root, v)
    requires df.covers(url, w.FileOf(v)) && df.resolve(name) == Some(key) && Register(df, w, name, url) == Ok(next)
    ensures !Agrees(df, next, last) && DropLeaves(df, next, v, key, url)
  {
    hide ViewPath, ViewFile, Locate, ValidateMaterializationQuery, ReadsView, IsPlain, NameArgument, IsIdentChar;
    assert ViewAgrees(df, w, last, v);
    RegisterAgreesIff(df, w, last, name, url);
    hide Agrees, ViewAgrees;
    IdentifierChars(v);
    NameIsRead(DROP, v);
    ViewPathLeads(w.cwd, w.root, v);
  }

  /** DROP TABLE of another name for a view, such as `public.v`, takes the view's registration away. */
  lemma DropTableTakesRegistration(df: DataFusion, w: World, last: map<string, Data>, v: string, table: string)
    requires Agrees(df, w, last) && v in w.catalog && SameKey(df, v, WithoutQuotes(table))
    ensures var next := DropTable(df, w, table).0;
      && df.resolve(v).value in w.session && df.resolve(v).value !in next.session && v in next.catalog
      && !Agrees(df, next, last)
  {
    hide ViewPath, ViewFile, Locate, RawTablePath, ValidateMaterializationQuery, IsSafeIdentifier, ReadsView, IsPlain, WithoutQuotes;
    assert ViewAgrees(df, w, last, v);
    assert Claimed(df, w, WithoutQuotes(table));
    DropTableAgreesIff(df, w, last, table);
  }

  lemma PathIsWord(table: string, v: string)
    requires table == "../materialized_views/" + v && IsSafeIdentifier(v)
    ensures forall i :: 0 <= i < |table| ==> !IsWhitespace(table[i]) && table[i] != '\'' && table[i] != '"'
  {
    IdentifierHasNoSlash(v);
  }

  lemma ThirdWord(name: string)
    requires name != "" && forall i :: 0 <= i < |name| ==> !IsWhitespace(name[i])
    ensures TableArgument("DROP TABLE " + name) == name
  {
    hide Words, IsWhitespace, EqualsIgnoreCase;
    KeywordsAreWords();
    LastWord(name);
    assert "DROP TABLE " + name == "DROP" + (" " + ("TABLE" + (" " + name)));
    WordsOf("TABLE", " " + name);
    WordsAfterSpace("TABLE" + (" " + name));
    WordsOf("DROP", " " + ("TABLE" + (" " + name)));
    assert Words("DROP TABLE " + name) == ["DROP", "TABLE", name];
  }

  lemma FifthWord(name: string)
    requires name != "" && forall i :: 0 <= i < |name| ==> !IsWhitespace(name[i])
    ensures TableArgument("DROP TABLE IF EXISTS " + name) == name
  {
    hide Words, IsWhitespace, EqualsIgnoreCase;
    KeywordsAreWords();
    LastWord(name);
    var inner := "EXISTS" + (" " + name);
    var middle := "IF" + (" " + inner);
    var outer := "TABLE" + (" " + middle);
    assert "DROP TABLE IF EXISTS " + name == "DROP" + (" " + outer);
    WordsOf("EXISTS", " " + name);
    WordsAfterSpace(inner);
    WordsOf("IF", " " + inner);
    WordsAfterSpace(middle);
    WordsOf("TABLE", " " + middle);
    WordsAfterSpace(outer);
    WordsOf("DROP", " " + outer);
    assert Words("DROP TABLE IF EXISTS " + name) == ["DROP", "TABLE", "IF", "EXISTS", name];
  }

  lemma LastWord(name: string)
    requires name != "" && forall i :: 0 <= i < |name| ==> !IsWhitespace(name[i])
    ensures Words(" " + name) == [name]
  {
    WordsAfterSpace(name);
    WordsOf(name, "");
    assert name + "" == name;
  }

  lemma KeywordsAreWords()
    ensures forall w, i :: w in {"DROP", "TABLE", "IF", "EXISTS"} && 0 <= i < |w| ==> !IsWhitespace(w[i])
    ensures IsWhitespace(' ')
    ensures EqualsIgnoreCase("IF", "if") && EqualsIgnoreCase("EXISTS", "exists")
  {
  }

  /** The statements the table tool prints name the table they were asked to drop. */
  lemma TableNameRoundTrip(name: string)
    requires IsSafeIdentifier(name)
    ensures TableArgument("DROP TABLE IF EXISTS " + name) == name
    ensures TableArgument("DROP TABLE " + name) == name
    ensures WithoutQuotes(name) == name
  {
    IdentifierChars(name);
    hide IsSafeIdentifier, TableArgument, WithoutQuotes;
    FifthWord(name);
    ThirdWord(name);
    NameHasNoQuotes(name);
    NothingToUnquote(name);
  }

  lemma NameHasNoQuotes(name: string)
    requires IsSafeIdentifier(name)
    ensures forall i :: 0 <= i < |name| ==> name[i] != '\'' && name[i] != '"'
  {
  }

  lemma {:induction false} NothingToUnquote(s: string)
    requires forall i :: 0 <= i < |s| ==> s[i] != '\'' && s[i] != '"'
    ensures WithoutQuotes(s) == s
  {
    if s != "" {
      NothingToUnquote(s[1..]);
      assert s == [s[0]] + s[1..];
    }
  }

  lemma WordsOf(word: string, rest: string)
    requires word != "" && forall i :: 0 <= i < |word| ==> !IsWhitespace(word[i])
    requires rest == "" || IsWhitespace(rest[0])
    ensures Words(word + rest) == [word] + Words(rest)
  {
    hide IsWhitespace;
    assert TrimStart(word + rest) == word + rest;
    SqlTools.TokenAt(word, rest);
    assert (word + rest)[..|word|] == word && (word + rest)[|word|..] == rest;
  }

  lemma WordsAfterSpace(s: string)
    ensures Words(" " + s) == Words(s)
  {
    assert (" " + s)[1..] == s;
    assert TrimStart(" " + s) == TrimStart(s);
  }
}
