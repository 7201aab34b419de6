/**
 When the catalog, the files and the session agree about the materialized views: exactly which commands
 keep the agreement, one by one and over every run. All of it turns on what the session makes of a name and
 on which files a registered source covers.
 */
module ViewAgreement {
  import opened Text
  import opened SqlCommands
  import opened WarehousePaths
  import opened MaterializedViews

  // ---- Agreement ----

  /**
   The stores agree: each catalog view has its file and its registration, which reads just that file and finds
   the answer of the view's last create or refresh, and its SQL passes validation; a name that is no view has
   no file among the views' files; and a view's file is read under the view's own key only.
   */
  ghost predicate Agrees(df: DataFusion, w: World, last: map<string, Data>) {
    && last.Keys == w.catalog.Keys
    && (forall n :: n in w.catalog ==> ViewAgrees(df, w, last, n))
    && (forall n :: n !in w.catalog && IsSafeIdentifier(n) ==> w.FileOf(n) !in w.files)
    && (forall k, n :: ReadsView(df, w, k, n) ==> df.resolve(n) == Some(k))
  }

  ghost predicate ViewAgrees(df: DataFusion, w: World, last: map<string, Data>, n: string)
    requires n in w.catalog && last.Keys == w.catalog.Keys
  {
    && IsSafeIdentifier(n) && w.catalog[n].path == ViewPath(w.root, n)
    && w.FileOf(n) in w.files && w.files[w.FileOf(n)] == last[n]
    && df.resolve(n).Some? && df.resolve(n).value in w.session
    && w.session[df.resolve(n).value] == ViewPath(w.root, n)
    && IsPlain(df, ViewPath(w.root, n), w.FileOf(n))
    && ValidateMaterializationQuery(w.catalog[n].sql) == Ok(w.catalog[n].sql)
  }

  /** The source is read as the path of one file, and can be read whenever the file is there. */
  ghost predicate IsPlain(df: DataFusion, source: string, file: Location) {
    && (forall l :: df.covers(source, l) <==> l == file)
    && (forall files :: file in files ==> df.readable(source, files))
  }

  /** The source under key `k` covers the file of view `n`. */
  ghost predicate ReadsView(df: DataFusion, w: World, k: string, n: string) {
    k in w.session && n in w.catalog && df.covers(w.session[k], w.FileOf(n))
  }

  predicate SameKey(df: DataFusion, n: string, m: string) {
    df.resolve(n).Some? && df.resolve(n) == df.resolve(m)
  }

  /** Some catalog view has the key that the name resolves to. */
  ghost predicate Claimed(df: DataFusion, w: World, name: string) {
    exists n :: n in w.catalog && SameKey(df, n, name)
  }

  /** The source covers the file of some catalog view. */
  ghost predicate CoversView(df: DataFusion, w: World, source: string) {
    exists n :: n in w.catalog && df.covers(source, w.FileOf(n))
  }

  /** In agreeing stores, querying a view by any name of its key reads its own file, with the answer of its last create or refresh. */
  lemma ViewIsQueryable(df: DataFusion, w: World, last: map<string, Data>, n: string, name: string)
    requires Agrees(df, w, last) && n in w.catalog && SameKey(df, n, name)
    ensures var key := df.resolve(name).value; key in Tables(df, w) && Tables(df, w)[key] == map[w.FileOf(n) := last[n]]
  {
    hide ValidateMaterializationQuery, Locate, IsSafeIdentifier, ViewPath, World.FileOf;
    assert ViewAgrees(df, w, last, n);
  }

  /** In agreeing stores no two views share a key. */
  lemma KeysAreDistinct(df: DataFusion, w: World, last: map<string, Data>, n: string, m: string)
    requires Agrees(df, w, last) && n in w.catalog && m in w.catalog && SameKey(df, n, m)
    ensures n == m
  {
    hide ValidateMaterializationQuery, IsSafeIdentifier, Locate, ViewPath;
    assert ViewAgrees(df, w, last, n) && ViewAgrees(df, w, last, m);
    ViewFilesAreDistinct(w.cwd, w.root, n, m);
  }

  // ---- Storing a view ----

  /** The stores after a view's file, registration and row have been written. */
  function Stored(df: DataFusion, w: World, name: string, query: string, data: Data): World
    requires df.resolve(name).Some?
  {
    World(w.cwd, w.root, w.catalog[name := View(query, ViewPath(w.root, name))], w.files[w.FileOf(name) := data],
          w.session[df.resolve(name).value := ViewPath(w.root, name)])
  }

  /** No other view has the name's key. */
  ghost predicate Unshared(df: DataFusion, w: World, name: string) {
    forall n :: n in w.catalog && n != name ==> !SameKey(df, n, name)
  }

  /** No source under another key covers the view's file. */
  ghost predicate Unread(df: DataFusion, w: World, name: string) {
    forall k :: k in w.session && df.covers(w.session[k], w.FileOf(name)) ==> df.resolve(name) == Some(k)
  }

  lemma StoredAgrees(df: DataFusion, w: World, last: map<string, Data>, name: string, query: string, data: Data)
    requires Agrees(df, w, last) && IsSafeIdentifier(name) && ValidateMaterializationQuery(query) == Ok(query)
    requires df.resolve(name).Some? && Unshared(df, w, name) && Unread(df, w, name)
    requires IsPlain(df, ViewPath(w.root, name), w.FileOf(name))
    ensures Agrees(df, Stored(df, w, name, query, data), last[name := data])
  {
    hide ValidateMaterializationQuery, IsSafeIdentifier, Locate, ViewPath, ViewAgrees, ReadsView, IsPlain, Unread, Unshared;
    var end, last' := Stored(df, w, name, query, data), last[name := data];
    forall n | n in end.catalog
      ensures ViewAgrees(df, end, last', n)
    {
      StoredView(df, w, last, name, query, data, n);
    }
    forall n | n !in end.catalog && IsSafeIdentifier(n)
      ensures end.FileOf(n) !in end.files
    {
      ViewFilesAreDistinct(w.cwd, w.root, n, name);
    }
    forall k, n | ReadsView(df, end, k, n)
      ensures df.resolve(n) == Some(k)
    {
      StoredRegistration(df, w, last, name, query, data, k, n);
    }
  }

  lemma StoredView(df: DataFusion, w: World, last: map<string, Data>, name: string, query: string, data: Data, n: string)
    requires Agrees(df, w, last) && IsSafeIdentifier(name) && ValidateMaterializationQuery(query) == Ok(query)
    requires df.resolve(name).Some? && Unshared(df, w, name)
    requires IsPlain(df, ViewPath(w.root, name), w.FileOf(name))
    requires n == name || n in w.catalog
    ensures last[name := data].Keys == Stored(df, w, name, query, data).catalog.Keys
    ensures ViewAgrees(df, Stored(df, w, name, query, data), last[name := data], n)
  {
    hide ValidateMaterializationQuery, IsSafeIdentifier, Locate, ViewPath, ViewFile, ReadsView, IsPlain;
    if n != name {
      assert ViewAgrees(df, w, last, n);
      ViewFilesAreDistinct(w.cwd, w.root, n, name);
    }
  }

  lemma StoredRegistration(
    df: DataFusion, w: World, last: map<string, Data>, name: string, query: string, data: Data, k: string, n: string)
    requires Agrees(df, w, last) && IsSafeIdentifier(name) && df.resolve(name).Some? && Unread(df, w, name)
    requires IsPlain(df, ViewPath(w.root, name), w.FileOf(name))
    requires ReadsView(df, Stored(df, w, name, query, data), k, n)
    ensures df.resolve(n) == Some(k)
  {
    hide ValidateMaterializationQuery, IsSafeIdentifier, Locate, ViewPath, ViewFile;
    if k == df.resolve(name).value {
      if n in w.catalog {
        assert ViewAgrees(df, w, last, n);
        ViewFilesAreDistinct(w.cwd, w.root, n, name);
      }
    } else if n != name {
      assert ReadsView(df, w, k, n);
    }
  }

  /** A stored view disagrees when it took another's key, when another source reads its file, or when its own source is not plain. */
  lemma StoredDisagrees(df: DataFusion, w: World, name: string, query: string, data: Data, last: map<string, Data>)
    requires IsSafeIdentifier(name) && df.resolve(name).Some?
    requires !Unshared(df, w, name) || !Unread(df, w, name) || !IsPlain(df, ViewPath(w.root, name), w.FileOf(name))
    ensures !Agrees(df, Stored(df, w, name, query, data), last)
  {
    hide ValidateMaterializationQuery, IsSafeIdentifier, Locate, ViewPath, ViewFile, IsPlain;
    var end := Stored(df, w, name, query, data);
    if Agrees(df, end, last) {
      assert ViewAgrees(df, end, last, name);
      assert Unshared(df, w, name) by {
        OthersAgree(df, w, name, query, data, last);
      }
      forall k | k in w.session && df.covers(w.session[k], w.FileOf(name))
        ensures df.resolve(name) == Some(k)
      {
        assert df.resolve(name) != Some(k) ==> ReadsView(df, end, k, name);
      }
      assert false;
    }
  }

  lemma OthersAgree(df: DataFusion, w: World, name: string, query: string, data: Data, last: map<string, Data>)
    requires IsSafeIdentifier(name) && df.resolve(name).Some? && Agrees(df, Stored(df, w, name, query, data), last)
    ensures Unshared(df, w, name)
  {
    hide ValidateMaterializationQuery, IsSafeIdentifier, Locate, ViewPath, ViewFile, IsPlain, ReadsView;
    var end := Stored(df, w, name, query, data);
    forall n | n in w.catalog && n != name
      ensures !SameKey(df, n, name)
    {
      assert ViewAgrees(df, end, last, n);
      ViewFilesAreDistinct(w.cwd, w.root, n, name);
      ViewPathLeads(w.cwd, w.root, n);
      ViewPathLeads(w.cwd, w.root, name);
    }
  }

  // ---- Create and refresh ----

  /** The query's answer, when the create gets as far as writing it. */
  function Written(df: DataFusion, w: World, sql: string): Option<(string, Data)> {
    var parsed := ParseCreateView(sql);
    if parsed.Err? || parsed.value.name in w.catalog then None
    else
      var answer := df.answer(parsed.value.query, Tables(df, w));
      if answer.Batches? then Some((parsed.value.name, answer.data)) else None
  }

  function Noted(last: map<string, Data>, r: Result<(string, Data), ViewError>): map<string, Data> {
    if r.Ok? then last[r.value.0 := r.value.1] else last
  }

  /**
   The name has a key that no view has, its path is read as just its file, and no source under another key
   covers that file.
   */
  ghost predicate Fits(df: DataFusion, w: World, name: string) {
    && df.resolve(name).Some? && !Claimed(df, w, name)
    && IsPlain(df, ViewPath(w.root, name), w.FileOf(name)) && Unread(df, w, name)
  }

  /** A create that writes keeps the agreement exactly when its name fits; every other create changes nothing. */
  lemma CreateViewAgreesIff(df: DataFusion, w: World, last: map<string, Data>, sql: string)
    requires Agrees(df, w, last)
    ensures var (next, r) := CreateView(df, w, sql); var written := Written(df, w, sql);
      && (written.None? ==> r.Err? && next == w)
      && (written.Some? ==> (Agrees(df, next, Noted(last, r)) <==> Fits(df, w, written.value.0)))
      && (written.Some? && Fits(df, w, written.value.0) ==> r == Ok(written.value))
  {
    hide ValidateMaterializationQuery, ParseCreateView, Agrees, Locate, Tables, ViewPath, IsSafeIdentifier, Store, Unread, Claimed,
      Unshared;
    var written := Written(df, w, sql);
    if written.Some? {
      var ViewDefinition(name, query) := ParseCreateView(sql).value;
      var data := written.value.1;
      var path, file := ViewPath(w.root, name), w.FileOf(name);
      var files := w.files[file := data];
      ParsedViewIsValid(sql);
      StoreIs(df, w, name, path, data);
      ClaimedIsShared(df, w, name);
      assert file in files.Keys;
      if !df.readable(path, files.Keys) || df.resolve(name).None? {
        FileAloneDisagrees(df, CreateView(df, w, sql).0, last, name);
      } else if Fits(df, w, name) {
        StoredAgrees(df, w, last, name, query, data);
      } else {
        StoredDisagrees(df, w, name, query, data, last[name := data]);
      }
    }
  }

  lemma ClaimedIsShared(df: DataFusion, w: World, name: string)
    requires name !in w.catalog
    ensures Claimed(df, w, name) <==> !Unshared(df, w, name)
  {
    hide SameKey;
  }

  /** The file of a view that could not be registered stays behind without a row. */
  lemma FileAloneDisagrees(df: DataFusion, w: World, last: map<string, Data>, name: string)
    requires name !in w.catalog && IsSafeIdentifier(name) && w.FileOf(name) in w.files
    ensures !Agrees(df, w, last)
  {
    hide IsSafeIdentifier, Locate, ViewPath, ViewAgrees, ReadsView;
  }

  lemma ParsedViewIsValid(sql: string)
    requires ParseCreateView(sql).Ok?
    ensures var ViewDefinition(name, query) := ParseCreateView(sql).value;
      IsSafeIdentifier(name) && ValidateMaterializationQuery(query) == Ok(query)
  {
    hide ValidateMaterializationQuery, FindAs, KeywordsEnd, IsSafeIdentifier, Trim;
    var header := KeywordsEnd(sql, ["CREATE", "MATERIALIZED", "VIEW"], 0);
    var clause := FindAs(sql, header.value);
    ValidationIsStable(sql[clause.value.1..]);
  }

  /** A refresh always keeps the agreement: it stores the stored SQL's answer for an existing view, or changes nothing. */
  lemma RefreshViewAgrees(df: DataFusion, w: World, last: map<string, Data>, sql: string)
    requires Agrees(df, w, last) && |REFRESH| <= |sql|
    ensures var (next, r) := RefreshView(df, w, sql);
      && Agrees(df, next, Noted(last, r)) && next.catalog == w.catalog
      && (r.Err? ==> next == w)
      && (r.Ok? ==> r.value.0 in w.catalog && df.answer(w.catalog[r.value.0].sql, Tables(df, w)) == Batches(r.value.1))
  {
    hide ValidateMaterializationQuery, NameArgument, Locate, Tables, ViewPath, IsSafeIdentifier, Store, IsPlain, Unshared, Unread;
    var argument := NameArgument(sql, REFRESH);
    if argument.Some? && argument.value in w.catalog {
      var name := argument.value;
      var query := w.catalog[name].sql;
      assert ViewAgrees(df, w, last, name);
      var answer := df.answer(query, Tables(df, w));
      if answer.Batches? {
        StoreIs(df, w, name, ViewPath(w.root, name), answer.data);
        RefreshedIsUnshared(df, w, last, name);
        ReadableWhenPlain(df, ViewPath(w.root, name), w.FileOf(name), w.files[w.FileOf(name) := answer.data].Keys);
        StoredAgrees(df, w, last, name, query, answer.data);
        assert w.catalog[name := View(query, ViewPath(w.root, name))] == w.catalog;
      }
    }
  }

  lemma ReadableWhenPlain(df: DataFusion, source: string, file: Location, files: set<Location>)
    requires IsPlain(df, source, file) && file in files
    ensures df.readable(source, files)
  {
  }

  lemma RefreshedIsUnshared(df: DataFusion, w: World, last: map<string, Data>, name: string)
    requires Agrees(df, w, last) && name in w.catalog
    ensures Unshared(df, w, name) && Unread(df, w, name)
  {
    forall n | n in w.catalog && n != name
      ensures !SameKey(df, n, name)
    {
      if SameKey(df, n, name) {
        KeysAreDistinct(df, w, last, n, name);
      }
    }
    hide ViewAgrees, World.FileOf, IsSafeIdentifier;
    forall k | k in w.session && df.covers(w.session[k], w.FileOf(name))
      ensures df.resolve(name) == Some(k)
    {
      assert ReadsView(df, w, k, name);
    }
  }

  // ---- Taking registrations and files away ----

  /** The stores without some registrations and files. */
  function Without(w: World, keys: set<string>, files: set<Location>): World {
    w.(session := w.session - keys, files := w.files - files)
  }

  /** Some view is registered under one of the keys or kept in one of the files. */
  ghost predicate Touches(df: DataFusion, w: World, keys: set<string>, files: set<Location>) {
    exists n :: n in w.catalog && TouchesView(df, w, keys, files, n)
  }

  ghost predicate TouchesView(df: DataFusion, w: World, keys: set<string>, files: set<Location>, n: string) {
    (df.resolve(n).Some? && df.resolve(n).value in keys) || w.FileOf(n) in files
  }

  lemma WithoutAgreesIff(df: DataFusion, w: World, last: map<string, Data>, keys: set<string>, files: set<Location>)
    requires Agrees(df, w, last)
    ensures Agrees(df, Without(w, keys, files), last) <==> !Touches(df, w, keys, files)
  {
    hide ValidateMaterializationQuery, IsSafeIdentifier, Locate, ViewPath, ViewFile, IsPlain;
    var next := Without(w, keys, files);
    forall n | n in w.catalog
      ensures ViewAgrees(df, next, last, n) <==> !TouchesView(df, w, keys, files, n)
    {
      assert ViewAgrees(df, w, last, n);
    }
    hide ViewAgrees;
    forall k, n | ReadsView(df, next, k, n)
      ensures ReadsView(df, w, k, n)
    {
    }
    hide ReadsView;
  }

  function KeysOf(df: DataFusion, name: string): set<string> {
    var key := df.resolve(name);
    if key.Some? then {key.value} else {}
  }

  lemma DeregisterIsWithout(df: DataFusion, w: World, name: string)
    ensures Deregister(df, w, name) == Without(w, KeysOf(df, name), {})
  {
  }

  lemma TouchesKeyIff(df: DataFusion, w: World, name: string)
    ensures Touches(df, w, KeysOf(df, name), {}) <==> Claimed(df, w, name)
  {
    if n :| n in w.catalog && SameKey(df, n, name) {
      assert TouchesView(df, w, KeysOf(df, name), {}, n);
    }
    if n :| n in w.catalog && TouchesView(df, w, KeysOf(df, name), {}, n) {
      assert SameKey(df, n, name);
    }
  }

  // ---- Drop ----

  /** The drop finds its view, reads no name, or reads one that no view's key stands behind. */
  ghost predicate DropIsClean(df: DataFusion, w: World, sql: string)
    requires |DROP| <= |sql|
  {
    var name := NameArgument(sql, DROP);
    name.None? || name.value in w.catalog || !Claimed(df, w, name.value)
  }

  /**
   Dropping a view removes its row, its file and every registration that reads it, and keeps every other
   view. A refused drop keeps the agreement exactly when no view has the key of the name that was read.
   */
  lemma DropViewAgreesIff(df: DataFusion, w: World, last: map<string, Data>, sql: string)
    requires Agrees(df, w, last) && |DROP| <= |sql|
    ensures var (next, r) := DropView(df, w, sql);
      && (r.Ok? ==> Agrees(df, next, last - {r.value}) && r.value in w.catalog && next.catalog == w.catalog - {r.value}
                    && df.resolve(r.value).value !in next.session && w.FileOf(r.value) !in next.files
                    && forall k :: k in next.session ==> !df.covers(next.session[k], w.FileOf(r.value)))
      && (r.Err? ==> next.catalog == w.catalog && next.files == w.files && (Agrees(df, next, last) <==> DropIsClean(df, w, sql)))
  {
    hide NameArgument, Agrees, Claimed, Touches, Locate, ViewPath, IsSafeIdentifier, ValidateMaterializationQuery, World.FileOf;
    var argument := NameArgument(sql, DROP);
    if argument.Some? {
      var name := argument.value;
      if name in w.catalog {
        DroppedAgrees(df, w, last, name);
      } else {
        DeregisterIsWithout(df, w, name);
        WithoutAgreesIff(df, w, last, KeysOf(df, name), {});
        TouchesKeyIff(df, w, name);
      }
    }
  }

  lemma DroppedAgrees(df: DataFusion, w: World, last: map<string, Data>, name: string)
    requires Agrees(df, w, last) && name in w.catalog
    ensures df.resolve(name).Some? && w.File(w.catalog[name].path) == w.FileOf(name)
    ensures var session := w.session - {df.resolve(name).value};
      && Agrees(df, World(w.cwd, w.root, w.catalog - {name}, w.files - {w.FileOf(name)}, session), last - {name})
      && forall k :: k in session ==> !df.covers(session[k], w.FileOf(name))
  {
    hide ValidateMaterializationQuery, IsSafeIdentifier, Locate, ViewPath, IsPlain;
    assert ViewAgrees(df, w, last, name);
    var key := df.resolve(name).value;
    var next := World(w.cwd, w.root, w.catalog - {name}, w.files - {w.FileOf(name)}, w.session - {key});
    forall n | n in next.catalog
      ensures ViewAgrees(df, next, last - {name}, n)
    {
      assert ViewAgrees(df, w, last, n);
      ViewFilesAreDistinct(w.cwd, w.root, n, name);
      if SameKey(df, n, name) {
        KeysAreDistinct(df, w, last, n, name);
      }
    }
    hide ViewAgrees, ViewFile;
    forall k, n | ReadsView(df, next, k, n)
      ensures df.resolve(n) == Some(k)
    {
      assert ReadsView(df, w, k, n);
    }
    forall k | k in next.session
      ensures !df.covers(next.session[k], w.FileOf(name))
    {
      assert ReadsView(df, w, k, name) ==> k == key;
    }
  }

  /** A refused drop leaves the stores as they were exactly when it reads no name or one that is not registered. */
  lemma RefusedDropUnchangedIff(df: DataFusion, w: World, sql: string)
    requires |DROP| <= |sql| && DropView(df, w, sql).1.Err?
    ensures var name := NameArgument(sql, DROP);
      DropView(df, w, sql).0 == w <==>
        name.None? || df.resolve(name.value).None? || df.resolve(name.value).value !in w.session
  {
    hide NameArgument, Locate;
    var name := NameArgument(sql, DROP);
    if name.Some? && df.resolve(name.value).Some? {
      var key := df.resolve(name.value).value;
      assert key !in w.session ==> w.session - {key} == w.session;
      assert key !in (w.session - {key});
    }
  }

  // ---- Tables ----

  /** The table's name and its answer, when CREATE TABLE AS gets as far as writing it. */
  function WrittenTable(df: DataFusion, w: World, sql: string): Option<(string, Data)>
    requires KeywordsEnd(sql, ["CREATE", "TABLE"], 0).Some?
  {
    var parsed := ParseCreateTable(sql);
    if parsed.Err? then None
    else
      var answer := df.answer(parsed.value.query, Tables(df, w));
      if answer.Batches? then Some((parsed.value.name, answer.data)) else None
  }

  /** The registration that CREATE TABLE AS makes, if it is not refused, reads some view's file. */
  ghost predicate TableReadsView(df: DataFusion, w: World, name: string) {
    var path := TablePath(w.root, name);
    df.resolve(name).Some? && df.readable(path, w.files.Keys + {w.File(path)}) && CoversView(df, w, path)
  }

  /**
   A CREATE TABLE AS that writes keeps the agreement exactly when no view has its name's key and its own
   registration reads no view's file; any other changes nothing.
   */
  lemma CreateTableAsAgreesIff(df: DataFusion, w: World, last: map<string, Data>, sql: string)
    requires Agrees(df, w, last) && KeywordsEnd(sql, ["CREATE", "TABLE"], 0).Some?
    ensures var next := CreateTableAs(df, w, sql).0; var written := WrittenTable(df, w, sql);
      && next.catalog == w.catalog
      && (written.None? ==> next == w)
      && (written.Some? ==> (Agrees(df, next, last) <==>
            !Claimed(df, w, written.value.0) && !TableReadsView(df, w, written.value.0)))
  {
    hide KeywordsEnd, ParseCreateTable, Agrees, Claimed, CoversView, Locate, TablePath, Tables, Store, IsSafeIdentifier;
    var written := WrittenTable(df, w, sql);
    if written.Some? {
      var (name, data) := written.value;
      var path := TablePath(w.root, name);
      ParsedTableIsSafe(sql);
      StoreIs(df, w, name, path, data);
      assert w.files[w.File(path) := data].Keys == w.files.Keys + {w.File(path)};
      TableWrittenAgrees(df, w, last, name, data);
      var written' := w.(files := w.files[w.File(path) := data]);
      var cleared := Deregister(df, written', name);
      DeregisterIsWithout(df, written', name);
      WithoutAgreesIff(df, written', last, KeysOf(df, name), {});
      TouchesKeyIff(df, written', name);
      SameClaims(df, w, written', name, path);
      if !Claimed(df, w, name) {
        AddedAgreesIff(df, cleared, last, name, path);
        SameClaims(df, w, cleared, name, path);
        if df.resolve(name).Some? {
          var key := df.resolve(name).value;
          assert (w.session - {key})[key := path] == w.session[key := path];
        }
      } else {
        ClaimedTableDisagrees(df, w, last, name, path, CreateTableAs(df, w, sql).0);
      }
    }
  }

  lemma SameClaims(df: DataFusion, w: World, v: World, name: string, source: string)
    requires v.catalog == w.catalog && v.cwd == w.cwd && v.root == w.root
    ensures Claimed(df, v, name) == Claimed(df, w, name) && CoversView(df, v, source) == CoversView(df, w, source)
  {
    hide SameKey, ViewFile;
  }

  /** A table that has taken a view's key, or freed it. */
  lemma ClaimedTableDisagrees(df: DataFusion, w: World, last: map<string, Data>, name: string, path: string, next: World)
    requires Agrees(df, w, last) && Claimed(df, w, name) && IsSafeIdentifier(name) && path == TablePath(w.root, name)
    requires next.catalog == w.catalog && next.cwd == w.cwd && next.root == w.root
    requires var key := df.resolve(name); key.Some? && key.value in next.session ==> next.session[key.value] == path
    ensures !Agrees(df, next, last)
  {
    hide ValidateMaterializationQuery, IsSafeIdentifier, Locate, ViewPath, TablePath, IsPlain, ReadsView;
    var n :| n in w.catalog && SameKey(df, n, name);
    assert ViewAgrees(df, w, last, n);
    SafeNameIsComponent(name);
    TableFilesAreNoViews(w.cwd, w.root, n, name);
    ViewPathLeads(w.cwd, w.root, n);
  }

  lemma ViewPathLeads(cwd: Location, root: string, n: string)
    ensures Locate(cwd, ViewPath(root, n)) == ViewFile(cwd, root, n)
  {
  }

  /** Writing a table's file is not seen by the views. */
  lemma TableWrittenAgrees(df: DataFusion, w: World, last: map<string, Data>, name: string, data: Data)
    requires Agrees(df, w, last) && IsSafeIdentifier(name)
    ensures Agrees(df, w.(files := w.files[w.File(TablePath(w.root, name)) := data]), last)
  {
    hide ValidateMaterializationQuery, IsSafeIdentifier, Locate, ViewPath, TablePath, ViewFile, IsPlain;
    var file := w.File(TablePath(w.root, name));
    var next := w.(files := w.files[file := data]);
    SafeNameIsComponent(name);
    forall n | IsSafeIdentifier(n)
      ensures w.FileOf(n) != file
    {
      TableFilesAreNoViews(w.cwd, w.root, n, name);
    }
    forall n | n in w.catalog
      ensures ViewAgrees(df, next, last, n)
    {
      assert ViewAgrees(df, w, last, n);
    }
    hide ViewAgrees;
    forall k, n | ReadsView(df, next, k, n)
      ensures ReadsView(df, w, k, n)
    {
    }
  }

  lemma ParsedTableIsSafe(sql: string)
    requires KeywordsEnd(sql, ["CREATE", "TABLE"], 0).Some? && ParseCreateTable(sql).Ok?
    ensures IsSafeIdentifier(ParseCreateTable(sql).value.name)
  {
    hide ValidateMaterializationQuery, FindAs, KeywordsEnd, IsSafeIdentifier, Trim;
  }

  /** The path that DROP TABLE makes of the name leads to some view's file. */
  ghost predicate LeadsToView(w: World, name: string) {
    exists n :: n in w.catalog && w.File(RawTablePath(w.root, name)) == w.FileOf(n)
  }

  /**
   DROP TABLE keeps the agreement exactly when the word it takes for a name has no schema, or has neither
   a view's key nor leads, pasted into the path, to a view's file.
   */
  lemma DropTableAgreesIff(df: DataFusion, w: World, last: map<string, Data>, table: string)
    requires Agrees(df, w, last)
    ensures var name := WithoutQuotes(table);
      && DropTable(df, w, table).0.catalog == w.catalog
      && (Agrees(df, DropTable(df, w, table).0, last) <==>
            df.resolve(name).None? || (!Claimed(df, w, name) && !LeadsToView(w, name)))
  {
    hide Agrees, WithoutQuotes, Locate, RawTablePath, ViewFile;
    var name := WithoutQuotes(table);
    if df.resolve(name).Some? {
      var keys, files := KeysOf(df, name), {w.File(RawTablePath(w.root, name))};
      assert DropTable(df, w, table).0 == Without(w, keys, files);
      WithoutAgreesIff(df, w, last, keys, files);
      TouchesTableIff(df, w, name);
    }
  }

  lemma TouchesTableIff(df: DataFusion, w: World, name: string)
    ensures Touches(df, w, KeysOf(df, name), {w.File(RawTablePath(w.root, name))}) <==>
      Claimed(df, w, name) || LeadsToView(w, name)
  {
    hide Locate, RawTablePath, ViewFile;
    var keys, files := KeysOf(df, name), {w.File(RawTablePath(w.root, name))};
    forall n
      ensures TouchesView(df, w, keys, files, n) <==>
        SameKey(df, n, name) || w.File(RawTablePath(w.root, name)) == w.FileOf(n)
    {
    }
    hide TouchesView, SameKey;
  }

  /** One more registration under a free key keeps the agreement exactly when its source covers no view's file. */
  lemma AddedAgreesIff(df: DataFusion, w: World, last: map<string, Data>, name: string, source: string)
    requires Agrees(df, w, last)
    ensures var key := df.resolve(name);
      key.Some? && key.value !in w.session ==>
        (Agrees(df, w.(session := w.session[key.value := source]), last) <==> !CoversView(df, w, source))
  {
    hide ValidateMaterializationQuery, IsSafeIdentifier, Locate, ViewPath, ViewFile, IsPlain, World.FileOf;
    var found := df.resolve(name);
    if found.Some? && found.value !in w.session {
      var key := found.value;
      var next := w.(session := w.session[key := source]);
      forall n | n in w.catalog
        ensures ViewAgrees(df, next, last, n) && df.resolve(n) != Some(key)
      {
        assert ViewAgrees(df, w, last, n);
        assert next.FileOf(n) == w.FileOf(n) by {
          SameFiles(w, next, n);
        }
      }
      hide ViewAgrees;
      forall n
        ensures next.FileOf(n) == w.FileOf(n)
      {
        SameFiles(w, next, n);
      }
      forall k, n | ReadsView(df, next, k, n)
        ensures k == key || ReadsView(df, w, k, n)
      {
      }
      if n :| n in w.catalog && df.covers(source, w.FileOf(n)) {
        assert ReadsView(df, next, key, n);
      }
    }
  }

  lemma SameFiles(w: World, v: World, n: string)
    requires v.cwd == w.cwd && v.root == w.root
    ensures v.FileOf(n) == w.FileOf(n)
  {
  }

  /** Registering a source keeps the agreement exactly when it is refused or covers no view's file. */
  lemma RegisterAgreesIff(df: DataFusion, w: World, last: map<string, Data>, name: string, source: string)
    requires Agrees(df, w, last)
    ensures var r := Register(df, w, name, source);
      r.Ok? ==> (Agrees(df, r.value, last) <==> !CoversView(df, w, source))
  {
    hide Agrees, CoversView;
    AddedAgreesIff(df, w, last, name, source);
  }
}
