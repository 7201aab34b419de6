/**
 The paths of the local warehouse (`engine.rs`), and the files they name: the file system reads a path
 component by component, from the root directory or from the working directory, skipping empty components
 and dots and going up at two dots.
 */
module WarehousePaths {
  import opened Text
  import opened SqlCommands

  // ---- Where a path leads ----

  /** The components that lead to a file, from the root directory on, which comes first. */
  type Location = seq<string>

  function Enter(dir: Location, component: string): Location {
    if component == "" || component == "." then dir
    else if component == ".." then (if |dir| <= 1 then dir else dir[..|dir| - 1])
    else dir + [component]
  }

  function SlashIndex(s: string): (k: nat)
    ensures k <= |s|
    ensures k < |s| ==> s[k] == '/'
  {
    if s == "" || s[0] == '/' then 0 else 1 + SlashIndex(s[1..])
  }

  function Walk(dir: Location, path: string): Location
    decreases |path|
  {
    var k := SlashIndex(path);
    var next := Enter(dir, path[..k]);
    if k == |path| then next else Walk(next, path[k + 1..])
  }

  const ROOT: Location := ["/"]

  /** Where a path leads for a process whose working directory is `cwd`. */
  function Locate(cwd: Location, path: string): Location {
    Walk(if "/" <= path then ROOT else cwd, path)
  }

  lemma SlashIndexAppend(a: string, b: string)
    ensures SlashIndex(a + "/" + b) == SlashIndex(a)
  {
    var s := a + "/" + b;
    if a == "" {
      assert s[0] == '/';
    } else {
      assert s[0] == a[0] && s[1..] == a[1..] + "/" + b;
      SlashIndexAppend(a[1..], b);
    }
  }

  lemma {:induction false} WalkAppend(dir: Location, a: string, b: string)
    ensures Walk(dir, a + "/" + b) == Walk(Walk(dir, a), b)
    decreases |a|
  {
    hide Enter, SlashIndex;
    SlashIndexAppend(a, b);
    var s, k := a + "/" + b, SlashIndex(a);
    assert s[..k] == a[..k];
    if k == |a| {
      assert s[k + 1..] == b;
    } else {
      assert s[k + 1..] == a[k + 1..] + "/" + b;
      WalkAppend(Enter(dir, a[..k]), a[k + 1..], b);
    }
  }

  /** A name that a directory can list: no slash, and neither empty nor a dot nor two dots. */
  predicate IsComponent(c: string) {
    '/' !in c && c != "" && c != "." && c != ".."
  }

  lemma {:induction false} NoSlash(s: string)
    requires '/' !in s
    ensures SlashIndex(s) == |s|
  {
    if s != "" {
      NoSlash(s[1..]);
    }
  }

  lemma WalkComponent(dir: Location, c: string)
    requires IsComponent(c)
    ensures Walk(dir, c) == dir + [c]
  {
    NoSlash(c);
    assert c[..|c|] == c;
  }

  /** Three components behind a directory. */
  lemma WalkThree(dir: Location, a: string, b: string, c: string)
    requires IsComponent(a) && IsComponent(b) && IsComponent(c)
    ensures Walk(dir, a + "/" + b + "/" + c) == dir + [a, b, c]
  {
    hide Walk, IsComponent;
    WalkAppend(dir, a + "/" + b, c);
    WalkAppend(dir, a, b);
    WalkComponent(dir, a);
    WalkComponent(dir + [a], b);
    WalkComponent(dir + [a] + [b], c);
    assert dir + [a] + [b] + [c] == dir + [a, b, c];
  }

  // ---- The program's paths ----

  function TrimSlashes(s: string): string {
    if s != "" && s[|s| - 1] == '/' then TrimSlashes(s[..|s| - 1]) else s
  }

  function TrimLeadingSlashes(s: string): string {
    if s != "" && s[0] == '/' then TrimLeadingSlashes(s[1..]) else s
  }

  function WarehouseUri(root: string, relative: string): string {
    TrimSlashes(root) + "/" + TrimLeadingSlashes(relative)
  }

  const VIEWS := "opensnow/materialized_views/"
  const TABLES := "opensnow/public/"
  const SUFFIX := ".parquet"

  /** The path of a view's file, and of the file of a table made by CREATE TABLE AS. */
  function ViewPath(root: string, name: string): string {
    WarehouseUri(root, VIEWS + name + SUFFIX)
  }

  function TablePath(root: string, name: string): string {
    WarehouseUri(root, TABLES + name + SUFFIX)
  }

  /** DROP TABLE and the start of the server write the path out, without trimming the root. */
  function RawTablePath(root: string, name: string): string {
    root + "/" + TABLES + name + SUFFIX
  }

  function ViewFile(cwd: Location, root: string, name: string): Location {
    Locate(cwd, ViewPath(root, name))
  }

  // ---- Where the program's paths lead ----

  function Base(cwd: Location, root: string): Location {
    Walk(if root == "" || root[0] == '/' then ROOT else cwd, root)
  }

  lemma LocateBelow(cwd: Location, root: string, relative: string)
    ensures Locate(cwd, root + "/" + relative) == Walk(Base(cwd, root), relative)
  {
    hide Walk;
    var path := root + "/" + relative;
    assert "/" <= path <==> root == "" || root[0] == '/' by {
      assert path[0] == if root == "" then '/' else root[0];
    }
    WalkAppend(if "/" <= path then ROOT else cwd, root, relative);
  }

  /** Slashes behind the root lead nowhere else. */
  lemma {:induction false} BaseOfTrimmed(cwd: Location, root: string)
    ensures Base(cwd, TrimSlashes(root)) == Base(cwd, root)
    decreases |root|
  {
    if root != "" && root[|root| - 1] == '/' {
      var front := root[..|root| - 1];
      BaseOfTrimmed(cwd, front);
      var start := if root[0] == '/' then ROOT else cwd;
      assert root == front + "/" + "";
      WalkAppend(start, front, "");
      assert front != "" ==> front[0] == root[0];
    }
  }

  lemma IdentifierHasNoSlash(name: string)
    requires forall i :: 0 <= i < |name| ==> IsIdentChar(name[i])
    ensures '/' !in name
  {
  }

  lemma SafeNameIsComponent(name: string)
    requires IsSafeIdentifier(name)
    ensures IsComponent(name + SUFFIX)
  {
    IdentifierHasNoSlash(name);
    assert '/' !in SUFFIX && |name + SUFFIX| > 2;
  }

  lemma FixedComponents()
    ensures IsComponent("opensnow") && IsComponent("materialized_views") && IsComponent("public")
  {
  }

  lemma ViewRelative(name: string)
    ensures VIEWS + name + SUFFIX == "opensnow" + "/" + "materialized_views" + "/" + (name + SUFFIX)
    ensures TrimLeadingSlashes(VIEWS + name + SUFFIX) == VIEWS + name + SUFFIX
  {
    assert (VIEWS + name + SUFFIX)[0] == 'o';
  }

  lemma TableRelative(name: string)
    ensures TABLES + name + SUFFIX == "opensnow" + "/" + "public" + "/" + (name + SUFFIX)
    ensures TrimLeadingSlashes(TABLES + name + SUFFIX) == TABLES + name + SUFFIX
  {
    assert (TABLES + name + SUFFIX)[0] == 'o';
  }

  /** A view's file lies in the views' directory, whatever slashes the root ends in. */
  lemma ViewFileIs(cwd: Location, root: string, name: string)
    requires IsSafeIdentifier(name)
    ensures ViewFile(cwd, root, name) == Base(cwd, root) + ["opensnow", "materialized_views", name + SUFFIX]
  {
    hide IsSafeIdentifier, Walk, Base, IsComponent, TrimSlashes, TrimLeadingSlashes, Locate;
    var relative := VIEWS + name + SUFFIX;
    ViewRelative(name);
    SafeNameIsComponent(name);
    FixedComponents();
    LocateBelow(cwd, TrimSlashes(root), relative);
    BaseOfTrimmed(cwd, root);
    WalkThree(Base(cwd, root), "opensnow", "materialized_views", name + SUFFIX);
  }

  lemma TableFileIs(cwd: Location, root: string, name: string)
    requires IsComponent(name + SUFFIX)
    ensures Locate(cwd, TablePath(root, name)) == Base(cwd, root) + ["opensnow", "public", name + SUFFIX]
    ensures Locate(cwd, RawTablePath(root, name)) == Base(cwd, root) + ["opensnow", "public", name + SUFFIX]
  {
    hide Walk, Base, IsComponent, TrimSlashes, TrimLeadingSlashes, Locate;
    var relative := TABLES + name + SUFFIX;
    TableRelative(name);
    FixedComponents();
    LocateBelow(cwd, TrimSlashes(root), relative);
    LocateBelow(cwd, root, relative);
    BaseOfTrimmed(cwd, root);
    assert RawTablePath(root, name) == root + "/" + relative;
    WalkThree(Base(cwd, root), "opensnow", "public", name + SUFFIX);
  }

  /** Different views have different files. */
  lemma ViewFilesAreDistinct(cwd: Location, root: string, n: string, m: string)
    requires IsSafeIdentifier(n) && IsSafeIdentifier(m)
    ensures ViewFile(cwd, root, n) == ViewFile(cwd, root, m) ==> n == m
  {
    hide IsSafeIdentifier, ViewFile;
    ViewFileIs(cwd, root, n);
    ViewFileIs(cwd, root, m);
    var k := |Base(cwd, root)| + 2;
    assert ViewFile(cwd, root, n)[k] == n + SUFFIX && ViewFile(cwd, root, m)[k] == m + SUFFIX;
    assert (n + SUFFIX)[..|n + SUFFIX| - |SUFFIX|] == n && (m + SUFFIX)[..|m + SUFFIX| - |SUFFIX|] == m;
  }

  /** No view shares a file with a file that the tables' directory lists. */
  lemma TableFilesAreNoViews(cwd: Location, root: string, n: string, m: string)
    requires IsSafeIdentifier(n) && IsComponent(m + SUFFIX)
    ensures ViewFile(cwd, root, n) != Locate(cwd, TablePath(root, m))
    ensures ViewFile(cwd, root, n) != Locate(cwd, RawTablePath(root, m))
  {
    hide IsSafeIdentifier, IsComponent, ViewFile, Locate;
    ViewFileIs(cwd, root, n);
    TableFileIs(cwd, root, m);
    var k := |Base(cwd, root)| + 1;
    assert ViewFile(cwd, root, n)[k] == "materialized_views" && Locate(cwd, TablePath(root, m))[k] == "public";
    assert "materialized_views" != "public" by {
      assert "materialized_views"[0] != "public"[0];
    }
  }

  /** Going up from the tables' directory leads to a view's file. */
  lemma PathOfTableLeadsToView(cwd: Location, root: string, name: string)
    requires IsSafeIdentifier(name)
    ensures Locate(cwd, RawTablePath(root, "../materialized_views/" + name)) == ViewFile(cwd, root, name)
  {
    hide IsSafeIdentifier, Walk, Base, IsComponent, ViewFile, Enter;
    var file := name + SUFFIX;
    var up := "opensnow" + "/" + "public" + "/" + "..";
    var down := "materialized_views" + "/" + file;
    var relative := TABLES + ("../materialized_views/" + name) + SUFFIX;
    assert relative == up + "/" + down;
    assert RawTablePath(root, "../materialized_views/" + name) == root + "/" + relative;
    LocateBelow(cwd, root, relative);
    SafeNameIsComponent(name);
    FixedComponents();
    ViewFileIs(cwd, root, name);
    WalkAppend(Base(cwd, root), up, down);
    WalkUp(Base(cwd, root));
    WalkAppend(Base(cwd, root) + ["opensnow"], "materialized_views", file);
    WalkComponent(Base(cwd, root) + ["opensnow"], "materialized_views");
    WalkComponent(Base(cwd, root) + ["opensnow"] + ["materialized_views"], file);
  }

  lemma WalkUp(dir: Location)
    ensures Walk(dir, "opensnow" + "/" + "public" + "/" + "..") == dir + ["opensnow"]
  {
    hide Walk, IsComponent;
    FixedComponents();
    WalkAppend(dir, "opensnow" + "/" + "public", "..");
    WalkAppend(dir, "opensnow", "public");
    WalkComponent(dir, "opensnow");
    WalkComponent(dir + ["opensnow"], "public");
    WalkTwoDots(dir + ["opensnow"] + ["public"]);
  }

  lemma WalkTwoDots(dir: Location)
    ensures Walk(dir, "..") == Enter(dir, "..")
  {
    NoSlash("..");
    assert ".."[..2] == "..";
  }

  lemma GoUp(dir: Location, c: string, rest: string)
    requires dir != []
    ensures Walk(dir + [c], "../" + rest) == Walk(dir, rest)
  {
    assert "../" + rest == ".." + "/" + rest;
    WalkAppend(dir + [c], "..", rest);
    WalkTwoDots(dir + [c]);
  }

  lemma GoDown(dir: Location, c: string, rest: string)
    requires IsComponent(c)
    ensures Walk(dir, c + "/" + rest) == Walk(dir + [c], rest)
  {
    WalkAppend(dir, c, rest);
    WalkComponent(dir, c);
  }

  const DOWN := "opensnow/materialized_views/v.parquet"

  function Up(rest: string): string {
    "../" + ("../" + ("../" + ("../" + rest)))
  }

  /** A path that climbs out of the working directory and back leads to the file of the view `v` under a relative root. */
  lemma ClimbingPathLeadsToView()
    ensures Locate(["/", "srv"], RawTablePath("data", "../../../../srv/data/" + VIEWS + "v"))
         == ViewFile(["/", "srv"], "data", "v")
  {
    hide Walk, IsComponent, ViewFile, IsSafeIdentifier;
    var cwd: Location := ["/", "srv"];
    ClimbTexts();
    ClimbComponents();
    FixedComponents();
    hide Up, RawTablePath;
    LocateBelow(cwd, "data", "opensnow/" + ("public/" + Up("srv/" + ("data/" + DOWN))));
    WalkComponent(cwd, "data");
    ClimbWalk(DOWN);
    ViewFileIs(cwd, "data", "v");
    WalkThree(["/", "srv", "data"], "opensnow", "materialized_views", "v.parquet");
    assert cwd + ["data"] == ["/", "srv", "data"];
  }

  lemma ClimbTexts()
    ensures RawTablePath("data", "../../../../srv/data/" + VIEWS + "v")
         == "data" + "/" + ("opensnow/" + ("public/" + Up("srv/" + ("data/" + DOWN))))
    ensures DOWN == "opensnow" + "/" + "materialized_views" + "/" + "v.parquet" && "v" + SUFFIX == "v.parquet"
  {
    hide RawTablePath, Up;
    ViewText();
    UpText();
    PastedText("data", "../../../../srv/data/", VIEWS + "v", DOWN);
    UpAppend("srv/data/", DOWN);
    Regroup("srv/", "data/", DOWN);
    assert "srv/" + "data/" == "srv/data/";
    assert "../../../../srv/data/" + VIEWS + "v" == "../../../../srv/data/" + (VIEWS + "v");
  }

  lemma ViewText()
    ensures VIEWS + "v" + SUFFIX == DOWN
    ensures DOWN == "opensnow" + "/" + "materialized_views" + "/" + "v.parquet" && "v" + SUFFIX == "v.parquet"
  {
  }

  lemma UpText()
    ensures "../../../../srv/data/" == Up("srv/data/")
  {
  }

  lemma Regroup(a: string, b: string, c: string)
    ensures a + b + c == a + (b + c)
  {
  }

  lemma PastedText(root: string, climb: string, name: string, file: string)
    requires name + SUFFIX == file
    ensures RawTablePath(root, climb + name) == root + "/" + ("opensnow/" + ("public/" + (climb + file)))
  {
    assert TABLES == "opensnow/" + "public/";
    var o, p := "opensnow/", "public/";
    assert root + "/" + (o + p) + (climb + name) + SUFFIX == root + "/" + (o + (p + (climb + (name + SUFFIX))));
  }

  lemma UpAppend(a: string, b: string)
    ensures Up(a) + b == Up(a + b)
  {
  }

  lemma ClimbWalk(down: string)
    ensures Walk(["/", "srv", "data"], "opensnow/" + ("public/" + Up("srv/" + ("data/" + down)))) == Walk(["/", "srv", "data"], down)
  {
    hide Walk, IsComponent, Up;
    var data: Location := ["/", "srv", "data"];
    var rest := "srv/" + ("data/" + down);
    FixedComponents();
    ClimbComponents();
    assert "opensnow/" + ("public/" + Up(rest)) == "opensnow" + "/" + ("public/" + Up(rest));
    GoDown(data, "opensnow", "public/" + Up(rest));
    assert "public/" + Up(rest) == "public" + "/" + Up(rest);
    GoDown(data + ["opensnow"], "public", Up(rest));
    ClimbToRoot(data, rest);
    assert rest == "srv" + "/" + ("data/" + down) && "data/" + down == "data" + "/" + down;
    GoDown(ROOT, "srv", "data/" + down);
    GoDown(ROOT + ["srv"], "data", down);
    assert ROOT + ["srv"] + ["data"] == data;
  }

  lemma ClimbToRoot(data: Location, rest: string)
    requires data == ["/", "srv", "data"]
    ensures Walk(data + ["opensnow"] + ["public"], Up(rest)) == Walk(ROOT, rest)
  {
    hide Walk;
    GoUp(data + ["opensnow"], "public", "../" + ("../" + ("../" + rest)));
    GoUp(data, "opensnow", "../" + ("../" + rest));
    assert data == ["/", "srv"] + ["data"] && ["/", "srv"] == ROOT + ["srv"];
    GoUp(["/", "srv"], "data", "../" + rest);
    GoUp(ROOT, "srv", rest);
  }

  lemma ClimbComponents()
    ensures IsComponent("srv") && IsComponent("data") && IsComponent("v.parquet") && IsSafeIdentifier("v")
  {
  }

  // ---- Steps and texts ----

  /** An empty component and a dot stay, two dots go up but never above the root, and any other name goes down. */
  lemma StepIs(dir: Location, name: string)
    requires dir != [] && '/' !in name
    ensures Walk(dir, name) ==
      if name in {"", "."} then dir
      else if name == ".." then (if |dir| == 1 then dir else dir[..|dir| - 1])
      else dir + [name]
  {
    assert forall i :: 0 <= i < |name| ==> name[i] in name;
    NoSlash(name);
    assert name[..|name|] == name;
  }

  lemma {:induction false} TrimmedSlashes(core: string, slashes: string)
    requires (core == "" || core[|core| - 1] != '/') && forall i :: 0 <= i < |slashes| ==> slashes[i] == '/'
    ensures TrimSlashes(core + slashes) == core
  {
    if slashes == "" {
      assert core + slashes == core;
    } else {
      var n, all := |slashes| - 1, core + slashes;
      assert all[..|all| - 1] == core + slashes[..n] && all[|all| - 1] == slashes[n];
      TrimmedSlashes(core, slashes[..n]);
    }
  }

  lemma {:induction false} TrimmedLeadingSlashes(slashes: string, core: string)
    requires (core == "" || core[0] != '/') && forall i :: 0 <= i < |slashes| ==> slashes[i] == '/'
    ensures TrimLeadingSlashes(slashes + core) == core
  {
    if slashes == "" {
      assert slashes + core == core;
    } else {
      assert (slashes + core)[1..] == slashes[1..] + core;
      TrimmedLeadingSlashes(slashes[1..], core);
    }
  }

  /** A path of the warehouse is the root without the slashes it ends in, one slash, and the rest without those it starts with. */
  lemma UriIs(core: string, slashes: string, lead: string, relative: string)
    requires (core == "" || core[|core| - 1] != '/') && (relative == "" || relative[0] != '/')
    requires forall i :: 0 <= i < |slashes| ==> slashes[i] == '/'
    requires forall i :: 0 <= i < |lead| ==> lead[i] == '/'
    ensures WarehouseUri(core + slashes, lead + relative) == core + "/" + relative
  {
    TrimmedSlashes(core, slashes);
    TrimmedLeadingSlashes(lead, relative);
  }

  lemma PathTextIs(core: string, slashes: string, directory: string, name: string)
    requires (core == "" || core[|core| - 1] != '/') && forall i :: 0 <= i < |slashes| ==> slashes[i] == '/'
    requires directory != "" && directory[0] != '/'
    ensures WarehouseUri(core + slashes, directory + name + SUFFIX) == core + "/" + directory + name + SUFFIX
  {
    hide TrimSlashes, TrimLeadingSlashes;
    var relative := directory + name + SUFFIX;
    assert relative[0] == directory[0] && "" + relative == relative;
    UriIs(core, slashes, "", relative);
    assert core + "/" + (directory + name + SUFFIX) == core + "/" + directory + name + SUFFIX;
  }

  /** The paths of the files of views and tables. */
  lemma PathTextsAre(core: string, slashes: string, name: string)
    requires (core == "" || core[|core| - 1] != '/') && forall i :: 0 <= i < |slashes| ==> slashes[i] == '/'
    ensures ViewPath(core + slashes, name) == core + "/" + "opensnow/materialized_views/" + name + ".parquet"
    ensures TablePath(core + slashes, name) == core + "/" + "opensnow/public/" + name + ".parquet"
    ensures RawTablePath(core, name) == core + "/" + "opensnow/public/" + name + ".parquet"
  {
    PathTextIs(core, slashes, VIEWS, name);
    PathTextIs(core, slashes, TABLES, name);
  }
}
