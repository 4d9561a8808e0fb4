/** The consolidator: every ".csv" of a list of output folders is read, tagged with labels read
    off its file name (statistic type, extent, mask) and stripped of three bookkeeping columns,
    and the tagged tables are concatenated, in folder and listing order, into one table saved as
    `Outputs/CSV/output.csv`. Nothing is caught: a missing folder, an unreadable table or a
    table without a bookkeeping column ends the run before anything is saved. */
module Consolidation {
  import opened Common
  import opened Strings
  import opened Tables
  import opened Files
  import opened Batch
  import opened Naming
  import opened Annual

  const NAME_COLUMN := "Name"
  const TYPE_COLUMN := "Type"
  const EXTENT_COLUMN := "Extent"
  const MASK_COLUMN := "Mask"

  /** The columns dropped from every table before it is concatenated. */
  const BOOKKEEPING: seq<string> := ["OID_", "COUNT", "AREA"]

  const CLEAN_OUTPUT := FilePath(["Outputs", "CSV"], "output.csv")

  // ---------------------------------------------------------------- labels

  /** The statistic a table holds, by keyword, emissions first. */
  function TypeLabel(fileName: string): string
  {
    if Contains(fileName, "emis") then "gross emissions"
    else if Contains(fileName, "removals") then "gross removals"
    else "net flux"
  }

  function ExtentLabel(fileName: string): string
  {
    if Contains(fileName, "forest") then "forest extent" else "full extent"
  }

  /** The mask a table was computed under, by keyword, tree cover and gain first. */
  function MaskLabel(fileName: string): string
  {
    if Contains(fileName, "tcd_gain") then "tcd and gain"
    else if Contains(fileName, "_tcd.") then "tcd"
    else "no mask"
  }

  /** The four cells every row of a table gets from its file name. */
  function Labels(fileName: string): map<string, Value>
  {
    map[NAME_COLUMN := Text(fileName), TYPE_COLUMN := Text(TypeLabel(fileName)),
        EXTENT_COLUMN := Text(ExtentLabel(fileName)), MASK_COLUMN := Text(MaskLabel(fileName))]
  }

  /** A row as the consolidator emits it: its cells with the labels added (replacing cells of
      the same name) and the bookkeeping cells removed. */
  function Tagged(row: Row, fileName: string): Row
  {
    (row + Labels(fileName)) - ColumnSet(BOOKKEEPING)
  }

  // ---------------------------------------------------------------- one table

  /** The four column assignments of `load_and_process_csv`. */
  function Label(t: Table, fileName: string): Table
  {
    var named := AssignColumn(t, NAME_COLUMN, Text(fileName));
    var typed := AssignColumn(named, TYPE_COLUMN, Text(TypeLabel(fileName)));
    var extended := AssignColumn(typed, EXTENT_COLUMN, Text(ExtentLabel(fileName)));
    AssignColumn(extended, MASK_COLUMN, Text(MaskLabel(fileName)))
  }

  /** The assignments and the drop of `load_and_process_csv`, on the table read. */
  function ProcessCsv(t: Table, fileName: string): Result<Table>
  {
    DropColumns(Label(t, fileName), BOOKKEEPING)
  }

  /** `load_and_process_csv(file_path, file_name)`, as a value. */
  function LoadAndProcessSpec(fs: FileSystem, path: FilePath, fileName: string): Result<Table>
  {
    match ReadTable(fs, path)
    case Failure(e) => Failure(e)
    case Success(t) => ProcessCsv(t, fileName)
  }

  /** `load_and_process_csv`: the table read is changed column by column, then its bookkeeping
      columns are dropped in place. */
  method LoadAndProcessCsv(fs: FileSystem, path: FilePath, fileName: string) returns (r: Result<Table>)
    ensures r == LoadAndProcessSpec(fs, path, fileName)
  {
    var read := ReadTable(fs, path);
    if read.Failure? {
      return Failure(read.error);
    }
    var csv := read.value;
    csv := AssignColumn(csv, NAME_COLUMN, Text(fileName));
    csv := AssignColumn(csv, TYPE_COLUMN, Text(TypeLabel(fileName)));
    csv := AssignColumn(csv, EXTENT_COLUMN, Text(ExtentLabel(fileName)));
    csv := AssignColumn(csv, MASK_COLUMN, Text(MaskLabel(fileName)));
    r := DropColumns(csv, BOOKKEEPING);
  }

  /** Assigning the four labels one after the other gives each row its labels. */
  lemma LabelRow(row: Row, fileName: string)
    ensures row[NAME_COLUMN := Text(fileName)][TYPE_COLUMN := Text(TypeLabel(fileName))]
               [EXTENT_COLUMN := Text(ExtentLabel(fileName))][MASK_COLUMN := Text(MaskLabel(fileName))] ==
            row + Labels(fileName)
  {
  }

  /** The labelled table: the table's columns and the label columns, each row with its labels. */
  lemma LabelShape(t: Table, fileName: string)
    ensures |Label(t, fileName).rows| == |t.rows|
    ensures ColumnSet(Label(t, fileName).columns) == ColumnSet(t.columns) + Labels(fileName).Keys
    ensures forall k :: 0 <= k < |t.rows| ==> Label(t, fileName).rows[k] == t.rows[k] + Labels(fileName)
    ensures WellFormed(t) ==> WellFormed(Label(t, fileName))
  {
    forall k | 0 <= k < |t.rows| ensures Label(t, fileName).rows[k] == t.rows[k] + Labels(fileName) {
      LabelRow(t.rows[k], fileName);
    }
  }

  /** Processing a table fails exactly when it lacks a bookkeeping column, and then names such
      a column. */
  lemma ProcessCsvOutcome(t: Table, fileName: string)
    ensures ProcessCsv(t, fileName).Success? <==> forall c :: c in BOOKKEEPING ==> c in t.columns
    ensures ProcessCsv(t, fileName).Failure? ==>
      var e := ProcessCsv(t, fileName).error;
      e.ColumnNotFound? && e.column in BOOKKEEPING && e.column !in t.columns
  {
    BookkeepingKept(t, fileName);
  }

  /** Labelling neither adds nor removes a bookkeeping column. */
  lemma BookkeepingKept(t: Table, fileName: string)
    ensures forall c :: c in BOOKKEEPING ==> (c in Label(t, fileName).columns <==> c in t.columns)
  {
    LabelShape(t, fileName);
    var cols := Label(t, fileName).columns;
    forall c | c in BOOKKEEPING ensures c in cols <==> c in t.columns {
      assert c in cols <==> c in ColumnSet(cols);
      assert c in t.columns <==> c in ColumnSet(t.columns);
      assert c !in Labels(fileName).Keys;
    }
  }

  /** A processed table has the table's columns and the label columns, less the bookkeeping
      ones, and each row is the tagged row. */
  lemma ProcessCsvRows(t: Table, fileName: string)
    requires ProcessCsv(t, fileName).Success?
    ensures
      var r := ProcessCsv(t, fileName).value;
      && ColumnSet(r.columns) == (ColumnSet(t.columns) + Labels(fileName).Keys) - ColumnSet(BOOKKEEPING)
      && |r.rows| == |t.rows|
      && (forall k :: 0 <= k < |t.rows| ==> r.rows[k] == Tagged(t.rows[k], fileName))
      && (WellFormed(t) ==> WellFormed(r))
  {
    LabelShape(t, fileName);
    var r := ProcessCsv(t, fileName).value;
    assert ColumnSet(r.columns) == ColumnSet(Label(t, fileName).columns) - ColumnSet(BOOKKEEPING);
  }

  // ---------------------------------------------------------------- all tables

  /** `r`'s table passed on to `f`, or `r`'s error. */
  function Chain(r: Result<Table>, f: Table -> Result<Table>): Result<Table>
  {
    match r
    case Failure(e) => Failure(e)
    case Success(t) => f(t)
  }

  /** The inner loop of `zonal_stats_clean` over one folder's listing: each ".csv" is processed
      and appended to the accumulated table; any other entry is passed over. */
  function CleanFiles(fs: FileSystem, folder: Folder, names: seq<string>, acc: Table): Result<Table>
  {
    if names == [] then Success(acc)
    else if EndsWith(names[0], ".csv") then
      match LoadAndProcessSpec(fs, FilePath(folder, names[0]), names[0])
      case Failure(e) => Failure(e)
      case Success(t) => CleanFiles(fs, folder, names[1..], ConcatTables(acc, t))
    else CleanFiles(fs, folder, names[1..], acc)
  }

  /** The outer loop over the folders: each is listed, then its files are folded in. */
  function CleanFolders(fs: FileSystem, folders: seq<Folder>, acc: Table): Result<Table>
  {
    if folders == [] then Success(acc)
    else
      match ListDir(fs, folders[0])
      case Failure(e) => Failure(e)
      case Success(names) =>
        match CleanFiles(fs, folders[0], names, acc)
        case Failure(e) => Failure(e)
        case Success(d) => CleanFolders(fs, folders[1..], d)
  }

  /** `zonal_stats_clean(input_folders)`, as a value: one save, at the end, of everything
      accumulated from an empty table. */
  function ZonalStatsCleanSpec(fs: FileSystem, folders: seq<Folder>): Run
  {
    match CleanFolders(fs, folders, Empty)
    case Failure(e) => Abort(e)
    case Success(df) => Run([SaveTable(CLEAN_OUTPUT, df)], Completed)
  }

  lemma CleanFoldersFrom(fs: FileSystem, folders: seq<Folder>, i: int, acc: Table)
    requires 0 <= i < |folders|
    ensures CleanFolders(fs, folders[i..], acc) ==
      if folders[i] !in fs.listings then Failure(FolderNotFound(folders[i]))
      else Chain(CleanFiles(fs, folders[i], fs.listings[folders[i]], acc), d => CleanFolders(fs, folders[i + 1..], d))
  {
    assert folders[i..][1..] == folders[i + 1..];
  }

  lemma CleanFilesFrom(fs: FileSystem, folder: Folder, names: seq<string>, j: int, acc: Table)
    requires 0 <= j < |names|
    ensures CleanFiles(fs, folder, names[j..], acc) ==
      if EndsWith(names[j], ".csv") then
        Chain(LoadAndProcessSpec(fs, FilePath(folder, names[j]), names[j]),
              t => CleanFiles(fs, folder, names[j + 1..], ConcatTables(acc, t)))
      else CleanFiles(fs, folder, names[j + 1..], acc)
  {
    assert names[j..][1..] == names[j + 1..];
  }

  /** The inner loop of `zonal_stats_clean`: the entries of one folder's listing, each ".csv"
      processed and appended to `df`. */
  method CleanFolder(fs: FileSystem, folder: Folder, names: seq<string>, df: Table) returns (r: Result<Table>)
    ensures r == CleanFiles(fs, folder, names, df)
  {
    var acc := df;
    var j := 0;
    while j < |names|
      invariant 0 <= j <= |names|
      invariant CleanFiles(fs, folder, names[j..], acc) == CleanFiles(fs, folder, names, df)
    {
      var file := names[j];
      CleanFilesFrom(fs, folder, names, j, acc);
      if EndsWith(file, ".csv") {
        var csv := LoadAndProcessCsv(fs, FilePath(folder, file), file);
        if csv.Failure? {
          return Failure(csv.error);
        }
        acc := ConcatTables(acc, csv.value);
      }
      j := j + 1;
    }
    return Success(acc);
  }

  /** `zonal_stats_clean`. */
  method ZonalStatsClean(fs: FileSystem, folders: seq<Folder>) returns (run: Run)
    ensures run == ZonalStatsCleanSpec(fs, folders)
  {
    var df := Empty;
    var i := 0;
    while i < |folders|
      invariant 0 <= i <= |folders|
      invariant CleanFolders(fs, folders[i..], df) == CleanFolders(fs, folders, Empty)
    {
      var folder := folders[i];
      CleanFoldersFrom(fs, folders, i, df);
      var listing := ListDir(fs, folder);
      if listing.Failure? {
        return Abort(listing.error);
      }
      var merged := CleanFolder(fs, folder, listing.value, df);
      if merged.Failure? {
        return Abort(merged.error);
      }
      df := merged.value;
      i := i + 1;
    }
    return Run([SaveTable(CLEAN_OUTPUT, df)], Completed);
  }

  // ---------------------------------------------------------------- the fold over all tables

  /** How a path becomes the table folded in, or the error that stops the fold. */
  type Loader = FilePath -> Result<Table>

  /** The consolidator's loader: read the table and process it under its file name. */
  function CsvLoader(fs: FileSystem): Loader
  {
    (p: FilePath) => LoadAndProcessSpec(fs, p, p.name)
  }

  /** Folding the tables at `paths`, in order, into the accumulated table; the first table
      that cannot be loaded stops the fold. */
  function FoldPaths(load: Loader, paths: seq<FilePath>, acc: Table): Result<Table>
  {
    if paths == [] then Success(acc)
    else
      match load(paths[0])
      case Failure(e) => Failure(e)
      case Success(t) => FoldPaths(load, paths[1..], ConcatTables(acc, t))
  }

  /** The inner loop is the fold over the folder's ".csv" paths: every other entry is
      ignored. */
  lemma {:induction false} CleanFilesIsFold(fs: FileSystem, folder: Folder, names: seq<string>, acc: Table)
    ensures CleanFiles(fs, folder, names, acc) == FoldPaths(CsvLoader(fs), ListFiles(folder, names, ".csv"), acc)
  {
    if names != [] {
      if EndsWith(names[0], ".csv") {
        var rest := ListFiles(folder, names[1..], ".csv");
        assert ([FilePath(folder, names[0])] + rest)[1..] == rest;
        match LoadAndProcessSpec(fs, FilePath(folder, names[0]), names[0])
        case Failure(e) =>
        case Success(t) => CleanFilesIsFold(fs, folder, names[1..], ConcatTables(acc, t));
      } else {
        CleanFilesIsFold(fs, folder, names[1..], acc);
      }
    }
  }

  /** The ".csv" paths of every folder, folder after folder, in listing order. */
  function AllCsv(fs: FileSystem, folders: seq<Folder>): seq<FilePath>
    requires forall f :: f in folders ==> f in fs.listings
  {
    if folders == [] then []
    else ListFiles(folders[0], fs.listings[folders[0]], ".csv") + AllCsv(fs, folders[1..])
  }

  /** Folding in two runs of paths is folding in the first, then the second. */
  lemma {:induction false} FoldAppend(load: Loader, a: seq<FilePath>, b: seq<FilePath>, acc: Table)
    ensures FoldPaths(load, a + b, acc) == Chain(FoldPaths(load, a, acc), d => FoldPaths(load, b, d))
  {
    if a == [] {
      assert a + b == b;
    } else {
      assert (a + b)[0] == a[0] && (a + b)[1..] == a[1..] + b;
      match load(a[0])
      case Failure(e) =>
      case Success(t) => FoldAppend(load, a[1..], b, ConcatTables(acc, t));
    }
  }

  /** When every folder is there, the two loops are the fold over all their ".csv" tables. */
  lemma {:induction false} CleanFoldersIsFold(fs: FileSystem, folders: seq<Folder>, acc: Table)
    requires forall f :: f in folders ==> f in fs.listings
    ensures CleanFolders(fs, folders, acc) == FoldPaths(CsvLoader(fs), AllCsv(fs, folders), acc)
  {
    if folders != [] {
      var here := ListFiles(folders[0], fs.listings[folders[0]], ".csv");
      CleanFilesIsFold(fs, folders[0], fs.listings[folders[0]], acc);
      FoldAppend(CsvLoader(fs), here, AllCsv(fs, folders[1..]), acc);
      assert forall f :: f in folders[1..] ==> f in folders;
      match FoldPaths(CsvLoader(fs), here, acc)
      case Failure(e) =>
      case Success(d) => CleanFoldersIsFold(fs, folders[1..], d);
    }
  }

  /** A folder that is not there fails the whole consolidation. */
  lemma {:induction false} CleanFoldersMissing(fs: FileSystem, folders: seq<Folder>, f: Folder, acc: Table)
    requires f in folders && f !in fs.listings
    ensures CleanFolders(fs, folders, acc).Failure?
  {
    if folders[0] != f {
      assert f in folders[1..];
      match ListDir(fs, folders[0])
      case Failure(e) =>
      case Success(names) =>
        match CleanFiles(fs, folders[0], names, acc)
        case Failure(e) =>
        case Success(d) => CleanFoldersMissing(fs, folders[1..], f, d);
    }
  }

  /** Every table the loader gives is well formed. */
  ghost predicate WellLoaded(load: Loader)
  {
    forall p :: load(p).Success? ==> WellFormed(load(p).value)
  }

  /** The number of rows of the tables loaded from `paths`. */
  function LoadedRows(load: Loader, paths: seq<FilePath>): nat
  {
    if paths == [] then 0
    else (if load(paths[0]).Success? then |load(paths[0]).value.rows| else 0) + LoadedRows(load, paths[1..])
  }

  /** A successful fold loaded every one of its paths. */
  lemma {:induction false} FoldLoadsAll(load: Loader, paths: seq<FilePath>, acc: Table)
    requires FoldPaths(load, paths, acc).Success?
    ensures forall i :: 0 <= i < |paths| ==> load(paths[i]).Success?
  {
    if paths != [] {
      FoldLoadsAll(load, paths[1..], ConcatTables(acc, load(paths[0]).value));
      assert forall i :: 1 <= i < |paths| ==> paths[i] == paths[1..][i - 1];
    }
  }

  /** A successful fold gives a well-formed table with as many rows as the accumulated table
      and the loaded tables together. */
  lemma {:induction false} FoldShape(load: Loader, paths: seq<FilePath>, acc: Table)
    requires WellLoaded(load) && WellFormed(acc) && FoldPaths(load, paths, acc).Success?
    ensures WellFormed(FoldPaths(load, paths, acc).value)
    ensures |FoldPaths(load, paths, acc).value.rows| == |acc.rows| + LoadedRows(load, paths)
  {
    if paths != [] {
      FoldShape(load, paths[1..], ConcatTables(acc, load(paths[0]).value));
    }
  }

  /** Row `j` of the accumulated table survives a successful fold, widened. */
  lemma {:induction false} FoldKeepsRow(load: Loader, paths: seq<FilePath>, acc: Table, j: nat, df: Table)
    requires WellLoaded(load) && WellFormed(acc) && FoldPaths(load, paths, acc) == Success(df) && j < |acc.rows|
    ensures j < |df.rows| && Extends(df.rows[j], acc.rows[j])
  {
    if paths != [] {
      FoldKeepsRow(load, paths[1..], ConcatTables(acc, load(paths[0]).value), j, df);
      ConcatKeepsRow(acc, load(paths[0]).value, j);
      ExtendsTransitive(df.rows[j], ConcatTables(acc, load(paths[0]).value).rows[j], acc.rows[j]);
    }
  }

  /** A successful fold over two runs of paths is a successful fold over the first, continued
      over the second. */
  lemma FoldSplit(load: Loader, a: seq<FilePath>, b: seq<FilePath>, acc: Table)
    requires FoldPaths(load, a + b, acc).Success?
    ensures FoldPaths(load, a, acc).Success?
    ensures FoldPaths(load, a + b, acc) == FoldPaths(load, b, FoldPaths(load, a, acc).value)
  {
    FoldAppend(load, a, b, acc);
  }

  /** A successful fold over one path loads that table and appends it. */
  lemma FoldSingle(load: Loader, p: FilePath, acc: Table)
    requires FoldPaths(load, [p], acc).Success?
    ensures load(p).Success?
    ensures FoldPaths(load, [p], acc).value == ConcatTables(acc, load(p).value)
  {
    assert [p][1..] == [];
  }

  /** Every row of every loaded table is in the result, widened, at its place `j`: after the
      accumulated rows and the rows of the tables before it. */
  lemma FoldPlaces(load: Loader, before: seq<FilePath>, p: FilePath, after: seq<FilePath>, acc: Table, k: nat, j: nat, df: Table)
    requires WellLoaded(load) && WellFormed(acc) && FoldPaths(load, before + [p] + after, acc) == Success(df)
    requires load(p).Success? && k < |load(p).value.rows|
    requires j == |acc.rows| + LoadedRows(load, before) + k
    ensures j < |df.rows| && Extends(df.rows[j], load(p).value.rows[k])
  {
    FoldSplit(load, before + [p], after, acc);
    FoldSplit(load, before, [p], acc);
    FoldSingle(load, p, FoldPaths(load, before, acc).value);
    FoldShape(load, before, acc);
    FoldKeepsRow(load, after, ConcatTables(FoldPaths(load, before, acc).value, load(p).value), j, df);
    ConcatExtendsRow(FoldPaths(load, before, acc).value, load(p).value, df.rows[j], k, j);
  }

  /** A row widening one row widens any row equal to it. */
  lemma ExtendsEqual(big: Row, small: Row, row: Row)
    requires Extends(big, small) && small == row
    ensures Extends(big, row)
  {
  }

  // ---------------------------------------------------------------- the fold over the ".csv" tables

  /** The number of rows of the tables at `paths`. */
  function RowTotal(fs: FileSystem, paths: seq<FilePath>): nat
  {
    if paths == [] then 0
    else (if paths[0] in fs.tables then |fs.tables[paths[0]].rows| else 0) + RowTotal(fs, paths[1..])
  }

  /** A table loaded by the consolidator is the table read, processed. */
  lemma CsvLoaded(fs: FileSystem, p: FilePath)
    requires CsvLoader(fs)(p).Success?
    ensures p in fs.tables && CsvLoader(fs)(p) == ProcessCsv(fs.tables[p], p.name)
  {
  }

  /** When the tables are well formed, so is every table the consolidator loads. */
  lemma CsvWellLoaded(fs: FileSystem)
    requires ValidTables(fs)
    ensures WellLoaded(CsvLoader(fs))
  {
    forall p | CsvLoader(fs)(p).Success? ensures WellFormed(CsvLoader(fs)(p).value) {
      CsvLoaded(fs, p);
      ProcessCsvRows(fs.tables[p], p.name);
    }
  }

  /** When every path loads, the loaded tables hold as many rows as the tables read. */
  lemma {:induction false} CsvLoadedRows(fs: FileSystem, paths: seq<FilePath>)
    requires forall i :: 0 <= i < |paths| ==> CsvLoader(fs)(paths[i]).Success?
    ensures LoadedRows(CsvLoader(fs), paths) == RowTotal(fs, paths)
  {
    if paths != [] {
      CsvLoaded(fs, paths[0]);
      ProcessCsvRows(fs.tables[paths[0]], paths[0].name);
      assert forall i :: 0 <= i < |paths[1..]| ==> paths[1..][i] == paths[i + 1];
      CsvLoadedRows(fs, paths[1..]);
    }
  }

  /** Every row of every ".csv" table is in the consolidated table, tagged and widened, at
      its place `j`: after the accumulated rows and the rows of the tables before it. */
  lemma CsvPlaces(fs: FileSystem, before: seq<FilePath>, p: FilePath, after: seq<FilePath>, acc: Table, k: nat, j: nat,
                  df: Table, row: Row)
    requires ValidTables(fs) && WellFormed(acc) && FoldPaths(CsvLoader(fs), before + [p] + after, acc) == Success(df)
    requires p in fs.tables && k < |fs.tables[p].rows|
    requires j == |acc.rows| + RowTotal(fs, before) + k && row == Tagged(fs.tables[p].rows[k], p.name)
    ensures j < |df.rows| && Extends(df.rows[j], row)
  {
    CsvWellLoaded(fs);
    CsvRowsBefore(fs, before, p, after, acc);
    CsvRowAt(fs, p, k);
    FoldPlaces(CsvLoader(fs), before, p, after, acc, k, j, df);
    ExtendsEqual(df.rows[j], CsvLoader(fs)(p).value.rows[k], row);
  }

  /** In a successful fold, the path folded in after `before` loads, and the tables of `before`
      gave as many rows as were read. */
  lemma CsvRowsBefore(fs: FileSystem, before: seq<FilePath>, p: FilePath, after: seq<FilePath>, acc: Table)
    requires FoldPaths(CsvLoader(fs), before + [p] + after, acc).Success?
    ensures CsvLoader(fs)(p).Success?
    ensures LoadedRows(CsvLoader(fs), before) == RowTotal(fs, before)
  {
    FoldLoadsAll(CsvLoader(fs), before + [p] + after, acc);
    assert (before + [p] + after)[|before|] == p;
    assert forall i :: 0 <= i < |before| ==> before[i] == (before + [p] + after)[i];
    CsvLoadedRows(fs, before);
  }

  /** Row `k` of a loaded ".csv" table is row `k` of the table read, tagged. */
  lemma CsvRowAt(fs: FileSystem, p: FilePath, k: nat)
    requires CsvLoader(fs)(p).Success? && p in fs.tables && k < |fs.tables[p].rows|
    ensures k < |CsvLoader(fs)(p).value.rows| && CsvLoader(fs)(p).value.rows[k] == Tagged(fs.tables[p].rows[k], p.name)
  {
    CsvLoaded(fs, p);
    ProcessCsvRows(fs.tables[p], p.name);
  }

  /** The consolidator saves one table or nothing: the concatenation, when every folder is
      there and every table can be read and carries the bookkeeping columns; then its rows are
      as many as those of all ".csv" tables of the folders. */
  lemma ZonalStatsCleanSaves(fs: FileSystem, folders: seq<Folder>)
    requires ValidTables(fs)
    ensures ZonalStatsCleanSpec(fs, folders).outcome.Aborted? ==> ZonalStatsCleanSpec(fs, folders).writes == []
    ensures ZonalStatsCleanSpec(fs, folders).outcome.Completed? ==>
      && (forall f :: f in folders ==> f in fs.listings)
      && var ws := ZonalStatsCleanSpec(fs, folders).writes;
         |ws| == 1 && ws[0].path == CLEAN_OUTPUT && WellFormed(ws[0].table) &&
         |ws[0].table.rows| == RowTotal(fs, AllCsv(fs, folders))
  {
    if CleanFolders(fs, folders, Empty).Success? {
      CleanFoldersListed(fs, folders);
      CleanFoldersIsFold(fs, folders, Empty);
      CsvWellLoaded(fs);
      FoldLoadsAll(CsvLoader(fs), AllCsv(fs, folders), Empty);
      CsvLoadedRows(fs, AllCsv(fs, folders));
      FoldShape(CsvLoader(fs), AllCsv(fs, folders), Empty);
    }
  }

  /** A consolidation that succeeds found every folder. */
  lemma CleanFoldersListed(fs: FileSystem, folders: seq<Folder>)
    requires CleanFolders(fs, folders, Empty).Success?
    ensures forall f :: f in folders ==> f in fs.listings
  {
    forall f | f in folders ensures f in fs.listings {
      if f !in fs.listings {
        CleanFoldersMissing(fs, folders, f, Empty);
      }
    }
  }

  /** The consolidated table holds, at row `j`, row `k` of the `i`-th ".csv" table, tagged
      and widened, where `j` counts the rows of the tables before it. */
  lemma ZonalStatsCleanRows(fs: FileSystem, folders: seq<Folder>, df: Table, i: nat, k: nat, j: nat, row: Row)
    requires ValidTables(fs) && ZonalStatsCleanSpec(fs, folders) == Run([SaveTable(CLEAN_OUTPUT, df)], Completed)
    requires forall f :: f in folders ==> f in fs.listings
    requires i < |AllCsv(fs, folders)| && AllCsv(fs, folders)[i] in fs.tables
    requires k < |fs.tables[AllCsv(fs, folders)[i]].rows|
    requires j == RowTotal(fs, AllCsv(fs, folders)[..i]) + k
    requires row == Tagged(fs.tables[AllCsv(fs, folders)[i]].rows[k], AllCsv(fs, folders)[i].name)
    ensures j < |df.rows| && Extends(df.rows[j], row)
  {
    CleanFoldersIsFold(fs, folders, Empty);
    SplitAround(AllCsv(fs, folders), i);
    CsvPlaces(fs, AllCsv(fs, folders)[..i], AllCsv(fs, folders)[i], AllCsv(fs, folders)[i + 1..], Empty, k, j, df, row);
  }

  /** A sequence is what precedes position `i`, the element there, and what follows. */
  lemma SplitAround<T>(s: seq<T>, i: nat)
    requires i < |s|
    ensures s == s[..i] + [s[i]] + s[i + 1..]
  {
  }

  // ---------------------------------------------------------------- labels of the pipeline's outputs

  /** Each label is decided by the first of its keywords the file name holds, in the order
      they are checked: "emis" before "removals", "tcd_gain" before "_tcd.". */
  lemma LabelPrecedence(name: string)
    ensures TypeLabel(name) == "gross emissions" <==> Contains(name, "emis")
    ensures TypeLabel(name) == "gross removals" <==> !Contains(name, "emis") && Contains(name, "removals")
    ensures TypeLabel(name) == "net flux" <==> !Contains(name, "emis") && !Contains(name, "removals")
    ensures ExtentLabel(name) == "forest extent" <==> Contains(name, "forest")
    ensures ExtentLabel(name) == "full extent" <==> !Contains(name, "forest")
    ensures MaskLabel(name) == "tcd and gain" <==> Contains(name, "tcd_gain")
    ensures MaskLabel(name) == "tcd" <==> !Contains(name, "tcd_gain") && Contains(name, "_tcd.")
    ensures MaskLabel(name) == "no mask" <==> !Contains(name, "tcd_gain") && !Contains(name, "_tcd.")
  {
  }

  /** Every table masked mode computes under a compositor mask (suffix "tcd_gain") is labelled
      as masked by tree cover and gain. */
  lemma MaskedOutputsLabelled(aoiName: string, rasterName: string)
    ensures MaskLabel(MaskedTableName(aoiName, rasterName, "tcd_gain", ".csv")) == "tcd and gain"
  {
    assert StartsWith("tcd_gain", "tcd_gain");
    ContainsInContext(aoiName + "_" + rasterName + "_", "tcd_gain", ".csv", "tcd_gain");
  }

  /** Every table annual mode saves is labelled as gross emissions: its raster's name holds the
      keyword, and so does the table's name. */
  lemma AnnualOutputsAreEmissions(aoiName: string, rasterName: string)
    requires Contains(rasterName, ANNUAL_KEYWORD) && EndsWith(rasterName, ".tif")
    ensures TypeLabel(TableName(aoiName, Stem(rasterName), ".csv")) == "gross emissions"
  {
    AnnualStemKeepsKeyword(rasterName);
    ContainsInContext(aoiName + "_", Stem(rasterName), ".csv", ANNUAL_KEYWORD);
  }
}
