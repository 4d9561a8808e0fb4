/** The workspace as the pipeline sees it: folder listings, the rasters the raster engine can load
    and the tables the table reader can read, taken as one snapshot; and the files a run saves,
    recorded in order as a log of writes. */
module Files {
  import opened Common
  import opened Rasters
  import opened Tables

  datatype FileSystem = FileSystem(
    listings: map<Folder, seq<string>>,   // `os.listdir(folder)`, in listing order
    rasters: map<FilePath, Grid>,         // the layers the raster engine can load
    tables: map<FilePath, Table>)         // the delimited tables `pd.read_csv` can read

  /** A file saved by a run: a raster (`Raster.save`) or a table (the zonal engine's native
      table, its delimited-text conversion, or a rewritten CSV). */
  datatype Write = SaveRaster(path: FilePath, grid: Grid) | SaveTable(path: FilePath, table: Table)

  /** `os.listdir(folder)`: fails when the folder does not exist. */
  function ListDir(fs: FileSystem, folder: Folder): (r: Result<seq<string>>)
  {
    if folder in fs.listings then Success(fs.listings[folder]) else Failure(FolderNotFound(folder))
  }

  /** `arcpy.Raster(path)`: fails when the layer cannot be loaded. */
  function LoadRaster(fs: FileSystem, path: FilePath): (r: Result<Grid>)
  {
    if path in fs.rasters then Success(fs.rasters[path]) else Failure(RasterNotFound(path))
  }

  /** `pd.read_csv(path)`: fails when the file cannot be read. */
  function ReadTable(fs: FileSystem, path: FilePath): (r: Result<Table>)
  {
    if path in fs.tables then Success(fs.tables[path]) else Failure(TableNotFound(path))
  }

  /** The raster engine can load every one of `paths`. */
  predicate AllLoadable(fs: FileSystem, paths: seq<FilePath>)
  {
    forall k :: 0 <= k < |paths| ==> paths[k] in fs.rasters
  }

  /** The first of `paths` the raster engine cannot load, if any: loading them in order fails
      there. */
  function FirstMissing(fs: FileSystem, paths: seq<FilePath>): (r: Option<FilePath>)
    ensures r.None? <==> AllLoadable(fs, paths)
    ensures r.Some? ==> exists k :: 0 <= k < |paths| && paths[k] == r.value && r.value !in fs.rasters && AllLoadable(fs, paths[..k])
  {
    if paths == [] then None
    else if paths[0] !in fs.rasters then
      assert paths[..0] == [];
      Some(paths[0])
    else
      var r := FirstMissing(fs, paths[1..]);
      if r.None? then r
      else
        var k :| 0 <= k < |paths[1..]| && paths[1..][k] == r.value && r.value !in fs.rasters && AllLoadable(fs, paths[1..][..k]);
        assert paths[k + 1] == r.value;
        assert paths[..k + 1] == [paths[0]] + paths[1..][..k];
        r
  }

  /** Loading `paths` in order fails at the same place in two workspaces that hold the same of
      them. */
  lemma {:induction false} FirstMissingSame(fs: FileSystem, other: FileSystem, paths: seq<FilePath>)
    requires forall p :: p in paths ==> (p in fs.rasters <==> p in other.rasters)
    ensures FirstMissing(fs, paths) == FirstMissing(other, paths)
  {
    if paths != [] {
      assert forall p :: p in paths[1..] ==> p in paths;
      FirstMissingSame(fs, other, paths[1..]);
    }
  }

  /** The table the last save to `path` among `writes` left there, if any: a later save to a
      path overwrites an earlier one. */
  function LastSaved(writes: seq<Write>, path: FilePath): (r: Option<Table>)
    ensures r.Some? ==> exists k :: 0 <= k < |writes| && writes[k] == SaveTable(path, r.value) &&
                                    forall j :: k < j < |writes| ==> !(writes[j].SaveTable? && writes[j].path == path)
    ensures r.None? ==> forall w :: w in writes && w.SaveTable? ==> w.path != path
  {
    if writes == [] then None
    else
      var w := writes[|writes| - 1];
      assert writes == writes[..|writes| - 1] + [w];
      if w.SaveTable? && w.path == path then Some(w.table) else LastSaved(writes[..|writes| - 1], path)
  }

  /** Saves made later win: the file holds what `b` saved there, or else what `a` saved. */
  lemma {:induction false} LastSavedAppend(a: seq<Write>, b: seq<Write>, path: FilePath)
    ensures LastSaved(a + b, path) == if LastSaved(b, path).Some? then LastSaved(b, path) else LastSaved(a, path)
    decreases |b|
  {
    if b == [] {
      assert a + b == a;
    } else {
      var w := b[|b| - 1];
      assert (a + b)[..|a + b| - 1] == a + b[..|b| - 1];
      if !(w.SaveTable? && w.path == path) {
        LastSavedAppend(a, b[..|b| - 1], path);
      }
    }
  }

  /** The tables the reader produces are well formed (it makes repeated labels distinct). */
  ghost predicate ValidTables(fs: FileSystem)
  {
    forall p :: p in fs.tables ==> WellFormed(fs.tables[p])
  }
}
