/** The mask compositor: for every tree-cover tile it loads the tile's gain, biomass and
    mangrove layers, combines tree cover, biomass and gain into one binary mask and saves it in
    the mask folder of the tile's region. */
module Masks {
  import opened Common
  import opened Strings
  import opened Rasters
  import opened Files
  import opened Batch
  import opened Naming
  import opened Regions

  /** Tree-cover percentage a cell must exceed to count as forest. */
  const TCD_THRESHOLD := 30

  /** Defined next to the threshold; no stage reads it. */
  const GAIN_FLAG := true

  const MASK_INPUTS: Folder := ["Mask", "Inputs"]
  const TCD_TILES: Folder := MASK_INPUTS + ["TCD"]
  const GAIN_TILES: Folder := MASK_INPUTS + ["Gain"]
  const WHRC_TILES: Folder := MASK_INPUTS + ["WHRC"]
  const MANGROVE_TILES: Folder := MASK_INPUTS + ["Mangrove"]

  function GainPath(gainTiles: Folder, tileId: string): FilePath { FilePath(gainTiles, GainName(tileId)) }

  function WhrcPath(whrcTiles: Folder, tileId: string): FilePath { FilePath(whrcTiles, WhrcName(tileId)) }

  function MangrovePath(mangroveTiles: Folder, tileId: string): FilePath { FilePath(mangroveTiles, MangroveName(tileId)) }

  /** The pre-2000 plantation layer sits beside the biomass layer; its path is computed and the
      layer is never loaded. */
  function PlantationPath(whrcTiles: Folder, tileId: string): FilePath { FilePath(whrcTiles, PlantationName(tileId)) }

  /** The layers `process_raster` loads, in the order it loads them. */
  function Layers(raster: FilePath, gainTiles: Folder, mangroveTiles: Folder, whrcTiles: Folder, tileId: string): seq<FilePath>
  {
    [raster, GainPath(gainTiles, tileId), WhrcPath(whrcTiles, tileId), MangrovePath(mangroveTiles, tileId)]
  }

  /** Every layer of a tile loads exactly when each of the four does. */
  lemma LayersLoadable(fs: FileSystem, raster: FilePath, gainTiles: Folder, mangroveTiles: Folder, whrcTiles: Folder, tileId: string)
    ensures AllLoadable(fs, Layers(raster, gainTiles, mangroveTiles, whrcTiles, tileId)) <==>
      raster in fs.rasters && GainPath(gainTiles, tileId) in fs.rasters &&
      WhrcPath(whrcTiles, tileId) in fs.rasters && MangrovePath(mangroveTiles, tileId) in fs.rasters
  {
    var layers := Layers(raster, gainTiles, mangroveTiles, whrcTiles, tileId);
    assert layers[0] == raster && layers[1] == GainPath(gainTiles, tileId);
    assert layers[2] == WhrcPath(whrcTiles, tileId) && layers[3] == MangrovePath(mangroveTiles, tileId);
  }

  /** `process_raster`: read the tile id off the tree-cover layer's name, load the four layers
      in order, and save the composite of tree cover, gain and biomass under the tile's mask
      name. The first failure (a name with too few fields, or a layer that cannot be loaded)
      ends the call before anything is saved. */
  function ProcessRaster(fs: FileSystem, raster: FilePath, gainTiles: Folder, mangroveTiles: Folder,
                         whrcTiles: Folder, maskTiles: Folder): Run
  {
    match TileId(Stem(raster.name))
    case Failure(e) => Abort(e)
    case Success(tileId) =>
      match FirstMissing(fs, Layers(raster, gainTiles, mangroveTiles, whrcTiles, tileId))
      case Some(missing) => Abort(RasterNotFound(missing))
      case None =>
        LayersLoadable(fs, raster, gainTiles, mangroveTiles, whrcTiles, tileId);
        var tcd, gain, whrc := fs.rasters[raster], fs.rasters[GainPath(gainTiles, tileId)], fs.rasters[WhrcPath(whrcTiles, tileId)];
        Run([SaveRaster(FilePath(maskTiles, MaskFileName(tileId)), Composite(tcd, gain, whrc, TCD_THRESHOLD))], Completed)
  }

  /** One round of `create_masks`: the tile id decides the region's mask folder, then the tile
      is composited. */
  function MaskStep(fs: FileSystem, raster: FilePath): Run
  {
    match TileId(Stem(raster.name))
    case Failure(e) => Abort(e)
    case Success(tileId) => ProcessRaster(fs, raster, GAIN_TILES, MANGROVE_TILES, WHRC_TILES, MaskTiles(tileId))
  }

  /** `create_masks`, as a value: list the tree-cover folder, keep its ".tif" entries, and
      composite them in listing order, stopping at the first failure. */
  function CreateMasksSpec(fs: FileSystem): Run
  {
    match ListDir(fs, TCD_TILES)
    case Failure(e) => Abort(e)
    case Success(names) => RunAll(ListFiles(TCD_TILES, names, ".tif"), raster => MaskStep(fs, raster))
  }

  /** `create_masks`. */
  method CreateMasks(fs: FileSystem) returns (run: Run)
    ensures run == CreateMasksSpec(fs)
  {
    var listing := ListDir(fs, TCD_TILES);
    if listing.Failure? {
      return Abort(listing.error);
    }
    var tcdList := ListFiles(TCD_TILES, listing.value, ".tif");
    ghost var step := (raster: FilePath) => MaskStep(fs, raster);
    var writes: seq<Write> := [];
    var i := 0;
    while i < |tcdList|
      invariant 0 <= i <= |tcdList|
      invariant CreateMasksSpec(fs) == Then(Run(writes, Completed), RunAll(tcdList[i..], step))
    {
      var raster := tcdList[i];
      RunAllFrom(tcdList, i, step);
      ThenStep(writes, step(raster), RunAll(tcdList[i + 1..], step));
      var tileId := TileId(Stem(raster.name));
      if tileId.Failure? {
        return Run(writes, Aborted(tileId.error));
      }
      var maskTiles := MaskTiles(tileId.value);
      var out := ProcessRaster(fs, raster, GAIN_TILES, MANGROVE_TILES, WHRC_TILES, maskTiles);
      if out.outcome.Aborted? {
        return Run(writes + out.writes, out.outcome);
      }
      writes := writes + out.writes;
      i := i + 1;
    }
    assert writes + [] == writes;
    return Run(writes, Completed);
  }

  // ---------------------------------------------------------------- properties

  /** `w` is the mask saved for the tree-cover layer `raster`: a binary grid, saved in the
      mask folder of the tile's region under the tile's mask name, whose cells are 1 exactly
      where (tree cover > threshold and biomass > 0) or gain > 0. */
  ghost predicate SavedMaskOf(fs: FileSystem, w: Write, raster: FilePath)
  {
    && TileId(Stem(raster.name)).Success?
    && var id := TileId(Stem(raster.name)).value;
    && raster in fs.rasters && GainPath(GAIN_TILES, id) in fs.rasters && WhrcPath(WHRC_TILES, id) in fs.rasters
    && var tcd, gain, whrc := fs.rasters[raster], fs.rasters[GainPath(GAIN_TILES, id)], fs.rasters[WhrcPath(WHRC_TILES, id)];
    && w.SaveRaster?
    && w.path == FilePath(MaskTiles(id), MaskFileName(id))
    && IsBinary(w.grid)
    && (forall i, j :: Within(w.grid, i, j) <==> Within(tcd, i, j) && Within(whrc, i, j) && Within(gain, i, j))
    && (forall i, j :: Within(w.grid, i, j) ==>
          (w.grid[i][j] == 1 <==> (tcd[i][j] > TCD_THRESHOLD && whrc[i][j] > 0) || gain[i][j] > 0))
  }

  /** The ".tif" entries of the tree-cover folder. */
  function TcdList(fs: FileSystem): seq<FilePath>
    requires TCD_TILES in fs.listings
  {
    ListFiles(TCD_TILES, fs.listings[TCD_TILES], ".tif")
  }

  /** One round of the compositor completes exactly when the tile has an id and its four
      layers load, and then saves exactly that tile's mask; otherwise it saves nothing and fails
      on the name, or on the first layer, in loading order, that cannot be loaded. */
  lemma MaskStepOutcome(fs: FileSystem, raster: FilePath)
    ensures MaskStep(fs, raster).outcome.Completed? <==>
      && TileId(Stem(raster.name)).Success?
      && var id := TileId(Stem(raster.name)).value;
      && raster in fs.rasters && GainPath(GAIN_TILES, id) in fs.rasters
      && WhrcPath(WHRC_TILES, id) in fs.rasters && MangrovePath(MANGROVE_TILES, id) in fs.rasters
    ensures MaskStep(fs, raster).outcome.Completed? ==>
      |MaskStep(fs, raster).writes| == 1 && SavedMaskOf(fs, MaskStep(fs, raster).writes[0], raster)
    ensures MaskStep(fs, raster).outcome.Aborted? ==> MaskStep(fs, raster).writes == []
    ensures TileId(Stem(raster.name)).Failure? ==>
      MaskStep(fs, raster).outcome == Aborted(NameTooShort(Stem(raster.name)))
    ensures TileId(Stem(raster.name)).Success? && MaskStep(fs, raster).outcome.Aborted? ==>
      var missing := FirstMissing(fs, Layers(raster, GAIN_TILES, MANGROVE_TILES, WHRC_TILES, TileId(Stem(raster.name)).value));
      missing.Some? && MaskStep(fs, raster).outcome == Aborted(RasterNotFound(missing.value))
  {
    var r := MaskStep(fs, raster);
    match TileId(Stem(raster.name))
    case Failure(_) =>
    case Success(id) =>
      LayersLoadable(fs, raster, GAIN_TILES, MANGROVE_TILES, WHRC_TILES, id);
      if r.outcome.Completed? {
        var tcd, gain, whrc := fs.rasters[raster], fs.rasters[GainPath(GAIN_TILES, id)], fs.rasters[WhrcPath(WHRC_TILES, id)];
        assert r.writes[0] == SaveRaster(FilePath(MaskTiles(id), MaskFileName(id)), Composite(tcd, gain, whrc, TCD_THRESHOLD));
      }
  }

  lemma MaskStepSaves(fs: FileSystem, raster: FilePath)
    requires MaskStep(fs, raster).outcome.Completed?
    ensures |MaskStep(fs, raster).writes| == 1 && SavedMaskOf(fs, MaskStep(fs, raster).writes[0], raster)
  {
    MaskStepOutcome(fs, raster);
  }

  /** The compositor completes exactly when the tree-cover folder exists and every ".tif" in it
      has a tile id and all four of its layers load; it then has saved one mask per tree-cover
      tile, in listing order, each the binary composite of that tile's layers. */
  lemma {:induction false} CreateMasksCompleted(fs: FileSystem)
    ensures CreateMasksSpec(fs).outcome.Completed? <==>
      && TCD_TILES in fs.listings
      && forall k :: 0 <= k < |TcdList(fs)| ==> MaskStep(fs, TcdList(fs)[k]).outcome.Completed?
    ensures CreateMasksSpec(fs).outcome.Completed? ==>
      && |CreateMasksSpec(fs).writes| == |TcdList(fs)|
      && forall k :: 0 <= k < |TcdList(fs)| ==> SavedMaskOf(fs, CreateMasksSpec(fs).writes[k], TcdList(fs)[k])
  {
    if TCD_TILES in fs.listings {
      var items := TcdList(fs);
      var step := (raster: FilePath) => MaskStep(fs, raster);
      RunAllCompleted(items, step);
      if RunAll(items, step).outcome.Completed? {
        forall k | 0 <= k < |items|
          ensures step(items[k]).outcome.Completed? && |step(items[k]).writes| == 1
        {
          MaskStepSaves(fs, items[k]);
        }
        RunAllUniform(items, step, 1);
        MulIsProduct(1, |items|);
        forall k | 0 <= k < |items| ensures SavedMaskOf(fs, RunAll(items, step).writes[k], items[k]) {
          MaskStepSaves(fs, items[k]);
          RunAllOneAt(items, step, k);
        }
      }
    }
  }

  lemma StepWriteIsMask(fs: FileSystem, raster: FilePath, w: Write)
    requires w in MaskStep(fs, raster).writes
    ensures SavedMaskOf(fs, w, raster)
  {
    MaskStepOutcome(fs, raster);
    assert w == MaskStep(fs, raster).writes[0];
  }

  /** Whatever the outcome, every file the compositor saved is the mask of a listed tree-cover
      tile. */
  lemma CreateMasksSavesOnlyMasks(fs: FileSystem, w: Write)
    requires w in CreateMasksSpec(fs).writes
    ensures TCD_TILES in fs.listings
    ensures exists k :: 0 <= k < |TcdList(fs)| && SavedMaskOf(fs, w, TcdList(fs)[k])
  {
    assert ListDir(fs, TCD_TILES).Success?;
    var items := TcdList(fs);
    var step := (raster: FilePath) => MaskStep(fs, raster);
    assert CreateMasksSpec(fs) == RunAll(items, step);
    RunAllWritesFrom(items, step, w);
    var k :| 0 <= k < |items| && w in step(items[k]).writes;
    StepWriteIsMask(fs, items[k], w);
  }

  /** `p` loads in both workspaces or in neither, and holds the same grid in both. */
  ghost predicate SameLayer(fs: FileSystem, other: FileSystem, p: FilePath)
  {
    (p in fs.rasters <==> p in other.rasters) && (p in fs.rasters ==> fs.rasters[p] == other.rasters[p])
  }

  /** A round of the compositor sees of the workspace only which of the tile's four layers load
      and what the tree-cover, gain and biomass layers hold. */
  lemma MaskStepReads(fs: FileSystem, other: FileSystem, raster: FilePath)
    requires TileId(Stem(raster.name)).Success?
    requires var id := TileId(Stem(raster.name)).value;
      && SameLayer(fs, other, raster) && SameLayer(fs, other, GainPath(GAIN_TILES, id))
      && SameLayer(fs, other, WhrcPath(WHRC_TILES, id))
      && (MangrovePath(MANGROVE_TILES, id) in fs.rasters <==> MangrovePath(MANGROVE_TILES, id) in other.rasters)
    ensures MaskStep(other, raster) == MaskStep(fs, raster)
  {
    var id := TileId(Stem(raster.name)).value;
    var layers := Layers(raster, GAIN_TILES, MANGROVE_TILES, WHRC_TILES, id);
    FirstMissingSame(fs, other, layers);
    if FirstMissing(fs, layers).None? {
      LayersLoadable(fs, raster, GAIN_TILES, MANGROVE_TILES, WHRC_TILES, id);
    }
  }

  /** The mangrove layer must load, but what it holds never reaches the mask. */
  lemma MangroveIrrelevant(fs: FileSystem, raster: FilePath, mangrove: Grid)
    requires TileId(Stem(raster.name)).Success?
    requires raster.folder == TCD_TILES
    requires MangrovePath(MANGROVE_TILES, TileId(Stem(raster.name)).value) in fs.rasters
    ensures MaskStep(FileSystem(fs.listings, fs.rasters[MangrovePath(MANGROVE_TILES, TileId(Stem(raster.name)).value) := mangrove], fs.tables), raster)
      == MaskStep(fs, raster)
  {
    var id := TileId(Stem(raster.name)).value;
    var changed := MangrovePath(MANGROVE_TILES, id);
    var other := FileSystem(fs.listings, fs.rasters[changed := mangrove], fs.tables);
    MaskPathsDiffer(id);
    assert raster.folder != changed.folder by {
      assert TCD_TILES[2] != MANGROVE_TILES[2];
    }
    MaskStepReads(fs, other, raster);
  }

  /** The pre-2000 plantation layer is never loaded: removing it changes nothing. */
  lemma PlantationNeverLoaded(fs: FileSystem, raster: FilePath)
    requires TileId(Stem(raster.name)).Success?
    requires raster.folder == TCD_TILES
    ensures MaskStep(FileSystem(fs.listings, fs.rasters - {PlantationPath(WHRC_TILES, TileId(Stem(raster.name)).value)}, fs.tables), raster)
      == MaskStep(fs, raster)
  {
    var id := TileId(Stem(raster.name)).value;
    var gone := PlantationPath(WHRC_TILES, id);
    var other := FileSystem(fs.listings, fs.rasters - {gone}, fs.tables);
    MaskPathsDiffer(id);
    assert raster.folder != gone.folder by {
      assert TCD_TILES[2] != WHRC_TILES[2];
    }
    MaskStepReads(fs, other, raster);
  }

  /** A tile's gain, biomass, mangrove and plantation layers are four different files. */
  lemma MaskPathsDiffer(tileId: string)
    ensures GainPath(GAIN_TILES, tileId) != MangrovePath(MANGROVE_TILES, tileId)
    ensures WhrcPath(WHRC_TILES, tileId) != MangrovePath(MANGROVE_TILES, tileId)
    ensures WhrcPath(WHRC_TILES, tileId) != PlantationPath(WHRC_TILES, tileId)
    ensures GainPath(GAIN_TILES, tileId) != PlantationPath(WHRC_TILES, tileId)
    ensures MangrovePath(MANGROVE_TILES, tileId) != PlantationPath(WHRC_TILES, tileId)
  {
    assert GAIN_TILES[2] != MANGROVE_TILES[2];
    assert WHRC_TILES[2] != MANGROVE_TILES[2];
    assert GAIN_TILES[2] != WHRC_TILES[2];
    assert WhrcName(tileId)[|tileId| + 1] != PlantationName(tileId)[|tileId| + 1];
  }
}
