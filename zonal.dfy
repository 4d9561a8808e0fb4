/** Zonal statistics in plain and masked mode. For every area of interest (AOI) the value rasters
    of its region are summed per zone, and each result is saved twice: as the engine's native
    table (".dbf") and as its delimited-text copy (".csv"). Masked mode first multiplies each
    raster by each mask of the region, one output pair per (raster, mask). Neither mode catches
    anything: the first failure ends the whole run. */
module Zonal {
  import opened Common
  import opened Strings
  import opened Rasters
  import opened Tables
  import opened Files
  import opened Batch
  import opened Naming
  import opened Regions

  /** The zonal statistics engine: per-zone sums of a value grid over the zones of an AOI,
      grouped by a zone field; `None` when it fails. */
  type ZonalEngine = (FilePath, string, Grid) -> Option<Table>

  /** The zone field of plain and masked mode. */
  const ZONE_FIELD := "GID_0"

  /** The native table and its delimited copy, saved side by side. */
  function SaveBoth(outputFolder: Folder, stem: string, t: Table): seq<Write>
  {
    [SaveTable(FilePath(outputFolder, stem + ".dbf"), t), SaveTable(FilePath(outputFolder, stem + ".csv"), t)]
  }

  // ---------------------------------------------------------------- plain mode

  /** One round of `process_zonal_statistics`: sum the raster over the AOI's zones and save the
      table as `<aoi>_<raster>.dbf` and `<aoi>_<raster>.csv`. */
  function PlainStep(fs: FileSystem, zonal: ZonalEngine, aoi: FilePath, outputFolder: Folder, raster: FilePath): Run
  {
    var stem := Stem(aoi.name) + "_" + Stem(raster.name);
    match LoadRaster(fs, raster)
    case Failure(e) => Abort(e)
    case Success(grid) =>
      match zonal(aoi, ZONE_FIELD, grid)
      case None => Abort(AggregationFailed(aoi))
      case Some(t) => Run(SaveBoth(outputFolder, stem, t), Completed)
  }

  /** `process_zonal_statistics`, as a value: every ".tif" of the raster folder, in listing order. */
  function ProcessZonalStatisticsSpec(fs: FileSystem, zonal: ZonalEngine, aoi: FilePath,
                                      rasterFolder: Folder, outputFolder: Folder): Run
  {
    match ListDir(fs, rasterFolder)
    case Failure(e) => Abort(e)
    case Success(names) =>
      RunAll(ListFiles(rasterFolder, names, ".tif"), raster => PlainStep(fs, zonal, aoi, outputFolder, raster))
  }

  /** The body of the raster loop of `process_zonal_statistics`. */
  method PlainRound(fs: FileSystem, zonal: ZonalEngine, aoi: FilePath, outputFolder: Folder, raster: FilePath)
    returns (out: Run)
    ensures out == PlainStep(fs, zonal, aoi, outputFolder, raster)
  {
    var rasterName := Stem(raster.name);
    var grid := LoadRaster(fs, raster);
    if grid.Failure? {
      return Abort(grid.error);
    }
    var table := zonal(aoi, ZONE_FIELD, grid.value);
    if table.None? {
      return Abort(AggregationFailed(aoi));
    }
    out := Run(SaveBoth(outputFolder, Stem(aoi.name) + "_" + rasterName, table.value), Completed);
  }

  /** `process_zonal_statistics`. */
  method ProcessZonalStatistics(fs: FileSystem, zonal: ZonalEngine, aoi: FilePath,
                                rasterFolder: Folder, outputFolder: Folder) returns (run: Run)
    ensures run == ProcessZonalStatisticsSpec(fs, zonal, aoi, rasterFolder, outputFolder)
  {
    var listing := ListDir(fs, rasterFolder);
    if listing.Failure? {
      return Abort(listing.error);
    }
    var rasterList := ListFiles(rasterFolder, listing.value, ".tif");
    ghost var step := raster => PlainStep(fs, zonal, aoi, outputFolder, raster);
    var writes: seq<Write> := [];
    var i := 0;
    while i < |rasterList|
      invariant 0 <= i <= |rasterList|
      invariant ProcessZonalStatisticsSpec(fs, zonal, aoi, rasterFolder, outputFolder) ==
        Then(Run(writes, Completed), RunAll(rasterList[i..], step))
    {
      var raster := rasterList[i];
      RunAllFrom(rasterList, i, step);
      ThenStep(writes, step(raster), RunAll(rasterList[i + 1..], step));
      var out := PlainRound(fs, zonal, aoi, outputFolder, raster);
      if out.outcome.Aborted? {
        return Run(writes + out.writes, out.outcome);
      }
      writes := writes + out.writes;
      i := i + 1;
    }
    assert writes + [] == writes;
    return Run(writes, Completed);
  }

  /** One round of `zonal_stats`: route the AOI to its region's folders. */
  function AoiStep(fs: FileSystem, zonal: ZonalEngine, aoi: FilePath): Run
  {
    var folders := PlainFolders(Stem(aoi.name));
    ProcessZonalStatisticsSpec(fs, zonal, aoi, folders.rasterFolder, folders.outputFolder)
  }

  /** `zonal_stats`, as a value: every ".shp" of the input folder, in listing order. */
  function ZonalStatsSpec(fs: FileSystem, zonal: ZonalEngine, inputFolder: Folder): Run
  {
    match ListDir(fs, inputFolder)
    case Failure(e) => Abort(e)
    case Success(names) => RunAll(ListFiles(inputFolder, names, ".shp"), aoi => AoiStep(fs, zonal, aoi))
  }

  /** `zonal_stats`. */
  method ZonalStats(fs: FileSystem, zonal: ZonalEngine, inputFolder: Folder) returns (run: Run)
    ensures run == ZonalStatsSpec(fs, zonal, inputFolder)
  {
    var listing := ListDir(fs, inputFolder);
    if listing.Failure? {
      return Abort(listing.error);
    }
    var aoiList := ListFiles(inputFolder, listing.value, ".shp");
    ghost var step := aoi => AoiStep(fs, zonal, aoi);
    var writes: seq<Write> := [];
    var i := 0;
    while i < |aoiList|
      invariant 0 <= i <= |aoiList|
      invariant ZonalStatsSpec(fs, zonal, inputFolder) == Then(Run(writes, Completed), RunAll(aoiList[i..], step))
    {
      var aoi := aoiList[i];
      RunAllFrom(aoiList, i, step);
      ThenStep(writes, step(aoi), RunAll(aoiList[i + 1..], step));
      var aoiName := Stem(aoi.name);
      var folders := PlainFolders(aoiName);
      var out := ProcessZonalStatistics(fs, zonal, aoi, folders.rasterFolder, folders.outputFolder);
      if out.outcome.Aborted? {
        return Run(writes + out.writes, out.outcome);
      }
      writes := writes + out.writes;
      i := i + 1;
    }
    assert writes + [] == writes;
    return Run(writes, Completed);
  }

  // ---------------------------------------------------------------- masked mode

  /** One (raster, mask) round of `zonal_stats_masked`: read the mask suffix off the mask's
      name, multiply the raster by the mask, sum the product over the AOI's zones and save it
      as `<aoi>_<raster>_<suffix>.dbf` and `.csv`. */
  function MaskedStep(fs: FileSystem, zonal: ZonalEngine, aoi: FilePath, outputFolder: Folder,
                      raster: FilePath, mask: FilePath): Run
  {
    match MaskSuffix(Stem(mask.name))
    case Failure(e) => Abort(e)
    case Success(suffix) =>
      var stem := Stem(aoi.name) + "_" + Stem(raster.name) + "_" + suffix;
      match LoadRaster(fs, raster)
      case Failure(e) => Abort(e)
      case Success(values) =>
        match LoadRaster(fs, mask)
        case Failure(e) => Abort(e)
        case Success(maskGrid) =>
          match zonal(aoi, ZONE_FIELD, Times(values, maskGrid))
          case None => Abort(AggregationFailed(aoi))
          case Some(t) => Run(SaveBoth(outputFolder, stem, t), Completed)
  }

  /** The inner loop: one raster against every mask, in listing order. */
  function MaskedRaster(fs: FileSystem, zonal: ZonalEngine, aoi: FilePath, outputFolder: Folder,
                        masks: seq<FilePath>, raster: FilePath): Run
  {
    RunAll(masks, mask => MaskedStep(fs, zonal, aoi, outputFolder, raster, mask))
  }

  /** The two nested loops over the rasters and masks of one AOI. */
  function MaskedPairs(fs: FileSystem, zonal: ZonalEngine, aoi: FilePath, outputFolder: Folder,
                       rasters: seq<FilePath>, masks: seq<FilePath>): Run
  {
    RunAll(rasters, raster => MaskedRaster(fs, zonal, aoi, outputFolder, masks, raster))
  }

  /** One AOI of `zonal_stats_masked`: route it, list the region's rasters, then its masks, and
      run every (raster, mask) pair. */
  function MaskedAoi(fs: FileSystem, zonal: ZonalEngine, aoi: FilePath): Run
  {
    var paths := PATHS[PathKey(Stem(aoi.name))];
    match ListDir(fs, paths.rasterFolder)
    case Failure(e) => Abort(e)
    case Success(rasterNames) =>
      match ListDir(fs, paths.maskTiles)
      case Failure(e) => Abort(e)
      case Success(maskNames) =>
        MaskedPairs(fs, zonal, aoi, paths.outputFolder,
                    ListFiles(paths.rasterFolder, rasterNames, ".tif"), ListFiles(paths.maskTiles, maskNames, ".tif"))
  }

  /** `zonal_stats_masked`, as a value. */
  function ZonalStatsMaskedSpec(fs: FileSystem, zonal: ZonalEngine, inputFolder: Folder): Run
  {
    match ListDir(fs, inputFolder)
    case Failure(e) => Abort(e)
    case Success(names) => RunAll(ListFiles(inputFolder, names, ".shp"), aoi => MaskedAoi(fs, zonal, aoi))
  }

  /** The inner loop of `zonal_stats_masked`: one raster against every mask. */
  method RunMaskedRaster(fs: FileSystem, zonal: ZonalEngine, aoi: FilePath, outputFolder: Folder,
                         masks: seq<FilePath>, raster: FilePath) returns (run: Run)
    ensures run == MaskedRaster(fs, zonal, aoi, outputFolder, masks, raster)
  {
    ghost var inner := mask => MaskedStep(fs, zonal, aoi, outputFolder, raster, mask);
    var writes: seq<Write> := [];
    var j := 0;
    while j < |masks|
      invariant 0 <= j <= |masks|
      invariant MaskedRaster(fs, zonal, aoi, outputFolder, masks, raster) == Then(Run(writes, Completed), RunAll(masks[j..], inner))
    {
      var mask := masks[j];
      RunAllFrom(masks, j, inner);
      ThenStep(writes, inner(mask), RunAll(masks[j + 1..], inner));
      var out := MaskedStep(fs, zonal, aoi, outputFolder, raster, mask);
      if out.outcome.Aborted? {
        return Run(writes + out.writes, out.outcome);
      }
      writes := writes + out.writes;
      j := j + 1;
    }
    assert writes + [] == writes;
    return Run(writes, Completed);
  }

  /** The outer loop of `zonal_stats_masked` over the rasters of one AOI. */
  method RunMaskedPairs(fs: FileSystem, zonal: ZonalEngine, aoi: FilePath, outputFolder: Folder,
                        rasters: seq<FilePath>, masks: seq<FilePath>) returns (run: Run)
    ensures run == MaskedPairs(fs, zonal, aoi, outputFolder, rasters, masks)
  {
    ghost var outer := raster => MaskedRaster(fs, zonal, aoi, outputFolder, masks, raster);
    var writes: seq<Write> := [];
    var i := 0;
    while i < |rasters|
      invariant 0 <= i <= |rasters|
      invariant MaskedPairs(fs, zonal, aoi, outputFolder, rasters, masks) == Then(Run(writes, Completed), RunAll(rasters[i..], outer))
    {
      var raster := rasters[i];
      RunAllFrom(rasters, i, outer);
      ThenStep(writes, outer(raster), RunAll(rasters[i + 1..], outer));
      var out := RunMaskedRaster(fs, zonal, aoi, outputFolder, masks, raster);
      if out.outcome.Aborted? {
        return Run(writes + out.writes, out.outcome);
      }
      writes := writes + out.writes;
      i := i + 1;
    }
    assert writes + [] == writes;
    return Run(writes, Completed);
  }

  /** One AOI of `zonal_stats_masked`: route it, list its region's rasters and masks, and run
      the two loops. */
  method MaskedAoiRound(fs: FileSystem, zonal: ZonalEngine, aoi: FilePath) returns (out: Run)
    ensures out == MaskedAoi(fs, zonal, aoi)
  {
    var pathKey := PathKey(Stem(aoi.name));
    var paths := PATHS[pathKey];
    var rasterNames := ListDir(fs, paths.rasterFolder);
    if rasterNames.Failure? {
      return Abort(rasterNames.error);
    }
    var maskNames := ListDir(fs, paths.maskTiles);
    if maskNames.Failure? {
      return Abort(maskNames.error);
    }
    var rasterList := ListFiles(paths.rasterFolder, rasterNames.value, ".tif");
    var maskList := ListFiles(paths.maskTiles, maskNames.value, ".tif");
    out := RunMaskedPairs(fs, zonal, aoi, paths.outputFolder, rasterList, maskList);
  }

  /** `zonal_stats_masked`. */
  method ZonalStatsMasked(fs: FileSystem, zonal: ZonalEngine, inputFolder: Folder) returns (run: Run)
    ensures run == ZonalStatsMaskedSpec(fs, zonal, inputFolder)
  {
    var listing := ListDir(fs, inputFolder);
    if listing.Failure? {
      return Abort(listing.error);
    }
    var aoiList := ListFiles(inputFolder, listing.value, ".shp");
    ghost var step := aoi => MaskedAoi(fs, zonal, aoi);
    var writes: seq<Write> := [];
    var i := 0;
    while i < |aoiList|
      invariant 0 <= i <= |aoiList|
      invariant ZonalStatsMaskedSpec(fs, zonal, inputFolder) == Then(Run(writes, Completed), RunAll(aoiList[i..], step))
    {
      var aoi := aoiList[i];
      RunAllFrom(aoiList, i, step);
      ThenStep(writes, step(aoi), RunAll(aoiList[i + 1..], step));
      var out := MaskedAoiRound(fs, zonal, aoi);
      if out.outcome.Aborted? {
        return Run(writes + out.writes, out.outcome);
      }
      writes := writes + out.writes;
      i := i + 1;
    }
    assert writes + [] == writes;
    return Run(writes, Completed);
  }

  // ---------------------------------------------------------------- properties

  /** `w` is the native (".dbf") or delimited (".csv") table saved for `raster` in plain mode:
      the engine's per-zone sums of the raster, under `<aoi>_<raster><ext>`. */
  ghost predicate PlainOutput(fs: FileSystem, zonal: ZonalEngine, aoi: FilePath, outputFolder: Folder,
                              raster: FilePath, ext: string, w: Write)
  {
    && raster in fs.rasters
    && zonal(aoi, ZONE_FIELD, fs.rasters[raster]).Some?
    && w == SaveTable(FilePath(outputFolder, TableName(Stem(aoi.name), Stem(raster.name), ext)),
                      zonal(aoi, ZONE_FIELD, fs.rasters[raster]).value)
  }

  /** A plain round completes exactly when the raster loads and the engine succeeds, and then
      saves the native table and its delimited copy, in that order; otherwise it saves nothing
      and fails on the raster or on the engine. */
  lemma PlainStepOutcome(fs: FileSystem, zonal: ZonalEngine, aoi: FilePath, outputFolder: Folder, raster: FilePath)
    ensures PlainStep(fs, zonal, aoi, outputFolder, raster).outcome.Completed? <==>
      raster in fs.rasters && zonal(aoi, ZONE_FIELD, fs.rasters[raster]).Some?
    ensures PlainStep(fs, zonal, aoi, outputFolder, raster).outcome.Completed? ==>
      var ws := PlainStep(fs, zonal, aoi, outputFolder, raster).writes;
      && |ws| == 2
      && PlainOutput(fs, zonal, aoi, outputFolder, raster, ".dbf", ws[0])
      && PlainOutput(fs, zonal, aoi, outputFolder, raster, ".csv", ws[1])
    ensures PlainStep(fs, zonal, aoi, outputFolder, raster).outcome.Aborted? ==>
      && PlainStep(fs, zonal, aoi, outputFolder, raster).writes == []
      && PlainStep(fs, zonal, aoi, outputFolder, raster).outcome.error ==
           if raster !in fs.rasters then RasterNotFound(raster) else AggregationFailed(aoi)
  {
    var stem := Stem(aoi.name) + "_" + Stem(raster.name);
    assert TableName(Stem(aoi.name), Stem(raster.name), ".dbf") == stem + ".dbf";
    assert TableName(Stem(aoi.name), Stem(raster.name), ".csv") == stem + ".csv";
  }

  lemma PlainStepSaves(fs: FileSystem, zonal: ZonalEngine, aoi: FilePath, outputFolder: Folder, raster: FilePath)
    requires PlainStep(fs, zonal, aoi, outputFolder, raster).outcome.Completed?
    ensures |PlainStep(fs, zonal, aoi, outputFolder, raster).writes| == 2
    ensures PlainOutput(fs, zonal, aoi, outputFolder, raster, ".dbf", PlainStep(fs, zonal, aoi, outputFolder, raster).writes[0])
    ensures PlainOutput(fs, zonal, aoi, outputFolder, raster, ".csv", PlainStep(fs, zonal, aoi, outputFolder, raster).writes[1])
  {
    PlainStepOutcome(fs, zonal, aoi, outputFolder, raster);
  }

  /** Position 2k and 2k + 1 of a plain loop whose every round completes. */
  lemma PlainRunAt(fs: FileSystem, zonal: ZonalEngine, aoi: FilePath, outputFolder: Folder,
                   rasters: seq<FilePath>, k: nat)
    requires forall i :: 0 <= i < |rasters| ==> PlainStep(fs, zonal, aoi, outputFolder, rasters[i]).outcome.Completed?
    requires k < |rasters|
    ensures 2 * k + 1 < |RunAll(rasters, raster => PlainStep(fs, zonal, aoi, outputFolder, raster)).writes|
    ensures PlainOutput(fs, zonal, aoi, outputFolder, rasters[k], ".dbf",
                        RunAll(rasters, raster => PlainStep(fs, zonal, aoi, outputFolder, raster)).writes[2 * k])
    ensures PlainOutput(fs, zonal, aoi, outputFolder, rasters[k], ".csv",
                        RunAll(rasters, raster => PlainStep(fs, zonal, aoi, outputFolder, raster)).writes[2 * k + 1])
  {
    var step := raster => PlainStep(fs, zonal, aoi, outputFolder, raster);
    forall i | 0 <= i < |rasters|
      ensures step(rasters[i]).outcome.Completed? && |step(rasters[i]).writes| == 2
    {
      PlainStepSaves(fs, zonal, aoi, outputFolder, rasters[i]);
    }
    PlainStepSaves(fs, zonal, aoi, outputFolder, rasters[k]);
    RunAllTwoAt(rasters, step, k);
  }

  /** A completed plain run over one AOI has saved, for the k-th ".tif" of the raster folder in
      listing order, its native table at position 2k and its delimited copy at 2k + 1, and
      nothing else. */
  lemma ProcessZonalStatisticsOutputs(fs: FileSystem, zonal: ZonalEngine, aoi: FilePath,
                                      rasterFolder: Folder, outputFolder: Folder)
    requires ProcessZonalStatisticsSpec(fs, zonal, aoi, rasterFolder, outputFolder).outcome.Completed?
    ensures rasterFolder in fs.listings
    ensures
      var rasters := ListFiles(rasterFolder, fs.listings[rasterFolder], ".tif");
      var ws := ProcessZonalStatisticsSpec(fs, zonal, aoi, rasterFolder, outputFolder).writes;
      && |ws| == 2 * |rasters|
      && forall k :: 0 <= k < |rasters| ==>
           PlainOutput(fs, zonal, aoi, outputFolder, rasters[k], ".dbf", ws[2 * k]) &&
           PlainOutput(fs, zonal, aoi, outputFolder, rasters[k], ".csv", ws[2 * k + 1])
  {
    var rasters := ListFiles(rasterFolder, fs.listings[rasterFolder], ".tif");
    var step := raster => PlainStep(fs, zonal, aoi, outputFolder, raster);
    assert ProcessZonalStatisticsSpec(fs, zonal, aoi, rasterFolder, outputFolder) == RunAll(rasters, step);
    RunAllCompleted(rasters, step);
    forall k | 0 <= k < |rasters|
      ensures |step(rasters[k]).writes| == 2
    {
      PlainStepSaves(fs, zonal, aoi, outputFolder, rasters[k]);
    }
    RunAllUniform(rasters, step, 2);
    MulIsProduct(2, |rasters|);
    forall k | 0 <= k < |rasters|
      ensures PlainOutput(fs, zonal, aoi, outputFolder, rasters[k], ".dbf", RunAll(rasters, step).writes[2 * k])
      ensures PlainOutput(fs, zonal, aoi, outputFolder, rasters[k], ".csv", RunAll(rasters, step).writes[2 * k + 1])
    {
      PlainRunAt(fs, zonal, aoi, outputFolder, rasters, k);
    }
  }

  /** `w` is the delimited table saved for the pair (`raster`, `mask`) in masked mode: the
      engine's per-zone sums of raster × mask, under `<aoi>_<raster>_<mask suffix>.csv`. */
  ghost predicate MaskedOutput(fs: FileSystem, zonal: ZonalEngine, aoi: FilePath, outputFolder: Folder,
                               raster: FilePath, mask: FilePath, ext: string, w: Write)
  {
    && MaskSuffix(Stem(mask.name)).Success?
    && raster in fs.rasters && mask in fs.rasters
    && zonal(aoi, ZONE_FIELD, Times(fs.rasters[raster], fs.rasters[mask])).Some?
    && w == SaveTable(FilePath(outputFolder, MaskedTableName(Stem(aoi.name), Stem(raster.name), MaskSuffix(Stem(mask.name)).value, ext)),
                      zonal(aoi, ZONE_FIELD, Times(fs.rasters[raster], fs.rasters[mask])).value)
  }

  /** A masked round completes exactly when the mask name has a suffix, both layers load and
      the engine succeeds, and then saves the native table and its delimited copy. */
  lemma MaskedStepOutcome(fs: FileSystem, zonal: ZonalEngine, aoi: FilePath, outputFolder: Folder,
                          raster: FilePath, mask: FilePath)
    ensures MaskedStep(fs, zonal, aoi, outputFolder, raster, mask).outcome.Completed? <==>
      && MaskSuffix(Stem(mask.name)).Success?
      && raster in fs.rasters && mask in fs.rasters
      && zonal(aoi, ZONE_FIELD, Times(fs.rasters[raster], fs.rasters[mask])).Some?
    ensures MaskedStep(fs, zonal, aoi, outputFolder, raster, mask).outcome.Completed? ==>
      var ws := MaskedStep(fs, zonal, aoi, outputFolder, raster, mask).writes;
      && |ws| == 2
      && MaskedOutput(fs, zonal, aoi, outputFolder, raster, mask, ".dbf", ws[0])
      && MaskedOutput(fs, zonal, aoi, outputFolder, raster, mask, ".csv", ws[1])
    ensures MaskedStep(fs, zonal, aoi, outputFolder, raster, mask).outcome.Aborted? ==>
      MaskedStep(fs, zonal, aoi, outputFolder, raster, mask).writes == []
  {
    match MaskSuffix(Stem(mask.name))
    case Failure(_) =>
    case Success(suffix) =>
      var stem := Stem(aoi.name) + "_" + Stem(raster.name) + "_" + suffix;
      assert MaskedTableName(Stem(aoi.name), Stem(raster.name), suffix, ".dbf") == stem + ".dbf";
      assert MaskedTableName(Stem(aoi.name), Stem(raster.name), suffix, ".csv") == stem + ".csv";
  }

  lemma MaskedStepSaves(fs: FileSystem, zonal: ZonalEngine, aoi: FilePath, outputFolder: Folder,
                        raster: FilePath, mask: FilePath)
    requires MaskedStep(fs, zonal, aoi, outputFolder, raster, mask).outcome.Completed?
    ensures |MaskedStep(fs, zonal, aoi, outputFolder, raster, mask).writes| == 2
    ensures MaskedOutput(fs, zonal, aoi, outputFolder, raster, mask, ".dbf", MaskedStep(fs, zonal, aoi, outputFolder, raster, mask).writes[0])
    ensures MaskedOutput(fs, zonal, aoi, outputFolder, raster, mask, ".csv", MaskedStep(fs, zonal, aoi, outputFolder, raster, mask).writes[1])
  {
    MaskedStepOutcome(fs, zonal, aoi, outputFolder, raster, mask);
  }

  /** A completed masked run over one AOI has run the inner loop to completion for every
      raster, in listing order, and saved its files as consecutive blocks of 2·|masks|: the
      block of raster i starts at 2·|masks|·i (`Mul` is the product, `MulIsProduct`). With
      `MaskedRasterOutputs` this places the pair (raster i, mask j) at 2·|masks|·i + 2j. */
  lemma MaskedPairsOutputs(fs: FileSystem, zonal: ZonalEngine, aoi: FilePath, outputFolder: Folder,
                           rasters: seq<FilePath>, masks: seq<FilePath>)
    requires MaskedPairs(fs, zonal, aoi, outputFolder, rasters, masks).outcome.Completed?
    ensures forall i :: 0 <= i < |rasters| ==>
      MaskedRaster(fs, zonal, aoi, outputFolder, masks, rasters[i]).outcome.Completed?
    ensures
      var ws := MaskedPairs(fs, zonal, aoi, outputFolder, rasters, masks).writes;
      && |ws| == 2 * |masks| * |rasters|
      && forall i :: 0 <= i < |rasters| ==>
           && Mul(2 * |masks|, i) + 2 * |masks| <= |ws|
           && ws[Mul(2 * |masks|, i)..Mul(2 * |masks|, i) + 2 * |masks|] ==
              MaskedRaster(fs, zonal, aoi, outputFolder, masks, rasters[i]).writes
  {
    MaskedPairsLength(fs, zonal, aoi, outputFolder, rasters, masks);
    forall i | 0 <= i < |rasters|
      ensures Mul(2 * |masks|, i) + 2 * |masks| <= |MaskedPairs(fs, zonal, aoi, outputFolder, rasters, masks).writes|
      ensures MaskedPairs(fs, zonal, aoi, outputFolder, rasters, masks).writes[Mul(2 * |masks|, i)..Mul(2 * |masks|, i) + 2 * |masks|] ==
              MaskedRaster(fs, zonal, aoi, outputFolder, masks, rasters[i]).writes
    {
      MaskedPairsBlock(fs, zonal, aoi, outputFolder, rasters, masks, i);
    }
  }

  lemma MaskedPairsLength(fs: FileSystem, zonal: ZonalEngine, aoi: FilePath, outputFolder: Folder,
                          rasters: seq<FilePath>, masks: seq<FilePath>)
    requires MaskedPairs(fs, zonal, aoi, outputFolder, rasters, masks).outcome.Completed?
    ensures forall i :: 0 <= i < |rasters| ==>
      MaskedRaster(fs, zonal, aoi, outputFolder, masks, rasters[i]).outcome.Completed?
    ensures |MaskedPairs(fs, zonal, aoi, outputFolder, rasters, masks).writes| == 2 * |masks| * |rasters|
  {
    var outer := raster => MaskedRaster(fs, zonal, aoi, outputFolder, masks, raster);
    RunAllCompleted(rasters, outer);
    forall i | 0 <= i < |rasters|
      ensures |outer(rasters[i]).writes| == 2 * |masks|
    {
      MaskedRasterLength(fs, zonal, aoi, outputFolder, masks, rasters[i]);
    }
    RunAllUniform(rasters, outer, 2 * |masks|);
    MulIsProduct(2 * |masks|, |rasters|);
  }

  lemma MaskedPairsBlock(fs: FileSystem, zonal: ZonalEngine, aoi: FilePath, outputFolder: Folder,
                         rasters: seq<FilePath>, masks: seq<FilePath>, i: nat)
    requires forall k :: 0 <= k < |rasters| ==>
      MaskedRaster(fs, zonal, aoi, outputFolder, masks, rasters[k]).outcome.Completed?
    requires i < |rasters|
    ensures Mul(2 * |masks|, i) + 2 * |masks| <= |MaskedPairs(fs, zonal, aoi, outputFolder, rasters, masks).writes|
    ensures MaskedPairs(fs, zonal, aoi, outputFolder, rasters, masks).writes[Mul(2 * |masks|, i)..Mul(2 * |masks|, i) + 2 * |masks|] ==
            MaskedRaster(fs, zonal, aoi, outputFolder, masks, rasters[i]).writes
  {
    var outer := raster => MaskedRaster(fs, zonal, aoi, outputFolder, masks, raster);
    forall k | 0 <= k < |rasters|
      ensures outer(rasters[k]).outcome.Completed? && |outer(rasters[k]).writes| == 2 * |masks|
    {
      MaskedRasterLength(fs, zonal, aoi, outputFolder, masks, rasters[k]);
    }
    RunAllUniformBlock(rasters, outer, 2 * |masks|, i);
  }

  lemma MaskedRasterLength(fs: FileSystem, zonal: ZonalEngine, aoi: FilePath, outputFolder: Folder,
                           masks: seq<FilePath>, raster: FilePath)
    requires MaskedRaster(fs, zonal, aoi, outputFolder, masks, raster).outcome.Completed?
    ensures |MaskedRaster(fs, zonal, aoi, outputFolder, masks, raster).writes| == 2 * |masks|
  {
    MaskedRasterOutputs(fs, zonal, aoi, outputFolder, masks, raster);
  }

  /** The inner loop: one raster against every mask saves the pair (raster, mask j) at 2j and
      2j + 1. */
  lemma MaskedRasterOutputs(fs: FileSystem, zonal: ZonalEngine, aoi: FilePath, outputFolder: Folder,
                            masks: seq<FilePath>, raster: FilePath)
    requires MaskedRaster(fs, zonal, aoi, outputFolder, masks, raster).outcome.Completed?
    ensures
      var ws := MaskedRaster(fs, zonal, aoi, outputFolder, masks, raster).writes;
      && |ws| == 2 * |masks|
      && forall j :: 0 <= j < |masks| ==>
           MaskedOutput(fs, zonal, aoi, outputFolder, raster, masks[j], ".dbf", ws[2 * j]) &&
           MaskedOutput(fs, zonal, aoi, outputFolder, raster, masks[j], ".csv", ws[2 * j + 1])
  {
    var inner := mask => MaskedStep(fs, zonal, aoi, outputFolder, raster, mask);
    RunAllCompleted(masks, inner);
    forall j | 0 <= j < |masks|
      ensures |inner(masks[j]).writes| == 2
    {
      MaskedStepSaves(fs, zonal, aoi, outputFolder, raster, masks[j]);
    }
    RunAllUniform(masks, inner, 2);
    MulIsProduct(2, |masks|);
    forall j | 0 <= j < |masks|
      ensures MaskedOutput(fs, zonal, aoi, outputFolder, raster, masks[j], ".dbf", RunAll(masks, inner).writes[2 * j])
      ensures MaskedOutput(fs, zonal, aoi, outputFolder, raster, masks[j], ".csv", RunAll(masks, inner).writes[2 * j + 1])
    {
      MaskedRasterAt(fs, zonal, aoi, outputFolder, masks, raster, j);
    }
  }

  /** Position 2j and 2j + 1 of an inner loop whose every round completes. */
  lemma MaskedRasterAt(fs: FileSystem, zonal: ZonalEngine, aoi: FilePath, outputFolder: Folder,
                       masks: seq<FilePath>, raster: FilePath, j: nat)
    requires forall k :: 0 <= k < |masks| ==> MaskedStep(fs, zonal, aoi, outputFolder, raster, masks[k]).outcome.Completed?
    requires j < |masks|
    ensures 2 * j + 1 < |MaskedRaster(fs, zonal, aoi, outputFolder, masks, raster).writes|
    ensures MaskedOutput(fs, zonal, aoi, outputFolder, raster, masks[j], ".dbf",
                         MaskedRaster(fs, zonal, aoi, outputFolder, masks, raster).writes[2 * j])
    ensures MaskedOutput(fs, zonal, aoi, outputFolder, raster, masks[j], ".csv",
                         MaskedRaster(fs, zonal, aoi, outputFolder, masks, raster).writes[2 * j + 1])
  {
    var inner := mask => MaskedStep(fs, zonal, aoi, outputFolder, raster, mask);
    forall k | 0 <= k < |masks|
      ensures inner(masks[k]).outcome.Completed? && |inner(masks[k]).writes| == 2
    {
      MaskedStepSaves(fs, zonal, aoi, outputFolder, raster, masks[k]);
    }
    MaskedStepSaves(fs, zonal, aoi, outputFolder, raster, masks[j]);
    RunAllTwoAt(masks, inner, j);
  }
}
