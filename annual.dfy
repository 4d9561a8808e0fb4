/** Annual mode: for every AOI, the yearly emission rasters of its region (the ".tif" names
    holding "emis") are summed per year-index zone; each table is saved as ".dbf" and ".csv",
    then the ".csv" is rewritten with the year column relabelled "YEAR" and its rows in
    ascending year order. Unlike the other modes, a round that fails is reported and skipped:
    the loop goes on with the next raster. */
module Annual {
  import opened Common
  import opened Strings
  import opened Tables
  import opened Files
  import opened Batch
  import opened Naming
  import opened Regions
  import opened Zonal

  /** Annual mode groups by the zone raster's year index. */
  const ANNUAL_ZONE_FIELD := "Value"

  /** The keyword an annual raster's name holds. */
  const ANNUAL_KEYWORD := "emis"

  /** Every AOI's tables go to one folder. */
  const ANNUAL_OUTPUT: Folder := ["Outputs", "Annual"]

  /** The label the engine gives the year column, and the one annual mode gives it instead. */
  const VALUE_COLUMN := "VALUE"
  const YEAR_COLUMN := "YEAR"

  /** `df.rename(columns={'VALUE': 'YEAR'})` followed by `df.sort_values(by='YEAR')`. */
  function PostProcess(t: Table): Result<Table>
  {
    SortByColumn(RenameColumn(t, VALUE_COLUMN, YEAR_COLUMN), YEAR_COLUMN)
  }

  /** The post-processing fails when the table has both labels, or neither, and otherwise
      exactly when some year cell cannot be compared; when it succeeds it keeps the relabelled
      columns and puts the relabelled rows in ascending year order. */
  lemma PostProcessOutcome(t: Table)
    requires Distinct(t.columns)
    ensures VALUE_COLUMN in t.columns && YEAR_COLUMN in t.columns ==> PostProcess(t) == Failure(AmbiguousColumn(YEAR_COLUMN))
    ensures VALUE_COLUMN !in t.columns && YEAR_COLUMN !in t.columns ==> PostProcess(t) == Failure(ColumnNotFound(YEAR_COLUMN))
    ensures PostProcess(t).Success? <==>
      (VALUE_COLUMN in t.columns <==> YEAR_COLUMN !in t.columns) &&
      Sortable(RenameColumn(t, VALUE_COLUMN, YEAR_COLUMN).rows, YEAR_COLUMN)
    ensures PostProcess(t).Success? ==>
      var renamed := RenameColumn(t, VALUE_COLUMN, YEAR_COLUMN);
      && PostProcess(t).value.columns == renamed.columns
      && multiset(PostProcess(t).value.rows) == multiset(renamed.rows)
      && SortedBy(PostProcess(t).value.rows, YEAR_COLUMN)
  {
    RenameLabelsCount(t.columns, VALUE_COLUMN, YEAR_COLUMN);
    DistinctCount(t.columns, VALUE_COLUMN);
    DistinctCount(t.columns, YEAR_COLUMN);
  }

  /** On the engine's table (a year column "VALUE", no "YEAR" yet) the post-processing succeeds
      exactly when no year is text. */
  lemma PostProcessYears(t: Table)
    requires WellFormed(t) && VALUE_COLUMN in t.columns && YEAR_COLUMN !in t.columns
    ensures PostProcess(t).Success? <==> forall k :: 0 <= k < |t.rows| ==> !t.rows[k][VALUE_COLUMN].Text?
  {
    PostProcessOutcome(t);
    RenamedYears(t);
  }

  /** What a successful post-processing of the engine's table holds: a well-formed table with
      as many rows, in ascending year order, each an input row with its year moved under
      "YEAR". */

  lemma PostProcessRows(t: Table)
    requires WellFormed(t) && VALUE_COLUMN in t.columns && YEAR_COLUMN !in t.columns && PostProcess(t).Success?
    ensures
      var r := PostProcess(t).value;
      && WellFormed(r)
      && |r.rows| == |t.rows|
      && SortedBy(r.rows, YEAR_COLUMN)
      && (forall k :: 0 <= k < |r.rows| ==>
            exists m :: 0 <= m < |t.rows| && r.rows[k] == RenameKey(t.rows[m], VALUE_COLUMN, YEAR_COLUMN))
  {
    PostProcessOutcome(t);
    PostProcessShape(t);
    PostProcessDrawn(t);
  }

  lemma PostProcessShape(t: Table)
    requires WellFormed(t) && VALUE_COLUMN in t.columns && YEAR_COLUMN !in t.columns && PostProcess(t).Success?
    ensures WellFormed(PostProcess(t).value) && |PostProcess(t).value.rows| == |t.rows|
  {
    var renamed := RenameColumn(t, VALUE_COLUMN, YEAR_COLUMN);
    var r := PostProcess(t).value;
    PostProcessOutcome(t);
    RenameWellFormed(t, VALUE_COLUMN, YEAR_COLUMN);
    PermutedRows(r.rows, renamed.rows);
    PermutedWellFormed(renamed, r.rows);
  }

  lemma PostProcessDrawn(t: Table)
    requires Distinct(t.columns) && PostProcess(t).Success?
    ensures
      var r := PostProcess(t).value;
      forall k :: 0 <= k < |r.rows| ==>
        exists m :: 0 <= m < |t.rows| && r.rows[k] == RenameKey(t.rows[m], VALUE_COLUMN, YEAR_COLUMN)
  {
    var renamed := RenameColumn(t, VALUE_COLUMN, YEAR_COLUMN);
    var r := PostProcess(t).value;
    PostProcessOutcome(t);
    PermutedRows(r.rows, renamed.rows);
  }

  /** After the rename every row holds its year under "YEAR". */
  lemma RenamedYears(t: Table)
    requires WellFormed(t) && VALUE_COLUMN in t.columns
    ensures Sortable(RenameColumn(t, VALUE_COLUMN, YEAR_COLUMN).rows, YEAR_COLUMN) <==>
      forall k :: 0 <= k < |t.rows| ==> !t.rows[k][VALUE_COLUMN].Text?
  {
    var renamed := RenameColumn(t, VALUE_COLUMN, YEAR_COLUMN);
    forall k | 0 <= k < |t.rows|
      ensures YEAR_COLUMN in renamed.rows[k] && renamed.rows[k][YEAR_COLUMN] == t.rows[k][VALUE_COLUMN]
    {
      assert VALUE_COLUMN in t.rows[k];
    }
  }

  /** One round of `process_annual_zonal_stats`: sum the raster per year zone of the AOI, save
      the table as `<aoi>_<raster>.dbf` and `.csv`, then rewrite the `.csv` post-processed. A
      round that fails keeps what it saved before failing. */
  function AnnualStep(fs: FileSystem, zonal: ZonalEngine, aoi: FilePath, outputFolder: Folder, raster: FilePath): Run
  {
    var stem := Stem(aoi.name) + "_" + Stem(raster.name);
    match LoadRaster(fs, raster)
    case Failure(e) => Abort(e)
    case Success(grid) =>
      match zonal(aoi, ANNUAL_ZONE_FIELD, grid)
      case None => Abort(AggregationFailed(aoi))
      case Some(t) =>
        match PostProcess(t)
        case Failure(e) => Run(SaveBoth(outputFolder, stem, t), Aborted(e))
        case Success(sorted) =>
          Run(SaveBoth(outputFolder, stem, t) + [SaveTable(FilePath(outputFolder, stem + ".csv"), sorted)], Completed)
  }

  /** The body of the `try` block of `process_annual_zonal_stats`, returning what it saved
      before it finished or raised. */
  method AnnualRound(fs: FileSystem, zonal: ZonalEngine, aoi: FilePath, outputFolder: Folder, raster: FilePath)
    returns (saved: seq<Write>)
    ensures saved == AnnualStep(fs, zonal, aoi, outputFolder, raster).writes
  {
    var stem := Stem(aoi.name) + "_" + Stem(raster.name);
    saved := [];
    var grid := LoadRaster(fs, raster);
    if grid.Failure? {
      return;
    }
    var table := zonal(aoi, ANNUAL_ZONE_FIELD, grid.value);
    if table.None? {
      return;
    }
    saved := SaveBoth(outputFolder, stem, table.value);
    var df := RenameColumn(table.value, VALUE_COLUMN, YEAR_COLUMN);
    var sorted := SortByColumn(df, YEAR_COLUMN);
    if sorted.Success? {
      saved := saved + [SaveTable(FilePath(outputFolder, stem + ".csv"), sorted.value)];
    }
  }

  /** `process_annual_zonal_stats`, as a value: listing the raster folder is outside the
      handler and fails the call; after that every round runs, failing or not. */
  function ProcessAnnualSpec(fs: FileSystem, zonal: ZonalEngine, aoi: FilePath,
                             rasterFolder: Folder, outputFolder: Folder): Run
  {
    match ListDir(fs, rasterFolder)
    case Failure(e) => Abort(e)
    case Success(names) =>
      RunSkipping(ListFilesAnnual(rasterFolder, names, ANNUAL_KEYWORD),
                  raster => AnnualStep(fs, zonal, aoi, outputFolder, raster))
  }

  /** `process_annual_zonal_stats`. */
  method ProcessAnnualZonalStats(fs: FileSystem, zonal: ZonalEngine, aoi: FilePath,
                                 rasterFolder: Folder, outputFolder: Folder) returns (run: Run)
    ensures run == ProcessAnnualSpec(fs, zonal, aoi, rasterFolder, outputFolder)
  {
    var listing := ListDir(fs, rasterFolder);
    if listing.Failure? {
      return Abort(listing.error);
    }
    var rasterList := ListFilesAnnual(rasterFolder, listing.value, ANNUAL_KEYWORD);
    ghost var step := raster => AnnualStep(fs, zonal, aoi, outputFolder, raster);
    ghost var all := RunSkipping(rasterList, step);
    assert ProcessAnnualSpec(fs, zonal, aoi, rasterFolder, outputFolder) == all;
    assert rasterList[0..] == rasterList;
    var writes: seq<Write> := [];
    var i := 0;
    while i < |rasterList|
      invariant 0 <= i <= |rasterList|
      invariant all.writes == writes + RunSkipping(rasterList[i..], step).writes
    {
      var raster := rasterList[i];
      var saved := AnnualRound(fs, zonal, aoi, outputFolder, raster);
      SkippingStep(rasterList, i, step, writes, saved);
      writes := writes + saved;
      i := i + 1;
    }
    assert writes + [] == writes;
    assert all.outcome.Completed?;
    return Run(writes, Completed);
  }

  /** One AOI of `zonal_stats_annualized`: its region's raster folder, the common output
      folder. */
  function AnnualAoi(fs: FileSystem, zonal: ZonalEngine, aoi: FilePath): Run
  {
    ProcessAnnualSpec(fs, zonal, aoi, ANNUAL_PATHS[PathKey(Stem(aoi.name))], ANNUAL_OUTPUT)
  }

  /** `zonal_stats_annualized`, as a value: every "clip.tif" of the input folder, in listing
      order; the AOI loop itself has no handler. */
  function ZonalStatsAnnualizedSpec(fs: FileSystem, zonal: ZonalEngine, inputFolder: Folder): Run
  {
    match ListDir(fs, inputFolder)
    case Failure(e) => Abort(e)
    case Success(names) => RunAll(ListFiles(inputFolder, names, "clip.tif"), aoi => AnnualAoi(fs, zonal, aoi))
  }

  /** `zonal_stats_annualized`. */
  method ZonalStatsAnnualized(fs: FileSystem, zonal: ZonalEngine, inputFolder: Folder) returns (run: Run)
    ensures run == ZonalStatsAnnualizedSpec(fs, zonal, inputFolder)
  {
    var listing := ListDir(fs, inputFolder);
    if listing.Failure? {
      return Abort(listing.error);
    }
    var aoiList := ListFiles(inputFolder, listing.value, "clip.tif");
    ghost var step := aoi => AnnualAoi(fs, zonal, aoi);
    var writes: seq<Write> := [];
    var i := 0;
    while i < |aoiList|
      invariant 0 <= i <= |aoiList|
      invariant ZonalStatsAnnualizedSpec(fs, zonal, inputFolder) == Then(Run(writes, Completed), RunAll(aoiList[i..], step))
    {
      var aoi := aoiList[i];
      RunAllFrom(aoiList, i, step);
      ThenStep(writes, step(aoi), RunAll(aoiList[i + 1..], step));
      var pathKey := PathKey(Stem(aoi.name));
      var out := ProcessAnnualZonalStats(fs, zonal, aoi, ANNUAL_PATHS[pathKey], ANNUAL_OUTPUT);
      if out.outcome.Aborted? {
        return Run(writes + out.writes, out.outcome);
      }
      writes := writes + out.writes;
      i := i + 1;
    }
    assert writes + [] == writes;
    return Run(writes, Completed);
  }

  // ---------------------------------------------------------------- properties

  /** A round completes exactly when the raster loads, the engine succeeds and the
      post-processing succeeds; it saves nothing when the raster or the engine fails. */
  lemma AnnualStepOutcome(fs: FileSystem, zonal: ZonalEngine, aoi: FilePath, outputFolder: Folder, raster: FilePath)
    ensures
      var run := AnnualStep(fs, zonal, aoi, outputFolder, raster);
      run.outcome.Completed? <==>
        raster in fs.rasters && zonal(aoi, ANNUAL_ZONE_FIELD, fs.rasters[raster]).Some? &&
        PostProcess(zonal(aoi, ANNUAL_ZONE_FIELD, fs.rasters[raster]).value).Success?
    ensures
      var run := AnnualStep(fs, zonal, aoi, outputFolder, raster);
      raster !in fs.rasters || zonal(aoi, ANNUAL_ZONE_FIELD, fs.rasters[raster]).None? ==>
        run.writes == [] && run.outcome.Aborted?
  {
  }

  /** Once the engine has produced its table, the round leaves the native table in the ".dbf"
      and, in the ".csv", the post-processed table, or the raw one when post-processing fails
      (and then the round fails with the post-processing's error). */
  lemma AnnualStepFiles(fs: FileSystem, zonal: ZonalEngine, aoi: FilePath, outputFolder: Folder, raster: FilePath)
    requires raster in fs.rasters && zonal(aoi, ANNUAL_ZONE_FIELD, fs.rasters[raster]).Some?
    ensures
      var run := AnnualStep(fs, zonal, aoi, outputFolder, raster);
      var dbf := FilePath(outputFolder, TableName(Stem(aoi.name), Stem(raster.name), ".dbf"));
      var csv := FilePath(outputFolder, TableName(Stem(aoi.name), Stem(raster.name), ".csv"));
      var t := zonal(aoi, ANNUAL_ZONE_FIELD, fs.rasters[raster]).value;
      && LastSaved(run.writes, dbf) == Some(t)
      && LastSaved(run.writes, csv) == (if PostProcess(t).Success? then Some(PostProcess(t).value) else Some(t))
      && (run.outcome.Aborted? ==> run.outcome.error == PostProcess(t).error)
  {
    var stem := Stem(aoi.name) + "_" + Stem(raster.name);
    var dbf := FilePath(outputFolder, stem + ".dbf");
    var csv := FilePath(outputFolder, stem + ".csv");
    var t := zonal(aoi, ANNUAL_ZONE_FIELD, fs.rasters[raster]).value;
    assert TableName(Stem(aoi.name), Stem(raster.name), ".dbf") == stem + ".dbf";
    assert TableName(Stem(aoi.name), Stem(raster.name), ".csv") == stem + ".csv";
    assert dbf != csv by {
      assert (stem + ".dbf")[|stem| + 1] != (stem + ".csv")[|stem| + 1];
    }
    var saved := SaveBoth(outputFolder, stem, t);
    assert LastSaved(saved, csv) == Some(t);
    assert LastSaved(saved, dbf) == Some(t) by {
      assert saved[..1] == [SaveTable(dbf, t)];
      assert LastSaved(saved[..1], dbf) == Some(t);
    }
    if PostProcess(t).Success? {
      LastSavedAppend(saved, [SaveTable(csv, PostProcess(t).value)], dbf);
      LastSavedAppend(saved, [SaveTable(csv, PostProcess(t).value)], csv);
    }
  }

  /** Listing the raster folder is the only way the call fails; after it every round's saves
      appear, round after round, whether the round failed or not. */
  lemma ProcessAnnualOutcome(fs: FileSystem, zonal: ZonalEngine, aoi: FilePath, rasterFolder: Folder, outputFolder: Folder)
    ensures ProcessAnnualSpec(fs, zonal, aoi, rasterFolder, outputFolder).outcome.Completed? <==> rasterFolder in fs.listings
    ensures rasterFolder !in fs.listings ==>
      ProcessAnnualSpec(fs, zonal, aoi, rasterFolder, outputFolder) == Abort(FolderNotFound(rasterFolder))
    ensures rasterFolder in fs.listings ==>
      ProcessAnnualSpec(fs, zonal, aoi, rasterFolder, outputFolder).writes ==
        Flatten(StepWrites(ListFilesAnnual(rasterFolder, fs.listings[rasterFolder], ANNUAL_KEYWORD),
                           raster => AnnualStep(fs, zonal, aoi, outputFolder, raster)))
  {
    if rasterFolder in fs.listings {
      RunSkippingAll(ListFilesAnnual(rasterFolder, fs.listings[rasterFolder], ANNUAL_KEYWORD),
                     raster => AnnualStep(fs, zonal, aoi, outputFolder, raster));
    }
  }

  /** A raster that fails does not stop the others: the rounds before and after it save exactly
      what they would without it. */
  lemma AnnualFailureIsolated(fs: FileSystem, zonal: ZonalEngine, aoi: FilePath, rasterFolder: Folder, outputFolder: Folder,
                              before: seq<FilePath>, x: FilePath, after: seq<FilePath>)
    requires rasterFolder in fs.listings
    requires ListFilesAnnual(rasterFolder, fs.listings[rasterFolder], ANNUAL_KEYWORD) == before + [x] + after
    ensures
      var step := raster => AnnualStep(fs, zonal, aoi, outputFolder, raster);
      ProcessAnnualSpec(fs, zonal, aoi, rasterFolder, outputFolder) ==
        Run(RunSkipping(before, step).writes + step(x).writes + RunSkipping(after, step).writes, Completed)
  {
    SkippingIsolatesFailure(before, x, after, raster => AnnualStep(fs, zonal, aoi, outputFolder, raster));
  }

  /** At the end of the call, the delimited table of a round that completed holds its
      post-processed rows, unless a later round saved over it. */
  lemma AnnualCsvIsSorted(fs: FileSystem, zonal: ZonalEngine, aoi: FilePath, rasterFolder: Folder, outputFolder: Folder,
                          before: seq<FilePath>, x: FilePath, after: seq<FilePath>)
    requires rasterFolder in fs.listings
    requires ListFilesAnnual(rasterFolder, fs.listings[rasterFolder], ANNUAL_KEYWORD) == before + [x] + after
    requires AnnualStep(fs, zonal, aoi, outputFolder, x).outcome.Completed?
    requires
      var csv := FilePath(outputFolder, TableName(Stem(aoi.name), Stem(x.name), ".csv"));
      LastSaved(RunSkipping(after, raster => AnnualStep(fs, zonal, aoi, outputFolder, raster)).writes, csv).None?
    ensures
      var csv := FilePath(outputFolder, TableName(Stem(aoi.name), Stem(x.name), ".csv"));
      var t := zonal(aoi, ANNUAL_ZONE_FIELD, fs.rasters[x]).value;
      && x in fs.rasters
      && PostProcess(t).Success?
      && LastSaved(ProcessAnnualSpec(fs, zonal, aoi, rasterFolder, outputFolder).writes, csv) == Some(PostProcess(t).value)
  {
    var step := raster => AnnualStep(fs, zonal, aoi, outputFolder, raster);
    var csv := FilePath(outputFolder, TableName(Stem(aoi.name), Stem(x.name), ".csv"));
    AnnualFailureIsolated(fs, zonal, aoi, rasterFolder, outputFolder, before, x, after);
    AnnualStepOutcome(fs, zonal, aoi, outputFolder, x);
    AnnualStepFiles(fs, zonal, aoi, outputFolder, x);
    LastSavedAppend(RunSkipping(before, step).writes + step(x).writes, RunSkipping(after, step).writes, csv);
    LastSavedAppend(RunSkipping(before, step).writes, step(x).writes, csv);
  }

  /** The whole annual run fails only when the input folder or the raster folder of one of its
      AOIs is not there; no raster can fail it. */
  lemma AnnualizedOutcome(fs: FileSystem, zonal: ZonalEngine, inputFolder: Folder)
    ensures ZonalStatsAnnualizedSpec(fs, zonal, inputFolder).outcome.Completed? <==>
      && inputFolder in fs.listings
      && var aois := ListFiles(inputFolder, fs.listings[inputFolder], "clip.tif");
         forall i :: 0 <= i < |aois| ==> ANNUAL_PATHS[PathKey(Stem(aois[i].name))] in fs.listings
  {
    if inputFolder in fs.listings {
      var aois := ListFiles(inputFolder, fs.listings[inputFolder], "clip.tif");
      var step := aoi => AnnualAoi(fs, zonal, aoi);
      RunAllCompleted(aois, step);
      forall i | 0 <= i < |aois|
        ensures step(aois[i]).outcome.Completed? <==> ANNUAL_PATHS[PathKey(Stem(aois[i].name))] in fs.listings
      {
        ProcessAnnualOutcome(fs, zonal, aois[i], ANNUAL_PATHS[PathKey(Stem(aois[i].name))], ANNUAL_OUTPUT);
      }
    }
  }

  /** The stem of an annual raster's name still holds the keyword: the extension cannot take
      part in an occurrence. */
  lemma AnnualStemKeepsKeyword(name: string)
    requires Contains(name, ANNUAL_KEYWORD) && EndsWith(name, ".tif")
    ensures Contains(Stem(name), ANNUAL_KEYWORD)
  {
    var base := name[..|name| - 4];
    assert name == base + ".tif";
    ContainsIff(name, ANNUAL_KEYWORD);
    var i :| OccursAt(name, ANNUAL_KEYWORD, i);
    assert forall j :: 0 <= j < |ANNUAL_KEYWORD| ==> ANNUAL_KEYWORD[j] != '.';
    assert forall j :: i <= j < i + 4 ==> name[j] == ANNUAL_KEYWORD[j - i] by {
      forall j | i <= j < i + 4 ensures name[j] == ANNUAL_KEYWORD[j - i] {
        assert name[i..i + 4][j - i] == name[j];
      }
    }
    assert name[|base|] == '.';
    assert i + 4 <= |base|;
    assert base[i..i + 4] == name[i..i + 4];
    assert OccursAt(base, ANNUAL_KEYWORD, i);
    ContainsIff(base, ANNUAL_KEYWORD);
    assert !AllDots(base) by {
      assert base[i] == 'e';
    }
    StemOfExtension(base, ".tif");
  }
}
