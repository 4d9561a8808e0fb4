# Carbon-flux QA pipeline, modelled in Dafny

This project models the core of the CarbonFluxQA quality-assurance pipeline (`funcs.py`). The
model covers these stages:

- **The file-name schema.** A tile id is the text after the third underscore of a tree-cover
  layer's name. A tile's companion layers are named after its id, and so is its mask
  (`<tile_id>_tcd_gain.tif`). The mask suffix is the text after a mask name's second underscore.
  Output tables are named `<aoi>_<raster>[_<mask suffix>].{dbf,csv}`. The directory-listing
  filters keep the names ending in an extension, or, for the annual rasters, the names that
  hold a keyword and end in `.tif`.
- **Region routing.** A tile whose id holds `00N_110E` goes to that region's mask folder. Every
  other tile goes to `20N_20W`. An AOI (area of interest) whose name holds `IDN` goes to the
  Indonesian folders. Every other AOI goes to the Gambian ones.
- **The mask compositor.** Tree cover is binarized at `TCD_THRESHOLD` (30). Gain and biomass are
  binarized at 0. Tree cover is intersected with biomass (`Times`), gain is added (`Plus`), and
  the sum is binarized again. The mangrove union is disabled. The pre-2000 plantation layer is
  only a path. The batch driver runs the compositor over every `.tif` of the tree-cover folder.
- **Zonal statistics, plain and masked.** Every raster of the AOI's region is summed per zone.
  In masked mode, every raster is first multiplied by every mask of the region. Each result is
  saved as a native table and as its delimited copy.
- **Annual mode.** It sums only the `emis` rasters, per year zone. Each delimited table is
  rewritten with `VALUE` relabelled `YEAR` and its rows sorted in ascending year order. A
  failing raster is reported and skipped.
- **The consolidator.** Every `.csv` of a list of folders is read. Each one is tagged with Name,
  Type, Extent and Mask labels read off its file name, and loses its `OID_`, `COUNT` and `AREA`
  columns. All of them are concatenated, folder by folder and in listing order.

The workspace is an immutable snapshot (`Files.FileSystem`). It holds each folder's listing,
the rasters the raster engine can load, and the tables the table reader can read. A run is the
sequence of files it saves together with how it ended (`Batch.Run`). A loop without an
exception handler stops at its first failure and keeps what it already saved (`Batch.RunAll`).
The annual loop's `try`/`continue` goes on with the next raster (`Batch.RunSkipping`). The zonal
statistics engine is a function parameter (`Zonal.ZonalEngine`): it gives the per-zone table of
a value grid, or fails. Each driver is an imperative method whose loop is proved equal to a
specification function. The properties are proved as lemmas about those functions.

Integer cells stand in for the rasters' floating-point cells. Folders are paths below the
workspace root.

## Model

| member | source | states |
|---|---|---|
| `Strings.ContainsIff` | funcs.py:15 | Python's `t in s` holds exactly when `t` occurs in `s` at some position |
| `Strings.SplitCount` | funcs.py:11 | `s.split(c, n)` has one piece more than the number of separators it splits at, which is the smaller of the separator count and `n` |
| `Strings.SplitJoin` | funcs.py:11 | joining the pieces of `s.split(c, n)` with `c` gives `s` back |
| `Strings.StemOfExtension` | funcs.py:77 | `splitext` of `base + ".ext"` gives `base` back (for a base that is not all dots) |
| `Naming.TileId` | funcs.py:10-11 | succeeds iff the name has at least three underscores, and fails with IndexError otherwise; on success, name == f0_f1_f2_id with no underscore in f0, f1 or f2 |
| `Naming.TileIdOfFields` | funcs.py:10-11 | a name built from three underscore-free fields and an id yields exactly that id, which is the inverse of `TileId` |
| `Naming.SplitFourFields` | funcs.py:11 | `split("_", 3)` of three underscore-free fields and a tail gives those four pieces back |
| `Naming.TileIdExample` | funcs.py:10-11 | `"a_b_c_d_e"` has tile id `"d_e"` |
| `Naming.MaskSuffix` | funcs.py:139 | succeeds iff the mask stem has at least two underscores; on success, stem == f0_f1_suffix with no underscore in f0 or f1 |
| `Naming.MaskSuffixExample` | funcs.py:139 | the mask stem `"00N_110E_tcd_gain"` has suffix `"tcd_gain"` |
| `Naming.MaskSuffixOfSavedMask` | funcs.py:139 | the suffix read back from a saved mask `<tile_id>_tcd_gain.tif` is `tcd_gain` iff the tile id holds exactly one underscore |
| `Naming.TableNamesAgree` | funcs.py:80-84 | the `.dbf` and `.csv` outputs share the stem `<aoi>_<raster>`, the `.csv` passes the consolidator's filter, and a masked name is the plain name extended by `_<suffix>` |
| `Naming.MaskedNamesDistinct` | funcs.py:141-147 | for one AOI and raster, two masks give the same output name iff their suffixes are equal |
| `Naming.ListFiles` | funcs.py:69-70 | the result is exactly the listed names ending in the extension, as paths in the folder, with no more entries than the listing |
| `Naming.ListFilesAnnual` | funcs.py:152-157 | the result is exactly the listed names that hold the keyword and end in `.tif` |
| `Naming.ListFilesAppend` | funcs.py:69-70 | the filter keeps listing order and multiplicity: filtering a concatenated listing gives the concatenated results |
| `Naming.ListFilesAnnualAppend` | funcs.py:152-157 | the same order- and multiplicity-preserving law for the annual filter |
| `Naming.ListFilesOne` | funcs.py:69-70 | a one-name listing gives that name's path if it ends in the extension, and nothing otherwise |
| `Naming.ListFilesAnnualOne` | funcs.py:152-157 | a one-name listing gives that name's path if it holds the keyword and ends in `.tif`, and nothing otherwise |
| `Regions.MaskTiles` | funcs.py:14-18 | the mask folder is `Mask/Mask/00N_110E` iff the id holds `00N_110E`, and otherwise `Mask/Mask/20N_20W` |
| `Regions.PlainFolders` | funcs.py:95-100 | the raster and output folders are the `00N_110E` ones iff the AOI name holds `IDN`, and otherwise the `20N_20W` ones; both folders always name the same region |
| `Regions.PathKey` | funcs.py:127 | the key is `IDN` iff the name holds `IDN`, and otherwise `GMB`; it is always a key of every region table |
| `Regions.RoutingAgrees` | funcs.py:107-130 | plain, masked and annual mode send an AOI to the same raster folder, and plain and masked mode send it to the same output folder |
| `Regions.MaskFoldersAgree` | funcs.py:7 | the mask folder masked mode reads for a region is the one `MASK_PATHS` names, and it is where the compositor saves that region's tiles |
| `Regions.MaskTilesRouting` | funcs.py:14-18 | a tile's mask lands in the folder masked mode reads for IDN iff its id holds `00N_110E`, and otherwise in GMB's |
| `Regions.RegionsDisjoint` | funcs.py:107-118 | the two regions share no raster, output or mask folder |
| `Rasters.Binarize` | funcs.py:33-36 | `Con(g > t, 1, 0)`: the same extent, with 1 exactly where the cell exceeds `t` |
| `Rasters.Times` | funcs.py:41 | the cell-wise product over the common extent |
| `Rasters.Plus` | funcs.py:43 | the cell-wise sum over the common extent |
| `Rasters.Composite` | funcs.py:33-48 | the mask is binary, and a cell is 1 iff (tcd > threshold and whrc > 0) or gain > 0 |
| `Rasters.ThresholdMonotone` | funcs.py:33-48 | lowering the threshold, with the other layers fixed, can only turn mask cells from 0 to 1 |
| `Rasters.MaskedCells` | funcs.py:144 | raster × binary mask keeps the raster cell where the mask is 1 and gives 0 where it is 0 |
| `Files.FirstMissing` | funcs.py:33-36 | None iff every layer loads; otherwise the first layer, in loading order, that does not load |
| `Files.FirstMissingSame` | funcs.py:33-36 | two workspaces holding the same layers fail at the same layer |
| `Files.LastSaved` | funcs.py:188 | Some(t) means some save put t at the path and no later save targeted it; None means nothing was saved there |
| `Files.LastSavedAppend` | funcs.py:188 | a later save to a path overwrites an earlier one |
| `Masks.LayersLoadable` | funcs.py:33-36 | a tile's layers all load iff tcd, gain, whrc and mangrove each load |
| `Masks.CreateMasks` | funcs.py:52-66 | the loop over the tree-cover list computes `CreateMasksSpec`: tiles in listing order, stopping at the first failure |
| `Masks.MaskStepOutcome` | funcs.py:21-50 | a tile completes iff its name has a tile id and all four layers load; it then saves exactly one binary mask in its region's folder under `<id>_tcd_gain.tif`; otherwise it saves nothing and fails on the name or on the first missing layer |
| `Masks.MaskStepSaves` | funcs.py:50 | a completed tile saves one file, the tile's composite mask |
| `Masks.CreateMasksCompleted` | funcs.py:60-66 | the batch completes iff the tree-cover folder exists and every listed `.tif` completes; it then saves one mask per tile, in listing order |
| `Masks.CreateMasksSavesOnlyMasks` | funcs.py:63-66 | whatever the outcome, every saved file is the mask of a listed tree-cover tile |
| `Masks.MaskStepReads` | funcs.py:33-48 | a tile's result depends only on which of its four layers load and on the tcd, gain and whrc grids |
| `Masks.MangroveIrrelevant` | funcs.py:36-45 | changing the mangrove grid does not change the result (the mangrove union is disabled) |
| `Masks.PlantationNeverLoaded` | funcs.py:26-38 | removing the pre-2000 plantation layer does not change the result |
| `Masks.MaskPathsDiffer` | funcs.py:23-26 | a tile's gain, biomass, mangrove and plantation paths are four different files |
| `Zonal.ProcessZonalStatistics` | funcs.py:73-85 | the loop over the region's rasters computes `ProcessZonalStatisticsSpec` and stops at the first failure |
| `Zonal.PlainRound` | funcs.py:77-85 | one raster of the plain loop computes `PlainStep`: load, sum per zone, save the `.dbf` and `.csv` |
| `Zonal.ZonalStats` | funcs.py:88-102 | the loop over the `.shp` AOIs computes `ZonalStatsSpec`, each AOI routed by `PlainFolders` |
| `Zonal.RunMaskedPairs` | funcs.py:135-148 | the nested raster × mask loops compute `MaskedPairs` |
| `Zonal.RunMaskedRaster` | funcs.py:138-148 | the inner loop over the masks computes `MaskedRaster` and stops at the first failing pair |
| `Zonal.MaskedAoiRound` | funcs.py:123-148 | one AOI of masked mode computes `MaskedAoi`: route by `PathKey`, list the rasters and then the masks, run every pair |
| `Zonal.ZonalStatsMasked` | funcs.py:105-148 | the AOI loop of masked mode computes `ZonalStatsMaskedSpec`, each AOI routed by `PathKey` |
| `Zonal.PlainStepOutcome` | funcs.py:76-85 | a raster completes iff it loads and the engine succeeds; it then saves the engine's table as `<aoi>_<raster>.dbf` and then `.csv`; otherwise it saves nothing and names the failure |
| `Zonal.PlainStepSaves` | funcs.py:83-85 | a completed raster saves its two tables |
| `Zonal.PlainRunAt` | funcs.py:76-85 | in a plain loop whose rasters all complete, raster k's tables are at positions 2k and 2k+1 |
| `Zonal.ProcessZonalStatisticsOutputs` | funcs.py:73-85 | a completed plain run saves 2·n files: the `.dbf` and `.csv` of the k-th listed `.tif` at 2k and 2k+1 |
| `Zonal.MaskedStepOutcome` | funcs.py:138-148 | a (raster, mask) pair completes iff the mask has a suffix, both layers load and the engine succeeds on raster × mask; it then saves `<aoi>_<raster>_<suffix>.dbf` and `.csv`; otherwise it saves nothing |
| `Zonal.MaskedStepSaves` | funcs.py:144-148 | a completed pair saves its two tables |
| `Zonal.MaskedRasterOutputs` | funcs.py:138-148 | for one raster, mask j's tables are at 2j and 2j+1, so there is exactly one output pair per (raster, mask) |
| `Zonal.MaskedRasterAt` | funcs.py:138-148 | position 2j and 2j+1 of an inner loop whose pairs all complete |
| `Zonal.MaskedRasterLength` | funcs.py:138-148 | a completed inner loop saves 2·|masks| files |
| `Zonal.MaskedPairsOutputs` | funcs.py:135-148 | a completed AOI saves 2·|masks|·|rasters| files, in consecutive per-raster blocks in listing order |
| `Zonal.MaskedPairsLength` | funcs.py:135-148 | the file count of a completed AOI, and that every raster's inner loop completed |
| `Zonal.MaskedPairsBlock` | funcs.py:135-148 | raster i's block starts at 2·|masks|·i |
| `Tables.RenameColumn` | funcs.py:182 | only the label `from` changes to `to`; rows keep their order and every value |
| `Tables.RenamePreserves` | funcs.py:182 | renaming an existing column to a fresh label keeps the table well formed, moves the values of `from` under `to`, and leaves every other cell untouched |
| `Tables.SortRows` | funcs.py:185 | the result is a permutation of the rows, in ascending key order |
| `Tables.SortByColumn` | funcs.py:185 | succeeds iff exactly one column carries the label and every key is comparable; the columns are unchanged and the rows are a sorted permutation |
| `Tables.AssignColumn` | funcs.py:233-237 | every row gets the cell `c := v`, the column set gains `c`, and well-formedness is kept |
| `Tables.DropColumns` | funcs.py:240 | succeeds iff every label is a column; otherwise fails naming a missing label; it removes exactly those columns from the header and from every row |
| `Tables.ConcatTables` | funcs.py:253 | the row count is the sum, the column set is the union, and well-formedness is kept |
| `Tables.ConcatKeepsRow` | funcs.py:253 | the rows of the first table stay in place, widened |
| `Tables.ConcatPlacesRow` | funcs.py:253 | row k of the second table lands at |a|+k, widened |
| `Annual.PostProcessOutcome` | funcs.py:182-185 | the rename-then-sort fails when both or neither of `VALUE` and `YEAR` are labels; otherwise it succeeds iff every year is comparable, keeps the columns and sorts the rows by `YEAR` |
| `Annual.PostProcessYears` | funcs.py:182-185 | on an engine table with `VALUE` and no `YEAR`, it succeeds iff no year is text |
| `Annual.PostProcessRows` | funcs.py:182-188 | the result is well formed and sorted by `YEAR`, with as many rows, each an input row with `VALUE` renamed `YEAR` |
| `Annual.RenamedYears` | funcs.py:182 | after the rename every row holds its year under `YEAR` |
| `Annual.AnnualRound` | funcs.py:174-188 | the `try` body saves what `AnnualStep` saves, up to the point where it raises |
| `Annual.ProcessAnnualZonalStats` | funcs.py:160-193 | the per-raster loop computes `ProcessAnnualSpec`, where every raster runs whether or not an earlier one failed |
| `Annual.ZonalStatsAnnualized` | funcs.py:196-226 | the loop over the `clip.tif` AOIs computes `ZonalStatsAnnualizedSpec` |
| `Annual.AnnualStepOutcome` | funcs.py:174-193 | a raster completes iff it loads, the engine succeeds and the post-processing succeeds; a load or engine failure saves nothing |
| `Annual.AnnualStepFiles` | funcs.py:174-188 | the `.dbf` holds the engine's table; the `.csv` holds the post-processed table, or the raw one when post-processing raised |
| `Annual.ProcessAnnualOutcome` | funcs.py:160-193 | the call fails only when the raster folder is missing; otherwise it saves every raster's files, in order |
| `Annual.AnnualFailureIsolated` | funcs.py:174-193 | a failing raster does not change what the rasters before and after it save |
| `Annual.AnnualCsvIsSorted` | funcs.py:179-188 | at the end of the call, a completed raster's `.csv` holds its post-processed (sorted, renamed) table unless a later raster overwrote it |
| `Annual.AnnualizedOutcome` | funcs.py:214-226 | the annual run fails only when the input folder or an AOI's raster folder is missing; no raster can fail it |
| `Annual.AnnualStemKeepsKeyword` | funcs.py:156-168 | the stem of an annual raster's name still holds `emis` |
| `Batch.RunAllCompleted` | funcs.py:63-66 | a loop without a handler completes iff every item completes, and then saves what the items saved, in order |
| `Batch.RunAllAborted` | funcs.py:63-66 | an aborted loop stopped at its first failing item, with that item's error, after the earlier items' saves |
| `Batch.PlainLoopStopsAtFailure` | funcs.py:76-85 | in a loop without a handler, nothing after a failing item is saved |
| `Batch.RunSkippingAll` | funcs.py:191-193 | the `try`/`continue` loop always completes, with every item's saves in order |
| `Batch.SkippingIsolatesFailure` | funcs.py:174-193 | in the `try`/`continue` loop, an item's saves are independent of what is around it |
| `Batch.RunAllWritesFrom` | funcs.py:63-66 | every file a loop saved was saved by one of its items |
| `Batch.RunAllUniform` | funcs.py:135-148 | a loop whose items each complete with n saves completes with n·|items| saves |
| `Batch.RunAllUniformBlock` | funcs.py:135-148 | item k's saves are the block starting at n·k |
| `Consolidation.LoadAndProcessCsv` | funcs.py:229-241 | the in-place column assignments and the drop compute `LoadAndProcessSpec` |
| `Consolidation.LabelRow` | funcs.py:233-237 | the four assignments give each row its four labels |
| `Consolidation.LabelShape` | funcs.py:233-237 | labelling keeps the rows, adds the four label columns and keeps well-formedness |
| `Consolidation.ProcessCsvOutcome` | funcs.py:240 | processing fails iff a bookkeeping column is missing, and then names that column |
| `Consolidation.BookkeepingKept` | funcs.py:233-240 | labelling neither adds nor removes a bookkeeping column |
| `Consolidation.ProcessCsvRows` | funcs.py:232-241 | the processed table has the input's columns plus the labels, minus `OID_`, `COUNT` and `AREA`; each row is the input row tagged |
| `Consolidation.ZonalStatsClean` | funcs.py:244-258 | the nested folder × listing loops compute `ZonalStatsCleanSpec` |
| `Consolidation.CleanFolder` | funcs.py:248-253 | the loop over one folder's listing computes `CleanFiles`: each `.csv` processed and appended, other entries skipped |
| `Consolidation.CleanFilesIsFold` | funcs.py:248-253 | the inner loop is the fold over the folder's `.csv` paths, and every other entry is ignored |
| `Consolidation.FoldAppend` | funcs.py:247-253 | folding two runs of paths is folding the first, then the second |
| `Consolidation.CleanFoldersIsFold` | funcs.py:247-253 | the two loops are the fold over all `.csv` paths, folder after folder, in listing order |
| `Consolidation.CleanFoldersMissing` | funcs.py:248 | a missing folder fails the whole consolidation |
| `Consolidation.FoldLoadsAll` | funcs.py:250-253 | a successful fold loaded every one of its paths |
| `Consolidation.FoldShape` | funcs.py:253 | a successful fold is well formed, with the accumulated rows plus every loaded table's rows |
| `Consolidation.FoldKeepsRow` | funcs.py:253 | concatenation never moves or loses an accumulated row |
| `Consolidation.FoldPlaces` | funcs.py:253 | each loaded row lands after the rows of the tables before it |
| `Consolidation.CsvLoadedRows` | funcs.py:252 | processing keeps every table's row count |
| `Consolidation.ZonalStatsCleanSaves` | funcs.py:244-258 | the run saves nothing on failure; on success it finds every folder and saves one table to `Outputs/CSV/output.csv` whose row count is the sum over all `.csv` tables |
| `Consolidation.ZonalStatsCleanRows` | funcs.py:247-253 | row k of the i-th `.csv` table, tagged with its file name, is the output row at (rows of the tables before it) + k |
| `Consolidation.LabelPrecedence` | funcs.py:234-237 | Type is `emis` before `removals`, else net flux; Extent is forest iff the name holds `forest`; Mask is `tcd_gain` before `_tcd.`, else no mask (each an iff) |
| `Consolidation.MaskedOutputsLabelled` | funcs.py:237 | every masked-mode table under a `tcd_gain` mask is labelled "tcd and gain" |
| `Consolidation.AnnualOutputsAreEmissions` | funcs.py:235 | every annual-mode table is labelled "gross emissions" |

## Left out

- Raster engine calls (`arcpy.Raster`, `Con`, `Times`, `Plus`, `.save`): loading is a lookup in
  the workspace snapshot, the map algebra is on integer grids, and `.save` is a recorded write.
  Floating-point cells and no-data cells are not modelled.
- Raster shape mismatches: the engine would fail on grids of different extents. The model's
  `Times` and `Plus` work over the common extent instead.
- The zonal statistics engine (`ZonalStatisticsAsTable_sa`): it is an uninterpreted function
  parameter that returns a table or fails. `TableToTable_conversion` is modelled as saving the
  same table as `.csv`, with no number formatting. In annual mode, `pd.read_csv` reads that
  `.csv` back, and the model uses the saved table directly.
- `os.listdir`, `os.path.join`, `basename` and `arcpy.env.workspace`: listings come from the
  snapshot. A path is a folder below the workspace root paired with a base name.
- `os.makedirs` of the annual output folder (funcs.py:211-212) is not modelled. Saving never
  fails in the model.
- `print` and the error message in annual mode are not modelled. The skipped raster's error is
  dropped, as the source drops it after printing.
- `pd.read_csv` and `to_csv` parsing: a table is a header of distinct labels and rows mapping
  labels to a number, a text or a missing value. A well-formed snapshot (`Files.ValidTables`)
  is assumed by the lemmas that need it.
- `Tables.SortByColumn`: text keys count as not comparable. pandas sorts an all-text column
  lexicographically and fails only on mixed types. Ties may come out in any order, because the
  library's default sort is not stable.
- `Tables.ConcatTables`: the new columns are appended after the old ones, and a row's absent
  cells become the missing value. pandas' exact column order and its dtype changes are not
  modelled. That is why `Consolidation.ZonalStatsCleanRows` states that the output row extends
  the tagged row, not that it equals it.
- `GAIN_FLAG` and `MASK_PATHS` (funcs.py:6-7) are defined and never read by any stage. Only the
  agreement of `MASK_PATHS` with the routing tables is stated.
- `Components/01_CreateMasks.py` is not part of this model. It is a driver script whose one call
  passes eight arguments to `create_masks`, which takes none.
- Masked mode has no exception handler in the code (funcs.py:135-148). A failing (raster, mask)
  pair therefore ends the whole run, as in plain mode.
