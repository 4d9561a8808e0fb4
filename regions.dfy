/** The two processing regions, Indonesia ("IDN", tile folder "00N_110E") and the Gambia ("GMB",
    tile folder "20N_20W"), and the folders each stage routes a tile or an area of interest to.
    Every routing test has a default branch: whatever does not name the first region goes to the
    second. */
module Regions {
  import opened Common
  import opened Strings

  const IDN_TILE := "00N_110E"
  const GMB_TILE := "20N_20W"

  /** `MASK_PATHS`: the tile folder of each region key. It is defined but no stage reads it. */
  const MASK_PATHS: map<string, string> := map["IDN" := IDN_TILE, "GMB" := GMB_TILE]

  /** `get_mask_tiles(tile_id)`: where the compositor saves a tile's mask. */
  function MaskTiles(tileId: string): (f: Folder)
    ensures f == ["Mask", "Mask", IDN_TILE] <==> Contains(tileId, IDN_TILE)
    ensures f == ["Mask", "Mask", GMB_TILE] <==> !Contains(tileId, IDN_TILE)
  {
    if Contains(tileId, IDN_TILE) then ["Mask", "Mask", IDN_TILE] else ["Mask", "Mask", GMB_TILE]
  }

  /** The folder pair `zonal_stats` picks for an area of interest: its value rasters and its
      outputs. */
  datatype ZonalFolders = ZonalFolders(rasterFolder: Folder, outputFolder: Folder)

  /** The `if "IDN" in aoi_name … else …` of `zonal_stats`. */
  function PlainFolders(aoiName: string): (r: ZonalFolders)
    ensures |r.rasterFolder| == |r.outputFolder| == 2
    ensures r.rasterFolder[0] == "Input" && r.outputFolder[0] == "Outputs"
    ensures r.rasterFolder[1] == r.outputFolder[1]
    ensures r.rasterFolder == ["Input", IDN_TILE] <==> Contains(aoiName, "IDN")
    ensures r.rasterFolder == ["Input", GMB_TILE] <==> !Contains(aoiName, "IDN")
  {
    if Contains(aoiName, "IDN") then ZonalFolders(["Input", IDN_TILE], ["Outputs", IDN_TILE])
    else ZonalFolders(["Input", GMB_TILE], ["Outputs", GMB_TILE])
  }

  /** An entry of the masked-mode `paths` table. */
  datatype RegionPaths = RegionPaths(rasterFolder: Folder, outputFolder: Folder, maskTiles: Folder)

  /** The masked-mode `paths` table. */
  const PATHS: map<string, RegionPaths> := map[
    "IDN" := RegionPaths(["Input", IDN_TILE], ["Outputs", IDN_TILE], ["Mask", "Mask", IDN_TILE]),
    "GMB" := RegionPaths(["Input", GMB_TILE], ["Outputs", GMB_TILE], ["Mask", "Mask", GMB_TILE])]

  /** The annual-mode `paths` table: only the raster folder of each region. */
  const ANNUAL_PATHS: map<string, Folder> := map["IDN" := ["Input", IDN_TILE], "GMB" := ["Input", GMB_TILE]]

  /** `path_key = "IDN" if "IDN" in aoi_name else "GMB"`: always a key of both tables. */
  function PathKey(aoiName: string): (k: string)
    ensures k in PATHS && k in ANNUAL_PATHS && k in MASK_PATHS
    ensures k == "IDN" <==> Contains(aoiName, "IDN")
    ensures k == "GMB" <==> !Contains(aoiName, "IDN")
  {
    if Contains(aoiName, "IDN") then "IDN" else "GMB"
  }

  /** Plain, masked and annual mode send an area of interest to the same raster folder, and
      plain and masked mode to the same output folder. */
  lemma RoutingAgrees(aoiName: string)
    ensures PATHS[PathKey(aoiName)].rasterFolder == PlainFolders(aoiName).rasterFolder
    ensures PATHS[PathKey(aoiName)].outputFolder == PlainFolders(aoiName).outputFolder
    ensures ANNUAL_PATHS[PathKey(aoiName)] == PlainFolders(aoiName).rasterFolder
  {
  }

  /** The mask folder masked mode reads for a region is the one named by `MASK_PATHS`, and it is
      the folder the compositor saves the region's tiles to. */
  lemma MaskFoldersAgree(key: string)
    requires key in MASK_PATHS
    ensures key in PATHS && PATHS[key].maskTiles == ["Mask", "Mask", MASK_PATHS[key]]
    ensures MaskTiles(MASK_PATHS[key]) == PATHS[key].maskTiles
  {
    assert StartsWith(IDN_TILE, IDN_TILE);
    NotContainsShorter(GMB_TILE, IDN_TILE);
  }

  /** A tile's mask lands in the mask folder masked mode reads for the first region exactly when
      its id names that region's tile, and otherwise in the second region's. */
  lemma MaskTilesRouting(tileId: string)
    ensures MaskTiles(tileId) == PATHS["IDN"].maskTiles <==> Contains(tileId, IDN_TILE)
    ensures MaskTiles(tileId) == PATHS["GMB"].maskTiles <==> !Contains(tileId, IDN_TILE)
  {
  }

  /** The two regions never share a folder. */
  lemma RegionsDisjoint()
    ensures PATHS["IDN"].rasterFolder != PATHS["GMB"].rasterFolder
    ensures PATHS["IDN"].outputFolder != PATHS["GMB"].outputFolder
    ensures PATHS["IDN"].maskTiles != PATHS["GMB"].maskTiles
  {
    assert IDN_TILE[0] != GMB_TILE[0];
  }
}
