/** The file-name schema every stage depends on: tile ids parsed out of layer names, the names
    of a tile's companion layers and of its mask, the mask suffix read back from a mask name,
    the names of the tables a zonal run saves, and the directory-listing filters. */
module Naming {
  import opened Common
  import opened Strings

  /** `get_tile_id`: `rasterName.split("_", 3)[3]`, everything after the third underscore; an
      IndexError when there are fewer than three underscores. The three fields in front of the
      id hold no underscore. */
  function TileId(rasterName: string): (r: Result<string>)
    ensures r.Success? <==> Count(rasterName, '_') >= 3
    ensures r.Failure? ==> r.error == NameTooShort(rasterName)
    ensures r.Success? ==>
      var f := Split(rasterName, '_', 3);
      && |f| == 4
      && rasterName == f[0] + "_" + f[1] + "_" + f[2] + "_" + r.value
      && '_' !in f[0] && '_' !in f[1] && '_' !in f[2]
  {
    var parts := Split(rasterName, '_', 3);
    if |parts| > 3 then
      SplitCount(rasterName, '_', 3);
      SplitJoin(rasterName, '_', 3);
      JoinFour(parts, '_');
      Success(parts[3])
    else
      SplitCount(rasterName, '_', 3);
      Failure(NameTooShort(rasterName))
  }

  /** Splitting three underscore-free fields and a tail at the first three underscores gives
      them back. */
  lemma SplitFourFields(f0: string, f1: string, f2: string, id: string)
    requires '_' !in f0 && '_' !in f1 && '_' !in f2
    ensures Split(f0 + "_" + f1 + "_" + f2 + "_" + id, '_', 3) == [f0, f1, f2, id]
  {
    var s2 := f2 + ['_'] + id;
    var s1 := f1 + ['_'] + s2;
    var s0 := f0 + ['_'] + s1;
    assert f0 + "_" + f1 + "_" + f2 + "_" + id == s0;
    SplitField(f2, '_', id, 1);
    assert Split(s2, '_', 1) == [f2, id];
    SplitField(f1, '_', s2, 2);
    assert Split(s1, '_', 2) == [f1, f2, id];
    SplitField(f0, '_', s1, 3);
  }

  /** The inverse direction: a name built from three underscore-free fields and an id yields
      exactly that id back. */
  lemma TileIdOfFields(f0: string, f1: string, f2: string, id: string)
    requires '_' !in f0 && '_' !in f1 && '_' !in f2
    ensures TileId(f0 + "_" + f1 + "_" + f2 + "_" + id) == Success(id)
  {
    SplitFourFields(f0, f1, f2, id);
  }

  /** For example, "a_b_c_d_e" has tile id "d_e". */
  lemma TileIdExample()
    ensures TileId("a_b_c_d_e") == Success("d_e")
  {
    assert "a_b_c_d_e" == "a" + "_" + "b" + "_" + "c" + "_" + "d_e";
    TileIdOfFields("a", "b", "c", "d_e");
  }

  /** The mask suffix of masked mode: `maskStem.split("_", 2)[2]`, everything after the second
      underscore; an IndexError when there are fewer than two underscores. */
  function MaskSuffix(maskStem: string): (r: Result<string>)
    ensures r.Success? <==> Count(maskStem, '_') >= 2
    ensures r.Failure? ==> r.error == NameTooShort(maskStem)
    ensures r.Success? ==>
      var f := Split(maskStem, '_', 2);
      && |f| == 3
      && maskStem == f[0] + "_" + f[1] + "_" + r.value
      && '_' !in f[0] && '_' !in f[1]
  {
    var parts := Split(maskStem, '_', 2);
    if |parts| > 2 then
      SplitCount(maskStem, '_', 2);
      SplitJoin(maskStem, '_', 2);
      JoinThree(parts, '_');
      Success(parts[2])
    else
      SplitCount(maskStem, '_', 2);
      Failure(NameTooShort(maskStem))
  }

  // ---------------------------------------------------------------- a tile's layers

  function GainName(tileId: string): string { tileId + "_gain.tif" }

  function MangroveName(tileId: string): string { tileId + "_mangrove_agb_t_ha_2000_rewindow.tif" }

  function WhrcName(tileId: string): string { tileId + "_t_aboveground_biomass_ha_2000.tif" }

  /** The pre-2000 plantation layer's name; it is computed and never loaded. */
  function PlantationName(tileId: string): string { tileId + "_plantation_2000_reclass.tif" }

  /** The name the compositor saves a tile's mask under. */
  function MaskFileName(tileId: string): string { tileId + "_tcd_gain.tif" }

  lemma CountMaskTail()
    ensures Count("tcd_gain", '_') == 1
    ensures Count("_tcd_gain", '_') == 2
  {
  }

  /** The stem of a saved mask's name is the tile id followed by "_tcd_gain". */
  lemma StemOfMaskFileName(tileId: string)
    ensures Stem(MaskFileName(tileId)) == tileId + "_tcd_gain"
  {
    var base := tileId + "_tcd_gain";
    assert base[|tileId|] == '_';
    assert MaskFileName(tileId) == base + ".tif";
    StemOfExtension(base, ".tif");
  }

  /** A two-field tile id followed by "_tcd_gain" reads back the suffix "tcd_gain". */
  lemma MaskSuffixOfTwoFields(a: string, b: string)
    requires '_' !in a && '_' !in b
    ensures MaskSuffix(a + "_" + b + "_tcd_gain") == Success("tcd_gain")
  {
    var tail := b + ['_'] + "tcd_gain";
    assert a + "_" + b + "_tcd_gain" == a + ['_'] + tail;
    SplitField(a, '_', tail, 2);
    SplitField(b, '_', "tcd_gain", 1);
    assert Split(a + "_" + b + "_tcd_gain", '_', 2) == [a, b, "tcd_gain"];
  }

  /** For example, the mask "00N_110E_tcd_gain" has suffix "tcd_gain". */
  lemma MaskSuffixExample()
    ensures MaskSuffix("00N_110E_tcd_gain") == Success("tcd_gain")
  {
    assert "00N_110E_tcd_gain" == "00N" + "_" + "110E" + "_tcd_gain";
    MaskSuffixOfTwoFields("00N", "110E");
  }

  /** A name with one underscore is two underscore-free fields around it. */
  lemma OneUnderscore(s: string)
    requires Count(s, '_') == 1
    ensures IndexOf(s, '_') >= 0
    ensures s == s[..IndexOf(s, '_')] + "_" + s[IndexOf(s, '_') + 1..]
    ensures '_' !in s[IndexOf(s, '_') + 1..]
  {
    CountZero(s, '_');
    var k := IndexOf(s, '_');
    CountAfterFirst(s, '_');
    CountZero(s[k + 1..], '_');
    assert s == s[..k] + "_" + s[k + 1..];
  }

  /** Reading the suffix "tcd_gain" back from a mask stem means the tile id had one underscore. */
  lemma SuffixMeansOneUnderscore(tileId: string)
    requires MaskSuffix(tileId + "_tcd_gain") == Success("tcd_gain")
    ensures Count(tileId, '_') == 1
  {
    var base := tileId + "_tcd_gain";
    var f := Split(base, '_', 2);
    assert base == f[0] + "_" + f[1] + "_" + "tcd_gain";
    CountZero(f[0], '_');
    CountZero(f[1], '_');
    CountAppend(f[0], "_", '_');
    CountAppend(f[0] + "_", f[1], '_');
    CountAppend(f[0] + "_" + f[1], "_", '_');
    CountAppend(f[0] + "_" + f[1] + "_", "tcd_gain", '_');
    CountMaskTail();
    CountAppend(tileId, "_tcd_gain", '_');
  }

  /** Reading a saved mask's name back in masked mode yields the suffix "tcd_gain" exactly when
      the tile id holds one underscore (as "00N_110E" does); with none the suffix is "gain", and
      with more it keeps part of the id. */
  lemma MaskSuffixOfSavedMask(tileId: string)
    ensures MaskSuffix(Stem(MaskFileName(tileId))) == Success("tcd_gain") <==> Count(tileId, '_') == 1
  {
    StemOfMaskFileName(tileId);
    if MaskSuffix(tileId + "_tcd_gain") == Success("tcd_gain") {
      SuffixMeansOneUnderscore(tileId);
    }
    if Count(tileId, '_') == 1 {
      OneUnderscore(tileId);
      var k := IndexOf(tileId, '_');
      MaskSuffixOfTwoFields(tileId[..k], tileId[k + 1..]);
      assert tileId + "_tcd_gain" == tileId[..k] + "_" + tileId[k + 1..] + "_tcd_gain";
    }
  }

  // ---------------------------------------------------------------- zonal outputs

  /** `<aoi>_<raster><ext>`: the native and delimited tables of a plain or annual zonal run. */
  function TableName(aoiName: string, rasterName: string, ext: string): string
  {
    aoiName + "_" + rasterName + ext
  }

  /** `<aoi>_<raster>_<mask suffix><ext>`: the tables of a masked zonal run. */
  function MaskedTableName(aoiName: string, rasterName: string, maskSuffix: string, ext: string): string
  {
    aoiName + "_" + rasterName + "_" + maskSuffix + ext
  }

  /** The native table and its delimited copy share one stem, the delimited one always passes
      the consolidator's ".csv" filter, and a masked name is the plain name of the raster name
      extended by the mask suffix. */
  lemma TableNamesAgree(aoiName: string, rasterName: string, maskSuffix: string)
    ensures Stem(TableName(aoiName, rasterName, ".dbf")) == aoiName + "_" + rasterName
    ensures Stem(TableName(aoiName, rasterName, ".csv")) == aoiName + "_" + rasterName
    ensures EndsWith(TableName(aoiName, rasterName, ".csv"), ".csv")
    ensures EndsWith(MaskedTableName(aoiName, rasterName, maskSuffix, ".csv"), ".csv")
    ensures MaskedTableName(aoiName, rasterName, maskSuffix, ".csv") == TableName(aoiName, rasterName + "_" + maskSuffix, ".csv")
  {
    var base := aoiName + "_" + rasterName;
    assert base[|aoiName|] == '_';
    StemOfExtension(base, ".dbf");
    StemOfExtension(base, ".csv");
  }

  /** For one AOI and raster, two masks give the same table name only when their suffixes are
      equal: one output per mask suffix, and masks sharing a suffix overwrite each other. */
  lemma MaskedNamesDistinct(aoiName: string, rasterName: string, m1: string, m2: string, ext: string)
    ensures MaskedTableName(aoiName, rasterName, m1, ext) == MaskedTableName(aoiName, rasterName, m2, ext) <==> m1 == m2
  {
    var p := aoiName + "_" + rasterName + "_";
    if MaskedTableName(aoiName, rasterName, m1, ext) == MaskedTableName(aoiName, rasterName, m2, ext) {
      assert p + m1 + ext == p + m2 + ext;
      assert |m1| == |m2|;
      assert m1 == (p + m1 + ext)[|p|..|p| + |m1|];
      assert m2 == (p + m2 + ext)[|p|..|p| + |m2|];
    }
  }

  // ---------------------------------------------------------------- listing filters

  /** `list_files_in_directory(folder, ext)`: the listed names ending with `ext`, as paths in
      `folder`, in listing order. */
  function ListFiles(folder: Folder, names: seq<string>, ext: string): (r: seq<FilePath>)
    ensures |r| <= |names|
    ensures forall p :: p in r ==> p.folder == folder && p.name in names && EndsWith(p.name, ext)
    ensures forall n :: n in names && EndsWith(n, ext) ==> FilePath(folder, n) in r
  {
    if names == [] then []
    else if EndsWith(names[0], ext) then [FilePath(folder, names[0])] + ListFiles(folder, names[1..], ext)
    else ListFiles(folder, names[1..], ext)
  }

  /** `list_files_in_directory_annual(folder, keyword)`: the listed ".tif" names that contain
      `keyword`, as paths in `folder`, in listing order. */
  function ListFilesAnnual(folder: Folder, names: seq<string>, keyword: string): (r: seq<FilePath>)
    ensures |r| <= |names|
    ensures forall p :: p in r ==> p.folder == folder && p.name in names && Contains(p.name, keyword) && EndsWith(p.name, ".tif")
    ensures forall n :: n in names && Contains(n, keyword) && EndsWith(n, ".tif") ==> FilePath(folder, n) in r
  {
    if names == [] then []
    else if Contains(names[0], keyword) && EndsWith(names[0], ".tif") then
      [FilePath(folder, names[0])] + ListFilesAnnual(folder, names[1..], keyword)
    else ListFilesAnnual(folder, names[1..], keyword)
  }

  /** The filter keeps the listing's order and multiplicity: it maps over the listing name by
      name, so filtering a concatenation concatenates the filtered parts. */
  lemma {:induction false} ListFilesAppend(folder: Folder, a: seq<string>, b: seq<string>, ext: string)
    ensures ListFiles(folder, a + b, ext) == ListFiles(folder, a, ext) + ListFiles(folder, b, ext)
  {
    if a != [] {
      assert (a + b)[0] == a[0];
      assert (a + b)[1..] == a[1..] + b;
      ListFilesAppend(folder, a[1..], b, ext);
    } else {
      assert a + b == b;
    }
  }

  /** One step of the annual filter: the first name's path, if it passes, then the rest's. */
  lemma ListFilesAnnualCons(folder: Folder, n: string, rest: seq<string>, keyword: string)
    ensures ListFilesAnnual(folder, [n] + rest, keyword) ==
            (if Contains(n, keyword) && EndsWith(n, ".tif") then [FilePath(folder, n)] else []) + ListFilesAnnual(folder, rest, keyword)
  {
    assert ([n] + rest)[0] == n;
    assert ([n] + rest)[1..] == rest;
  }

  /** The same for the annual filter. */
  lemma {:induction false} ListFilesAnnualAppend(folder: Folder, a: seq<string>, b: seq<string>, keyword: string)
    ensures ListFilesAnnual(folder, a + b, keyword) == ListFilesAnnual(folder, a, keyword) + ListFilesAnnual(folder, b, keyword)
  {
    if a != [] {
      assert a == [a[0]] + a[1..];
      assert a + b == [a[0]] + (a[1..] + b);
      ListFilesAnnualCons(folder, a[0], a[1..], keyword);
      ListFilesAnnualCons(folder, a[0], a[1..] + b, keyword);
      ListFilesAnnualAppend(folder, a[1..], b, keyword);
    } else {
      assert a + b == b;
    }
  }

  /** A one-name listing gives that name's path when it passes the filter, and nothing otherwise. */
  lemma ListFilesOne(folder: Folder, n: string, ext: string)
    ensures ListFiles(folder, [n], ext) == if EndsWith(n, ext) then [FilePath(folder, n)] else []
  {
    assert [n][1..] == [];
  }

  lemma ListFilesAnnualOne(folder: Folder, n: string, keyword: string)
    ensures ListFilesAnnual(folder, [n], keyword) ==
            if Contains(n, keyword) && EndsWith(n, ".tif") then [FilePath(folder, n)] else []
  {
    assert [n][1..] == [];
  }
}
