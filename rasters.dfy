/** Raster layers as immutable grids of integer cells and the cell-wise map algebra the mask
    compositor uses: `Con(x > t, 1, 0)`, `Times` and `Plus`. Every operation builds a new grid
    over the common extent of its inputs (the rows and columns present in all of them). */
module Rasters {
  import opened Common

  type Grid = seq<seq<int>>

  /** Cell (i, j) exists in `g`. */
  predicate Within(g: Grid, i: int, j: int)
  {
    0 <= i < |g| && 0 <= j < |g[i]|
  }

  /** Every cell of `g` is 0 or 1. */
  ghost predicate IsBinary(g: Grid)
  {
    forall i, j :: Within(g, i, j) ==> g[i][j] == 0 || g[i][j] == 1
  }

  /** `Con(g > t, 1, 0)`: 1 where the cell exceeds `t`, else 0. */
  function Binarize(g: Grid, t: int): (r: Grid)
    ensures forall i, j :: Within(r, i, j) <==> Within(g, i, j)
    ensures forall i, j :: Within(r, i, j) ==> Within(g, i, j) && r[i][j] == (if g[i][j] > t then 1 else 0)
  {
    seq(|g|, i requires 0 <= i < |g| =>
      seq(|g[i]|, j requires 0 <= j < |g[i]| => if g[i][j] > t then 1 else 0))
  }

  /** `Times(a, b)`: cell-wise product over the common extent. */
  function Times(a: Grid, b: Grid): (r: Grid)
    ensures forall i, j :: Within(r, i, j) <==> Within(a, i, j) && Within(b, i, j)
    ensures forall i, j :: Within(r, i, j) ==> Within(a, i, j) && Within(b, i, j) && r[i][j] == a[i][j] * b[i][j]
  {
    seq(Min(|a|, |b|), i requires 0 <= i < Min(|a|, |b|) =>
      seq(Min(|a[i]|, |b[i]|), j requires 0 <= j < Min(|a[i]|, |b[i]|) => a[i][j] * b[i][j]))
  }

  /** `Plus(a, b)`: cell-wise sum over the common extent. */
  function Plus(a: Grid, b: Grid): (r: Grid)
    ensures forall i, j :: Within(r, i, j) <==> Within(a, i, j) && Within(b, i, j)
    ensures forall i, j :: Within(r, i, j) ==> Within(a, i, j) && Within(b, i, j) && r[i][j] == a[i][j] + b[i][j]
  {
    seq(Min(|a|, |b|), i requires 0 <= i < Min(|a|, |b|) =>
      seq(Min(|a[i]|, |b[i]|), j requires 0 <= j < Min(|a[i]|, |b[i]|) => a[i][j] + b[i][j]))
  }

  /** The tree-cover-and-gain mask of one tile, in the compositor's fixed order:
      binarize tree cover at `threshold` and biomass and gain at 0, intersect tree cover with
      biomass (Times), unite with gain (Plus), and binarize the sum at 0 again. The mangrove
      union is disabled, so no mangrove layer enters the composite. The result is binary and a
      cell is 1 exactly when (tree cover > threshold and biomass > 0) or gain > 0. */
  function Composite(tcd: Grid, gain: Grid, whrc: Grid, threshold: int): (mask: Grid)
    ensures forall i, j :: Within(mask, i, j) <==> Within(tcd, i, j) && Within(whrc, i, j) && Within(gain, i, j)
    ensures IsBinary(mask)
    ensures forall i, j :: Within(mask, i, j) ==>
      Within(tcd, i, j) && Within(whrc, i, j) && Within(gain, i, j) &&
      (mask[i][j] == 1 <==> (tcd[i][j] > threshold && whrc[i][j] > 0) || gain[i][j] > 0)
  {
    var tcdMask := Binarize(tcd, threshold);
    var gainMask := Binarize(gain, 0);
    var whrcMask := Binarize(whrc, 0);
    var intersection := Times(tcdMask, whrcMask);
    var union := Plus(intersection, gainMask);
    Binarize(union, 0)
  }

  /** Lowering the tree-cover threshold can only switch mask cells from 0 to 1. */
  lemma ThresholdMonotone(tcd: Grid, gain: Grid, whrc: Grid, lower: int, higher: int)
    requires lower <= higher
    ensures forall i, j :: Within(Composite(tcd, gain, whrc, higher), i, j) ==>
      Within(Composite(tcd, gain, whrc, lower), i, j) &&
      Composite(tcd, gain, whrc, higher)[i][j] <= Composite(tcd, gain, whrc, lower)[i][j]
  {
  }

  /** Multiplying a raster by a binary mask keeps the raster's cells where the mask is 1 and
      zeroes them where it is 0. */
  lemma MaskedCells(raster: Grid, mask: Grid)
    requires IsBinary(mask)
    ensures forall i, j :: Within(Times(raster, mask), i, j) ==>
      Times(raster, mask)[i][j] == if mask[i][j] == 1 then raster[i][j] else 0
  {
  }
}
