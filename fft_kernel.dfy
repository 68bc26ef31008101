/**
 * The reciprocal-space kernel of the convolution and its reordering.
 *
 * The caller's kernel holds the factor of sample (x, y, z) at
 * x + y*nX + z*nX*nY.  setRecip copies it so that the nZ factors of pencil
 * (x, y) are contiguous, at (y*nX + x)*nZ + z, which is the order in which the
 * fused Z pass reads them.  The reordering is a bijection of [0, nX*nY*nZ).
 */
module FftKernel {
  import opened MixedRadix
  import opened FftLayout
  import opened FftPasses

  /** Number of samples of the volume, and of kernel entries. */
  function Count(g: Grid): int
  {
    g.nX * g.nY * g.nZ
  }

  /** Where setRecip stores the factor of sample (x, y, z). */
  function RecipIndex(g: Grid, x: int, y: int, z: int): int
  {
    (y * g.nX + x) * g.nZ + z
  }

  /** Where the caller's kernel holds the factor of sample (x, y, z). */
  function KernelIndex(g: Grid, x: int, y: int, z: int): int
  {
    x + y * g.nX + z * g.nX * g.nY
  }

  predicate InVolume(g: Grid, x: int, y: int, z: int)
  {
    0 <= x < g.nX && 0 <= y < g.nY && 0 <= z < g.nZ
  }

  lemma RecipIndexIsValue(g: Grid, x: int, y: int, z: int)
    ensures RecipIndex(g, x, y, z) == Value([z, x, y], [g.nZ, g.nX, g.nY])
    ensures Product([g.nZ, g.nX, g.nY]) == Count(g)
  {
    Value3(z, x, y, g.nZ, g.nX, g.nY);
    assert (y * g.nX + x) * g.nZ == g.nZ * (x + g.nX * y);
    assert g.nZ * (g.nX * g.nY) == g.nX * g.nY * g.nZ;
  }

  lemma KernelIndexIsValue(g: Grid, x: int, y: int, z: int)
    ensures KernelIndex(g, x, y, z) == Value([x, y, z], [g.nX, g.nY, g.nZ])
    ensures Product([g.nX, g.nY, g.nZ]) == Count(g)
  {
    Value3(x, y, z, g.nX, g.nY, g.nZ);
    assert z * g.nX * g.nY == g.nX * (g.nY * z);
  }

  /** Both index maps send the volume into [0, nX*nY*nZ). */
  lemma IndexBounds(g: Grid, x: int, y: int, z: int)
    requires InVolume(g, x, y, z)
    ensures 0 <= RecipIndex(g, x, y, z) < Count(g)
    ensures 0 <= KernelIndex(g, x, y, z) < Count(g)
  {
    RecipIndexIsValue(g, x, y, z);
    KernelIndexIsValue(g, x, y, z);
    ValueBounds([z, x, y], [g.nZ, g.nX, g.nY]);
    ValueBounds([x, y, z], [g.nX, g.nY, g.nZ]);
  }

  /** The caller's kernel index of the factor setRecip stores at d. */
  function ReorderSource(g: Grid, d: int): int
    requires g.Positive()
  {
    var q := d / g.nZ;
    KernelIndex(g, q % g.nX, q / g.nX, d % g.nZ)
  }

  /** The setRecip slot that receives the caller's kernel entry k. */
  function ReorderTarget(g: Grid, k: int): int
    requires g.Positive()
  {
    var q := k / g.nX;
    RecipIndex(g, k % g.nX, q % g.nY, q / g.nY)
  }

  lemma ReorderSourceAt(g: Grid, x: int, y: int, z: int)
    requires g.Positive() && InVolume(g, x, y, z)
    ensures ReorderSource(g, RecipIndex(g, x, y, z)) == KernelIndex(g, x, y, z)
  {
    var d := RecipIndex(g, x, y, z);
    DivModOf(d, y * g.nX + x, z, g.nZ);
    DivModOf(y * g.nX + x, y, x, g.nX);
  }

  lemma ReorderTargetAt(g: Grid, x: int, y: int, z: int)
    requires g.Positive() && InVolume(g, x, y, z)
    ensures ReorderTarget(g, KernelIndex(g, x, y, z)) == RecipIndex(g, x, y, z)
  {
    var k := KernelIndex(g, x, y, z);
    KernelIndexSplit(g, x, y, z);
    DivModOf(k, y + z * g.nY, x, g.nX);
    DivModOf(y + z * g.nY, z, y, g.nY);
  }

  /** The caller's kernel index read as pencil row y + z*nY and column x. */
  lemma KernelIndexSplit(g: Grid, x: int, y: int, z: int)
    ensures KernelIndex(g, x, y, z) == (y + z * g.nY) * g.nX + x
  {
    assert (y + z * g.nY) * g.nX == y * g.nX + (z * g.nY) * g.nX;
    assert (z * g.nY) * g.nX == z * g.nX * g.nY;
  }

  /** Every slot d of the reordered kernel is RecipIndex of exactly one sample. */
  function RecipCoords(g: Grid, d: int): (t: (int, int, int))
    requires g.Positive() && 0 <= d < Count(g)
    ensures InVolume(g, t.0, t.1, t.2) && RecipIndex(g, t.0, t.1, t.2) == d
  {
    RecipIndexIsValue(g, 0, 0, 0);
    var ds := Digits(d, [g.nZ, g.nX, g.nY]);
    RecipIndexIsValue(g, ds[1], ds[2], ds[0]);
    assert [ds[0], ds[1], ds[2]] == ds;
    (ds[1], ds[2], ds[0])
  }

  /** Every entry k of the caller's kernel is KernelIndex of exactly one sample. */
  function KernelCoords(g: Grid, k: int): (t: (int, int, int))
    requires g.Positive() && 0 <= k < Count(g)
    ensures InVolume(g, t.0, t.1, t.2) && KernelIndex(g, t.0, t.1, t.2) == k
  {
    KernelIndexIsValue(g, 0, 0, 0);
    var ds := Digits(k, [g.nX, g.nY, g.nZ]);
    KernelIndexIsValue(g, ds[0], ds[1], ds[2]);
    assert [ds[0], ds[1], ds[2]] == ds;
    (ds[0], ds[1], ds[2])
  }

  /**
   * The reordering is a permutation of [0, nX*nY*nZ): ReorderSource and
   * ReorderTarget map the range into itself and undo each other.
   */
  lemma ReorderIsPermutation(g: Grid, d: int, k: int)
    requires g.Positive() && 0 <= d < Count(g) && 0 <= k < Count(g)
    ensures 0 <= ReorderSource(g, d) < Count(g) && ReorderTarget(g, ReorderSource(g, d)) == d
    ensures 0 <= ReorderTarget(g, k) < Count(g) && ReorderSource(g, ReorderTarget(g, k)) == k
  {
    var t := RecipCoords(g, d);
    ReorderSourceAt(g, t.0, t.1, t.2);
    ReorderTargetAt(g, t.0, t.1, t.2);
    IndexBounds(g, t.0, t.1, t.2);
    var u := KernelCoords(g, k);
    ReorderTargetAt(g, u.0, u.1, u.2);
    ReorderSourceAt(g, u.0, u.1, u.2);
    IndexBounds(g, u.0, u.1, u.2);
  }

  /** The kernel as setRecip leaves it, given the caller's kernel src. */
  function Reordered(g: Grid, src: seq<real>): (r: seq<real>)
    requires g.Positive() && |src| >= Count(g)
    ensures |r| == Count(g)
  {
    seq(Count(g), d requires 0 <= d < Count(g) =>
      ReorderIsPermutation(g, d, 0);
      src[ReorderSource(g, d)])
  }

  lemma ReorderedIndex(g: Grid, src: seq<real>, d: int)
    requires g.Positive() && |src| >= Count(g) && 0 <= d < Count(g)
    ensures 0 <= ReorderSource(g, d) < Count(g)
    ensures Reordered(g, src)[d] == src[ReorderSource(g, d)]
  {
    ReorderIsPermutation(g, d, 0);
  }

  /** The factor of sample (x, y, z) moves from KernelIndex to RecipIndex. */
  lemma ReorderedAt(g: Grid, src: seq<real>, x: int, y: int, z: int)
    requires g.Positive() && |src| >= Count(g) && InVolume(g, x, y, z)
    ensures 0 <= RecipIndex(g, x, y, z) < Count(g) && 0 <= KernelIndex(g, x, y, z) < Count(g)
    ensures Reordered(g, src)[RecipIndex(g, x, y, z)] == src[KernelIndex(g, x, y, z)]
  {
    IndexBounds(g, x, y, z);
    ReorderSourceAt(g, x, y, z);
    ReorderedIndex(g, src, RecipIndex(g, x, y, z));
  }

  lemma PencilNumberBound(g: Grid, x: int, y: int)
    requires 0 <= x < g.nX && 0 <= y < g.nY
    ensures 0 <= y * g.nX + x < g.nX * g.nY
  {
    MulLeft(g.nX, y, g.nY - 1);
  }

  /**
   * The fused Z pass scales entry z of pencil (x, y), pencil number y*nX + x,
   * by the caller's factor of sample (x, y, z).
   */
  lemma KernelOfPencil(g: Grid, src: seq<real>, x: int, y: int, z: int)
    requires g.Positive() && |src| >= Count(g) && InVolume(g, x, y, z)
    ensures 0 <= y * g.nX + x < g.nX * g.nY && 0 <= KernelIndex(g, x, y, z) < Count(g)
    ensures KernelAt(g, Reordered(g, src), y * g.nX + x)[z] == src[KernelIndex(g, x, y, z)]
  {
    PencilNumberBound(g, x, y);
    ReorderedAt(g, src, x, y, z);
    KernelAtIndex(g, Reordered(g, src), y * g.nX + x, z);
  }
}
