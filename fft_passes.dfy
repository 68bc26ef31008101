/**
 * The passes of Complex3DParallel as lists of 1-D jobs over the input array.
 *
 * The XY pass transforms every X line and then every Y line of each plane z;
 * the Z pass transforms every pencil (x, y) along z; the fused Z pass of the
 * convolution transforms a pencil, scales it by the reordered reciprocal-space
 * kernel and transforms it back.  The lemmas say that every line is in
 * bounds and free of collisions, which addresses each chunk of a pass touches,
 * and that chunks over disjoint index ranges commute.
 */
module FftPasses {
  import opened MixedRadix
  import opened FftLayout
  import opened FftLines

  // Lines along one axis of the volume.

  datatype Axis = AxisX | AxisY | AxisZ

  /** Address of entry k, part c, of the line along axis through the other two coordinates o1 < o2. */
  function At(g: Grid, axis: Axis, o1: int, o2: int, k: int, c: int): int
  {
    match axis
    case AxisX => Addr(g, k, o1, o2, c)
    case AxisY => Addr(g, o1, k, o2, c)
    case AxisZ => Addr(g, o1, o2, k, c)
  }

  function Extent(g: Grid, axis: Axis): int
  {
    match axis
    case AxisX => g.nX
    case AxisY => g.nY
    case AxisZ => g.nZ
  }

  predicate OffsetsIn(g: Grid, axis: Axis, o1: int, o2: int)
  {
    match axis
    case AxisX => 0 <= o1 < g.nY && 0 <= o2 < g.nZ
    case AxisY => 0 <= o1 < g.nX && 0 <= o2 < g.nZ
    case AxisZ => 0 <= o1 < g.nX && 0 <= o2 < g.nY
  }

  /** The two coordinates of a sample that a line along axis keeps fixed. */
  function Others(axis: Axis, t: (int, int, int, int)): (int, int)
  {
    match axis
    case AxisX => (t.1, t.2)
    case AxisY => (t.0, t.2)
    case AxisZ => (t.0, t.1)
  }

  /** L is the line along axis through (o1, o2): its entry k is sample k of that line. */
  ghost predicate Along(g: Grid, L: Line, axis: Axis, o1: int, o2: int)
  {
    L.n == Extent(g, axis) &&
    forall k :: 0 <= k < L.n ==> L.Re(k) == At(g, axis, o1, o2, k, 0) && L.Im(k) == At(g, axis, o1, o2, k, 1)
  }

  lemma AtInGrid(g: Grid, axis: Axis, o1: int, o2: int, k: int, c: int)
    requires OffsetsIn(g, axis, o1, o2) && 0 <= k < Extent(g, axis) && 0 <= c < 2
    ensures 0 <= At(g, axis, o1, o2, k, c) < g.Size()
  {
    match axis
    case AxisX => AddrInBounds(g, k, o1, o2, c);
    case AxisY => AddrInBounds(g, o1, k, o2, c);
    case AxisZ => AddrInBounds(g, o1, o2, k, c);
  }

  lemma AtInjective(g: Grid, axis: Axis, o1: int, o2: int, k: int, c: int, k': int, c': int)
    requires OffsetsIn(g, axis, o1, o2) && 0 <= k < Extent(g, axis) && 0 <= c < 2
    requires 0 <= k' < Extent(g, axis) && 0 <= c' < 2
    requires At(g, axis, o1, o2, k, c) == At(g, axis, o1, o2, k', c')
    ensures k == k' && c == c'
  {
    match axis
    case AxisX => AddrInjective(g, k, o1, o2, c, k', o1, o2, c');
    case AxisY => AddrInjective(g, o1, k, o2, c, o1, k', o2, c');
    case AxisZ => AddrInjective(g, o1, o2, k, c, o1, o2, k', c');
  }

  /** Every line along an axis of the volume lies in the input array and uses 2n distinct slots. */
  lemma AlongOk(g: Grid, L: Line, axis: Axis, o1: int, o2: int)
    requires Along(g, L, axis, o1, o2) && OffsetsIn(g, axis, o1, o2)
    ensures L.Ok(g.Size())
  {
    forall k | 0 <= k < L.n
      ensures 0 <= L.Re(k) < g.Size() && 0 <= L.Im(k) < g.Size()
    {
      AtInGrid(g, axis, o1, o2, k, 0);
      AtInGrid(g, axis, o1, o2, k, 1);
    }
    forall k, k' | 0 <= k < L.n && 0 <= k' < L.n
      ensures L.Re(k) != L.Im(k') && (k != k' ==> L.Re(k) != L.Re(k') && L.Im(k) != L.Im(k'))
    {
      if L.Re(k) == L.Im(k') {
        AtInjective(g, axis, o1, o2, k, 0, k', 1);
      }
      if k != k' && L.Re(k) == L.Re(k') {
        AtInjective(g, axis, o1, o2, k, 0, k', 0);
      }
      if k != k' && L.Im(k) == L.Im(k') {
        AtInjective(g, axis, o1, o2, k, 1, k', 1);
      }
    }
  }

  /** A slot written by the line along axis through (o1, o2) belongs to a sample with those coordinates. */
  lemma AlongHits(g: Grid, L: Line, axis: Axis, o1: int, o2: int, a: int)
    requires g.Positive() && Along(g, L, axis, o1, o2) && OffsetsIn(g, axis, o1, o2)
    requires L.Hits(a)
    ensures 0 <= a < g.Size() && Others(axis, Coords(g, a)) == (o1, o2)
  {
    var k :| 0 <= k < L.n && (a == L.Re(k) || a == L.Im(k));
    var c := if a == L.Re(k) then 0 else 1;
    assert a == At(g, axis, o1, o2, k, c);
    AtInGrid(g, axis, o1, o2, k, c);
    var t := Coords(g, a);
    match axis
    case AxisX => AddrInjective(g, t.0, t.1, t.2, t.3, k, o1, o2, c);
    case AxisY => AddrInjective(g, t.0, t.1, t.2, t.3, o1, k, o2, c);
    case AxisZ => AddrInjective(g, t.0, t.1, t.2, t.3, o1, o2, k, c);
  }

  // The lines of the passes, with the offsets the loops compute.

  /** The X line of row y in plane z: offset z*nextZ + y*nextY, stride nextX. */
  function XLine(g: Grid, z: int, y: int): Line
    requires g.Positive()
  {
    var st := g.St();
    Line(z * st.nextZ + y * st.nextY, st.nextX, st.im, g.nX)
  }

  /** The Y line of column x in plane z: offset z*nextZ + x*nextX, stride nextY. */
  function YLine(g: Grid, z: int, x: int): Line
    requires g.Positive()
  {
    var st := g.St();
    Line(z * st.nextZ + x * st.nextX, st.nextY, st.im, g.nY)
  }

  /** Base address of pencil p, which holds the samples (p % nX, p / nX, z) for every z. */
  function PencilOf(g: Grid, p: int): int
    requires g.Positive()
  {
    Addr(g, p % g.nX, p / g.nX, 0, 0)
  }

  /** Pencil p along z: stride nextZ. */
  function PencilLine(g: Grid, p: int): Line
    requires g.Positive()
  {
    var st := g.St();
    Line(PencilOf(g, p), st.nextZ, st.im, g.nZ)
  }

  /** The Z workspace as a line: entry i at i*internalNextZ, its imaginary part internalImZ further. */
  function WorkLine(g: Grid): Line
    requires g.Positive()
  {
    var st := g.St();
    Line(0, st.internalNextZ, st.internalImZ, g.nZ)
  }

  lemma XLineAlong(g: Grid, z: int, y: int)
    requires g.Positive()
    ensures Along(g, XLine(g, z, y), AxisX, y, z)
  {
  }

  lemma YLineAlong(g: Grid, z: int, x: int)
    requires g.Positive()
    ensures Along(g, YLine(g, z, x), AxisY, x, z)
  {
  }

  /** Pencil p of the nX*nY pencils is the Z line through (p % nX, p / nX). */
  lemma PencilAlong(g: Grid, p: int)
    requires g.Positive() && 0 <= p < g.nX * g.nY
    ensures Along(g, PencilLine(g, p), AxisZ, p % g.nX, p / g.nX)
    ensures OffsetsIn(g, AxisZ, p % g.nX, p / g.nX)
  {
    QuotientBound(p, g.nX, g.nY);
  }

  /** The 2*nZ slots of the workspace are all distinct and all inside it, for every layout. */
  lemma WorkLineOk(g: Grid)
    requires g.Positive()
    ensures WorkLine(g).Ok(2 * g.nZ)
  {
    var L := WorkLine(g);
    forall k | 0 <= k < L.n
      ensures 0 <= L.Re(k) < 2 * g.nZ && 0 <= L.Im(k) < 2 * g.nZ
      ensures L.Re(k) == WorkAddr(g, k, 0) && L.Im(k) == WorkAddr(g, k, 1)
    {
      WorkAddrInBounds(g, k, 0);
      WorkAddrInBounds(g, k, 1);
    }
    forall k, k' | 0 <= k < L.n && 0 <= k' < L.n
      ensures L.Re(k) != L.Im(k') && (k != k' ==> L.Re(k) != L.Re(k') && L.Im(k) != L.Im(k'))
    {
      if L.Re(k) == L.Im(k') {
        WorkAddrInjective(g, k, 0, k', 1);
      }
      if k != k' && L.Re(k) == L.Re(k') {
        WorkAddrInjective(g, k, 0, k', 0);
      }
      if k != k' && L.Im(k) == L.Im(k') {
        WorkAddrInjective(g, k, 1, k', 1);
      }
    }
  }

  // Jobs confined to a range of planes or of pencils.

  /** Pencil number of a sample: x + nX*y. */
  function PencilIndex(g: Grid, t: (int, int, int, int)): int
  {
    t.0 + g.nX * t.1
  }

  /** Every slot of line L is a sample whose z lies in [lo, hi). */
  ghost predicate LineInPlanes(g: Grid, L: Line, lo: int, hi: int)
    requires g.Positive()
  {
    forall a :: 0 <= a < g.Size() && L.Hits(a) ==> lo <= Coords(g, a).2 < hi
  }

  /** Every slot of line L is a sample whose pencil number lies in [lo, hi). */
  ghost predicate LineInPencils(g: Grid, L: Line, lo: int, hi: int)
    requires g.Positive()
  {
    forall a :: 0 <= a < g.Size() && L.Hits(a) ==> lo <= PencilIndex(g, Coords(g, a)) < hi
  }

  /** Every job is well formed and writes only samples whose z lies in [lo, hi). */
  ghost predicate InPlanes(g: Grid, js: seq<Job>, lo: int, hi: int)
  {
    g.Positive() && JobsOk(js, g.Size()) &&
    forall i :: 0 <= i < |js| ==> LineInPlanes(g, js[i].line, lo, hi)
  }

  /** Every job is well formed and writes only samples whose pencil number lies in [lo, hi). */
  ghost predicate InPencils(g: Grid, js: seq<Job>, lo: int, hi: int)
  {
    g.Positive() && JobsOk(js, g.Size()) &&
    forall i :: 0 <= i < |js| ==> LineInPencils(g, js[i].line, lo, hi)
  }

  lemma HitsAnyAt(js: seq<Job>, a: int, len: int) returns (i: int)
    requires JobsOk(js, len) && HitsAny(js, a)
    ensures 0 <= a < len && 0 <= i < |js| && js[i].line.Hits(a)
  {
    i :| 0 <= i < |js| && js[i].line.Hits(a);
    var L := js[i].line;
    var k :| 0 <= k < L.n && (a == L.Re(k) || a == L.Im(k));
    assert JobOk(js[i], len);
  }

  /** Jobs confined to disjoint ranges of planes never write the same slot. */
  lemma InPlanesDisjoint(g: Grid, a: seq<Job>, lo1: int, hi1: int, b: seq<Job>, lo2: int, hi2: int)
    requires InPlanes(g, a, lo1, hi1) && InPlanes(g, b, lo2, hi2) && hi1 <= lo2
    ensures Disjoint(a, b)
  {
    forall j ensures !(HitsAny(a, j) && HitsAny(b, j)) {
      if HitsAny(a, j) && HitsAny(b, j) {
        var i := HitsAnyAt(a, j, g.Size());
        var i' := HitsAnyAt(b, j, g.Size());
      }
    }
  }

  /** Jobs confined to disjoint ranges of pencils never write the same slot. */
  lemma InPencilsDisjoint(g: Grid, a: seq<Job>, lo1: int, hi1: int, b: seq<Job>, lo2: int, hi2: int)
    requires InPencils(g, a, lo1, hi1) && InPencils(g, b, lo2, hi2) && hi1 <= lo2
    ensures Disjoint(a, b)
  {
    forall j ensures !(HitsAny(a, j) && HitsAny(b, j)) {
      if HitsAny(a, j) && HitsAny(b, j) {
        var i := HitsAnyAt(a, j, g.Size());
        var i' := HitsAnyAt(b, j, g.Size());
      }
    }
  }

  lemma InPlanesAppend(g: Grid, a: seq<Job>, b: seq<Job>, lo: int, hi: int)
    requires InPlanes(g, a, lo, hi) && InPlanes(g, b, lo, hi)
    ensures InPlanes(g, a + b, lo, hi)
  {
    forall i | 0 <= i < |a + b|
      ensures JobOk((a + b)[i], g.Size()) && LineInPlanes(g, (a + b)[i].line, lo, hi)
    {
      if i < |a| {
        assert (a + b)[i] == a[i];
      } else {
        assert (a + b)[i] == b[i - |a|];
      }
    }
  }

  lemma InPlanesWiden(g: Grid, js: seq<Job>, lo: int, hi: int, lo': int, hi': int)
    requires InPlanes(g, js, lo, hi) && lo' <= lo && hi <= hi'
    ensures InPlanes(g, js, lo', hi')
  {
    forall i | 0 <= i < |js| ensures LineInPlanes(g, js[i].line, lo', hi') {
      assert LineInPlanes(g, js[i].line, lo, hi);
    }
  }

  // The XY pass.

  /** The X lines of rows 0 .. m-1 of plane z, in order. */
  function XRow(g: Grid, z: int, m: nat, kind: Kind): (js: seq<Job>)
    requires g.Positive()
    ensures |js| == m
  {
    seq(m, y => Job(XLine(g, z, y), kind))
  }

  /** The Y lines of columns 0 .. m-1 of plane z, in order. */
  function YCol(g: Grid, z: int, m: nat, kind: Kind): (js: seq<Job>)
    requires g.Positive()
    ensures |js| == m
  {
    seq(m, x => Job(YLine(g, z, x), kind))
  }

  /** One plane of the forward XY pass (X lines then Y lines) or of the inverse one (Y lines then X lines). */
  function Plane(g: Grid, z: int, inverse: bool): seq<Job>
    requires g.Positive()
  {
    if inverse then YCol(g, z, g.nX, Inverse) + XRow(g, z, g.nY, Inverse)
    else XRow(g, z, g.nY, Forward) + YCol(g, z, g.nX, Forward)
  }

  /** The XY pass over the planes lo .. hi-1, in order. */
  function XYPass(g: Grid, lo: int, hi: int, inverse: bool): seq<Job>
    requires g.Positive()
    decreases hi - lo
  {
    if hi <= lo then [] else XYPass(g, lo, hi - 1, inverse) + Plane(g, hi - 1, inverse)
  }

  lemma XRowInPlanes(g: Grid, z: int, m: nat, kind: Kind)
    requires g.Positive() && 0 <= z < g.nZ && m <= g.nY && !kind.Convolve?
    ensures InPlanes(g, XRow(g, z, m, kind), z, z + 1)
  {
    var js := XRow(g, z, m, kind);
    forall i | 0 <= i < m
      ensures JobOk(js[i], g.Size())
      ensures LineInPlanes(g, js[i].line, z, z + 1)
    {
      XLineAlong(g, z, i);
      AlongOk(g, js[i].line, AxisX, i, z);
      forall a | 0 <= a < g.Size() && js[i].line.Hits(a) ensures Coords(g, a).2 == z {
        AlongHits(g, js[i].line, AxisX, i, z, a);
      }
    }
  }

  lemma YColInPlanes(g: Grid, z: int, m: nat, kind: Kind)
    requires g.Positive() && 0 <= z < g.nZ && m <= g.nX && !kind.Convolve?
    ensures InPlanes(g, YCol(g, z, m, kind), z, z + 1)
  {
    var js := YCol(g, z, m, kind);
    forall i | 0 <= i < m
      ensures JobOk(js[i], g.Size())
      ensures LineInPlanes(g, js[i].line, z, z + 1)
    {
      YLineAlong(g, z, i);
      AlongOk(g, js[i].line, AxisY, i, z);
      forall a | 0 <= a < g.Size() && js[i].line.Hits(a) ensures Coords(g, a).2 == z {
        AlongHits(g, js[i].line, AxisY, i, z, a);
      }
    }
  }

  lemma XRowOk(g: Grid, z: int, m: nat, kind: Kind)
    requires g.Positive() && 0 <= z < g.nZ && m <= g.nY && !kind.Convolve?
    ensures JobsOk(XRow(g, z, m, kind), g.Size())
  {
    XRowInPlanes(g, z, m, kind);
  }

  lemma YColOk(g: Grid, z: int, m: nat, kind: Kind)
    requires g.Positive() && 0 <= z < g.nZ && m <= g.nX && !kind.Convolve?
    ensures JobsOk(YCol(g, z, m, kind), g.Size())
  {
    YColInPlanes(g, z, m, kind);
  }

  lemma PlaneInPlanes(g: Grid, z: int, inverse: bool)
    requires g.Positive() && 0 <= z < g.nZ
    ensures InPlanes(g, Plane(g, z, inverse), z, z + 1)
  {
    var k := if inverse then Inverse else Forward;
    XRowInPlanes(g, z, g.nY, k);
    YColInPlanes(g, z, g.nX, k);
    if inverse {
      InPlanesAppend(g, YCol(g, z, g.nX, k), XRow(g, z, g.nY, k), z, z + 1);
    } else {
      InPlanesAppend(g, XRow(g, z, g.nY, k), YCol(g, z, g.nX, k), z, z + 1);
    }
  }

  /** The XY pass over planes lo .. hi-1 writes only samples of those planes, all in bounds. */
  lemma {:induction false} XYPassInPlanes(g: Grid, lo: int, hi: int, inverse: bool)
    requires g.Positive() && 0 <= lo <= hi <= g.nZ
    ensures InPlanes(g, XYPass(g, lo, hi, inverse), lo, hi)
    decreases hi - lo
  {
    if lo < hi {
      XYPassInPlanes(g, lo, hi - 1, inverse);
      InPlanesWiden(g, XYPass(g, lo, hi - 1, inverse), lo, hi - 1, lo, hi);
      PlaneInPlanes(g, hi - 1, inverse);
      InPlanesWiden(g, Plane(g, hi - 1, inverse), hi - 1, hi, lo, hi);
      InPlanesAppend(g, XYPass(g, lo, hi - 1, inverse), Plane(g, hi - 1, inverse), lo, hi);
    }
  }

  /** The planes lo .. hi-1 are the chunk lo .. mid-1 followed by the chunk mid .. hi-1. */
  lemma {:induction false} XYPassSplit(g: Grid, lo: int, mid: int, hi: int, inverse: bool)
    requires g.Positive() && lo <= mid <= hi
    ensures XYPass(g, lo, hi, inverse) == XYPass(g, lo, mid, inverse) + XYPass(g, mid, hi, inverse)
    decreases hi - mid
  {
    if mid < hi {
      XYPassSplit(g, lo, mid, hi - 1, inverse);
    }
  }

  /**
   * Two workers given the disjoint plane ranges [lo, mid) and [mid, hi) may run
   * their chunks in either order: both give the XY pass over [lo, hi).
   */
  lemma XYChunksCommute(g: Grid, e: Engine, s: seq<real>, lo: int, mid: int, hi: int, inverse: bool)
    requires g.Positive() && |s| == g.Size() && 0 <= lo <= mid <= hi <= g.nZ
    ensures JobsOk(XYPass(g, lo, mid, inverse), |s|) && JobsOk(XYPass(g, mid, hi, inverse), |s|)
    ensures JobsOk(XYPass(g, lo, hi, inverse), |s|)
    ensures RunJobs(e, RunJobs(e, s, XYPass(g, lo, mid, inverse)), XYPass(g, mid, hi, inverse))
         == RunJobs(e, s, XYPass(g, lo, hi, inverse))
    ensures RunJobs(e, RunJobs(e, s, XYPass(g, mid, hi, inverse)), XYPass(g, lo, mid, inverse))
         == RunJobs(e, s, XYPass(g, lo, hi, inverse))
  {
    var a, b := XYPass(g, lo, mid, inverse), XYPass(g, mid, hi, inverse);
    XYPassInPlanes(g, lo, mid, inverse);
    XYPassInPlanes(g, mid, hi, inverse);
    XYPassSplit(g, lo, mid, hi, inverse);
    InPlanesDisjoint(g, a, lo, mid, b, mid, hi);
    RunDisjointPasses(e, s, a, b);
  }

  // The Z passes.

  /** The pencils lo .. hi-1 of a Z pass, in order. */
  function ZPass(g: Grid, lo: int, hi: int, kind: Kind): (js: seq<Job>)
    requires g.Positive() && lo <= hi
    ensures |js| == hi - lo
  {
    seq(hi - lo, i => Job(PencilLine(g, lo + i), kind))
  }

  /** The nZ kernel factors of pencil p lie inside the kernel. */
  lemma KernelSpan(g: Grid, p: int)
    requires g.Positive() && 0 <= p < g.nX * g.nY
    ensures 0 <= p * g.nZ && p * g.nZ + g.nZ <= g.nX * g.nY * g.nZ
  {
    MulLeft(g.nZ, p + 1, g.nX * g.nY);
    assert (p + 1) * g.nZ == p * g.nZ + g.nZ;
  }

  /** The nZ entries of the reordered kernel that scale pencil p. */
  function KernelAt(g: Grid, recip: seq<real>, p: int): (r: seq<real>)
    requires g.Positive() && |recip| == g.nX * g.nY * g.nZ && 0 <= p < g.nX * g.nY
    ensures |r| == g.nZ
  {
    KernelSpan(g, p);
    recip[p * g.nZ .. p * g.nZ + g.nZ]
  }

  lemma KernelAtIndex(g: Grid, recip: seq<real>, p: int, z: int)
    requires g.Positive() && |recip| == g.nX * g.nY * g.nZ && 0 <= p < g.nX * g.nY && 0 <= z < g.nZ
    ensures 0 <= p * g.nZ + z < |recip|
    ensures KernelAt(g, recip, p)[z] == recip[p * g.nZ + z]
  {
    MulLeft(g.nZ, p + 1, g.nX * g.nY);
  }

  /** Pencil p transformed, scaled by its kernel entries and transformed back. */
  function ZizJob(g: Grid, recip: seq<real>, p: int): (j: Job)
    requires g.Positive() && |recip| == g.nX * g.nY * g.nZ && 0 <= p < g.nX * g.nY
    ensures j.kind.Convolve? && |j.kind.kernel| == j.line.n
  {
    Job(PencilLine(g, p), Convolve(KernelAt(g, recip, p)))
  }

  /** The pencils lo .. hi-1 of the fused transform, scale and inverse transform, in order. */
  function ZizPass(g: Grid, recip: seq<real>, lo: int, hi: int): (js: seq<Job>)
    requires g.Positive() && |recip| == g.nX * g.nY * g.nZ && 0 <= lo <= hi <= g.nX * g.nY
    ensures |js| == hi - lo
  {
    seq(hi - lo, i requires 0 <= i < hi - lo => ZizJob(g, recip, lo + i))
  }

  lemma PencilHits(g: Grid, p: int, a: int)
    requires g.Positive() && 0 <= p < g.nX * g.nY && PencilLine(g, p).Hits(a)
    ensures 0 <= a < g.Size() && PencilIndex(g, Coords(g, a)) == p
  {
    PencilAlong(g, p);
    AlongHits(g, PencilLine(g, p), AxisZ, p % g.nX, p / g.nX, a);
    var t := Coords(g, a);
    assert t.0 == p % g.nX && t.1 == p / g.nX;
    DivModSum(p, g.nX);
  }

  lemma DivModSum(p: int, r: int)
    requires r > 0
    ensures p % r + r * (p / r) == p
  {
  }

  lemma PencilOk(g: Grid, p: int)
    requires g.Positive() && 0 <= p < g.nX * g.nY
    ensures PencilLine(g, p).Ok(g.Size())
  {
    PencilAlong(g, p);
    AlongOk(g, PencilLine(g, p), AxisZ, p % g.nX, p / g.nX);
  }

  /** A Z pass over pencils [lo, hi) writes only samples of those pencils, all in bounds. */
  lemma ZPassInPencils(g: Grid, lo: int, hi: int, kind: Kind)
    requires g.Positive() && 0 <= lo <= hi <= g.nX * g.nY && !kind.Convolve?
    ensures InPencils(g, ZPass(g, lo, hi, kind), lo, hi)
  {
    var js := ZPass(g, lo, hi, kind);
    forall i | 0 <= i < hi - lo
      ensures JobOk(js[i], g.Size())
      ensures LineInPencils(g, js[i].line, lo, hi)
    {
      PencilOk(g, lo + i);
      forall a | 0 <= a < g.Size() && js[i].line.Hits(a) ensures PencilIndex(g, Coords(g, a)) == lo + i {
        PencilHits(g, lo + i, a);
      }
    }
  }

  /** The fused pass over pencils [lo, hi) writes only samples of those pencils, all in bounds. */
  lemma ZizPassInPencils(g: Grid, recip: seq<real>, lo: int, hi: int)
    requires g.Positive() && |recip| == g.nX * g.nY * g.nZ && 0 <= lo <= hi <= g.nX * g.nY
    ensures InPencils(g, ZizPass(g, recip, lo, hi), lo, hi)
  {
    var js := ZizPass(g, recip, lo, hi);
    forall i | 0 <= i < hi - lo
      ensures JobOk(js[i], g.Size())
      ensures LineInPencils(g, js[i].line, lo, hi)
    {
      assert js[i] == ZizJob(g, recip, lo + i);
      PencilOk(g, lo + i);
      forall a | 0 <= a < g.Size() && js[i].line.Hits(a) ensures PencilIndex(g, Coords(g, a)) == lo + i {
        PencilHits(g, lo + i, a);
      }
    }
  }

  /** Every pencil of the volume is the p-th job of the full Z pass: each is visited exactly once. */
  lemma ZPassVisitsEachPencilOnce(g: Grid, kind: Kind, p: int)
    requires g.Positive() && 0 <= p < g.nX * g.nY
    ensures |ZPass(g, 0, g.nX * g.nY, kind)| == g.nX * g.nY
    ensures ZPass(g, 0, g.nX * g.nY, kind)[p].line == PencilLine(g, p)
    ensures forall q :: 0 <= q < g.nX * g.nY && q != p ==> ZPass(g, 0, g.nX * g.nY, kind)[q].line.off != PencilLine(g, p).off
  {
    forall q | 0 <= q < g.nX * g.nY && q != p
      ensures PencilLine(g, q).off != PencilLine(g, p).off
    {
      PencilAlong(g, p);
      PencilAlong(g, q);
      if PencilLine(g, q).off == PencilLine(g, p).off {
        AddrInjective(g, q % g.nX, q / g.nX, 0, 0, p % g.nX, p / g.nX, 0, 0);
        DivModSum(p, g.nX);
        DivModSum(q, g.nX);
      }
    }
  }

  /** Pencils lo .. hi-1 are the chunk lo .. mid-1 followed by the chunk mid .. hi-1. */
  lemma ZPassSplit(g: Grid, lo: int, mid: int, hi: int, kind: Kind)
    requires g.Positive() && lo <= mid <= hi
    ensures ZPass(g, lo, hi, kind) == ZPass(g, lo, mid, kind) + ZPass(g, mid, hi, kind)
  {
  }

  lemma ZizPassSplit(g: Grid, recip: seq<real>, lo: int, mid: int, hi: int)
    requires g.Positive() && |recip| == g.nX * g.nY * g.nZ && 0 <= lo <= mid <= hi <= g.nX * g.nY
    ensures ZizPass(g, recip, lo, hi) == ZizPass(g, recip, lo, mid) + ZizPass(g, recip, mid, hi)
  {
  }

  /**
   * Two workers given the disjoint pencil ranges [lo, mid) and [mid, hi) may
   * run their chunks of a Z pass in either order: both give the pass over [lo, hi).
   */
  lemma ZChunksCommute(g: Grid, e: Engine, s: seq<real>, lo: int, mid: int, hi: int, kind: Kind)
    requires g.Positive() && |s| == g.Size() && 0 <= lo <= mid <= hi <= g.nX * g.nY && !kind.Convolve?
    ensures JobsOk(ZPass(g, lo, mid, kind), |s|) && JobsOk(ZPass(g, mid, hi, kind), |s|)
    ensures JobsOk(ZPass(g, lo, hi, kind), |s|)
    ensures RunJobs(e, RunJobs(e, s, ZPass(g, lo, mid, kind)), ZPass(g, mid, hi, kind))
         == RunJobs(e, s, ZPass(g, lo, hi, kind))
    ensures RunJobs(e, RunJobs(e, s, ZPass(g, mid, hi, kind)), ZPass(g, lo, mid, kind))
         == RunJobs(e, s, ZPass(g, lo, hi, kind))
  {
    var a, b := ZPass(g, lo, mid, kind), ZPass(g, mid, hi, kind);
    ZPassInPencils(g, lo, mid, kind);
    ZPassInPencils(g, mid, hi, kind);
    ZPassSplit(g, lo, mid, hi, kind);
    InPencilsDisjoint(g, a, lo, mid, b, mid, hi);
    RunDisjointPasses(e, s, a, b);
  }

  /** The same for chunks of the fused pass of the convolution. */
  lemma ZizChunksCommute(g: Grid, e: Engine, s: seq<real>, recip: seq<real>, lo: int, mid: int, hi: int)
    requires g.Positive() && |s| == g.Size() && |recip| == g.nX * g.nY * g.nZ
    requires 0 <= lo <= mid <= hi <= g.nX * g.nY
    ensures JobsOk(ZizPass(g, recip, lo, mid), |s|) && JobsOk(ZizPass(g, recip, mid, hi), |s|)
    ensures JobsOk(ZizPass(g, recip, lo, hi), |s|)
    ensures RunJobs(e, RunJobs(e, s, ZizPass(g, recip, lo, mid)), ZizPass(g, recip, mid, hi))
         == RunJobs(e, s, ZizPass(g, recip, lo, hi))
    ensures RunJobs(e, RunJobs(e, s, ZizPass(g, recip, mid, hi)), ZizPass(g, recip, lo, mid))
         == RunJobs(e, s, ZizPass(g, recip, lo, hi))
  {
    var a, b := ZizPass(g, recip, lo, mid), ZizPass(g, recip, mid, hi);
    ZizPassInPencils(g, recip, lo, mid);
    ZizPassInPencils(g, recip, mid, hi);
    ZizPassSplit(g, recip, lo, mid, hi);
    InPencilsDisjoint(g, a, lo, mid, b, mid, hi);
    RunDisjointPasses(e, s, a, b);
  }

  /** A pass of one job is that job. */
  lemma RunJobsOne(e: Engine, s: seq<real>, j: Job)
    requires JobOk(j, |s|)
    ensures JobsOk([j], |s|) && RunJobs(e, s, [j]) == RunJob(e, s, j)
  {
    RunJobsSnoc(e, s, [], j);
  }

  /** The job of pencil p alone writes only that pencil. */
  lemma PencilJobInPencils(g: Grid, p: int, kind: Kind)
    requires g.Positive() && 0 <= p < g.nX * g.nY && (kind.Convolve? ==> |kind.kernel| == g.nZ)
    ensures InPencils(g, [Job(PencilLine(g, p), kind)], p, p + 1)
  {
    PencilOk(g, p);
    forall a | 0 <= a < g.Size() && PencilLine(g, p).Hits(a) ensures PencilIndex(g, Coords(g, a)) == p {
      PencilHits(g, p, a);
    }
  }

  /**
   * Over any range of pencils the fused pass of the convolution equals the
   * forward Z pass over those pencils, then each pencil scaled by its kernel
   * entries, then the inverse Z pass: FFTZIZLoop computes what FFTZLoop,
   * a scaling pass and IFFTZLoop would compute one after the other.
   */
  lemma {:induction false} ZizPassSteps(g: Grid, e: Engine, s: seq<real>, recip: seq<real>, lo: int, hi: int)
    requires g.Positive() && |s| == g.Size() && |recip| == g.nX * g.nY * g.nZ
    requires 0 <= lo <= hi <= g.nX * g.nY
    ensures JobsOk(ZPass(g, lo, hi, Forward), |s|) && JobsOk(ZPass(g, lo, hi, Inverse), |s|)
    ensures JobsOk(ZizPass(g, recip, lo, hi), |s|)
    ensures RunJobs(e, s, ZizPass(g, recip, lo, hi))
         == RunJobs(e, RunJobs(Scaler(), RunJobs(e, s, ZPass(g, lo, hi, Forward)), ZizPass(g, recip, lo, hi)),
                    ZPass(g, lo, hi, Inverse))
    decreases hi - lo
  {
    ZPassInPencils(g, lo, hi, Forward);
    ZPassInPencils(g, lo, hi, Inverse);
    ZizPassInPencils(g, recip, lo, hi);
    if lo < hi {
      var h := hi - 1;
      ZizPassSteps(g, e, s, recip, lo, h);
      var F, S, I := ZPass(g, lo, h, Forward), ZizPass(g, recip, lo, h), ZPass(g, lo, h, Inverse);
      var P := PencilLine(g, h);
      var f, c, i := Job(P, Forward), ZizJob(g, recip, h), Job(P, Inverse);
      ZPassSnoc(g, lo, h, Forward);
      ZPassSnoc(g, lo, h, Inverse);
      ZizPassSnoc(g, recip, lo, h);
      ZPassInPencils(g, lo, h, Forward);
      ZPassInPencils(g, lo, h, Inverse);
      ZizPassInPencils(g, recip, lo, h);
      PencilJobInPencils(g, h, Forward);
      PencilJobInPencils(g, h, Inverse);
      PencilJobInPencils(g, h, c.kind);
      InPencilsDisjoint(g, S, lo, h, [f], h, h + 1);
      InPencilsDisjoint(g, I, lo, h, [f], h, h + 1);
      InPencilsDisjoint(g, I, lo, h, [c], h, h + 1);
      // The left side: the fused job of pencil h after the fused pass over lo .. h-1.
      var A := RunJobs(e, s, F);
      var B := RunJobs(Scaler(), A, S);
      var R := RunJobs(e, B, I);
      RunJobsSnoc(e, s, S, c);
      ConvolveSteps(e, R, P, c.kind.kernel);
      // The right side: move f before S and I, and c before I.
      RunJobsSnoc(e, s, F, f);
      RunJobsOne(e, A, f);
      RunJobsCommute(Scaler(), e, A, S, [f]);
      RunJobsOne(e, B, f);
      var Y := RunJob(e, B, f);
      RunJobsSnoc(Scaler(), RunJob(e, A, f), S, c);
      var C := RunJob(Scaler(), Y, c);
      RunJobsSnoc(e, C, I, i);
      RunJobsOne(Scaler(), Y, c);
      RunJobsCommute(e, Scaler(), Y, I, [c]);
      RunJobsCommute(e, e, B, I, [f]);
      RunJobsOne(e, R, f);
      RunJobsOne(Scaler(), RunJob(e, R, f), c);
    }
  }

  // Steps of the loops: each pass grows by one job at its end.

  lemma XRowSnoc(g: Grid, z: int, m: nat, kind: Kind)
    requires g.Positive()
    ensures XRow(g, z, m + 1, kind) == XRow(g, z, m, kind) + [Job(XLine(g, z, m), kind)]
  {
  }

  lemma YColSnoc(g: Grid, z: int, m: nat, kind: Kind)
    requires g.Positive()
    ensures YCol(g, z, m + 1, kind) == YCol(g, z, m, kind) + [Job(YLine(g, z, m), kind)]
  {
  }

  lemma XYPassSnoc(g: Grid, lo: int, hi: int, inverse: bool)
    requires g.Positive() && lo <= hi
    ensures XYPass(g, lo, hi + 1, inverse) == XYPass(g, lo, hi, inverse) + Plane(g, hi, inverse)
  {
  }

  lemma ZPassSnoc(g: Grid, lo: int, hi: int, kind: Kind)
    requires g.Positive() && lo <= hi
    ensures ZPass(g, lo, hi + 1, kind) == ZPass(g, lo, hi, kind) + [Job(PencilLine(g, hi), kind)]
  {
  }

  lemma ZizPassSnoc(g: Grid, recip: seq<real>, lo: int, hi: int)
    requires g.Positive() && |recip| == g.nX * g.nY * g.nZ && 0 <= lo <= hi < g.nX * g.nY
    ensures ZizPass(g, recip, lo, hi + 1) == ZizPass(g, recip, lo, hi) + [ZizJob(g, recip, hi)]
  {
  }

  // The fixed phase orders of fft, ifft and convolution.

  /** fft: the XY pass over every plane, then the Z pass over every pencil. */
  function FftPlan(g: Grid): seq<Job>
    requires g.Positive()
  {
    XYPass(g, 0, g.nZ, false) + ZPass(g, 0, g.nX * g.nY, Forward)
  }

  /** ifft: the inverse Z pass over every pencil, then the inverse XY pass over every plane. */
  function IfftPlan(g: Grid): seq<Job>
    requires g.Positive()
  {
    ZPass(g, 0, g.nX * g.nY, Inverse) + XYPass(g, 0, g.nZ, true)
  }

  /** convolution: the XY pass, the fused Z pass, then the inverse XY pass. */
  function ConvolutionPlan(g: Grid, recip: seq<real>): seq<Job>
    requires g.Positive() && |recip| == g.nX * g.nY * g.nZ
  {
    XYPass(g, 0, g.nZ, false) + ZizPass(g, recip, 0, g.nX * g.nY) + XYPass(g, 0, g.nZ, true)
  }

  lemma JobsOkAppend(a: seq<Job>, b: seq<Job>, len: int)
    requires JobsOk(a, len) && JobsOk(b, len)
    ensures JobsOk(a + b, len)
  {
    forall i | 0 <= i < |a + b| ensures JobOk((a + b)[i], len) {
      if i < |a| {
        assert (a + b)[i] == a[i];
      } else {
        assert (a + b)[i] == b[i - |a|];
      }
    }
  }

  /** Every line of every phase of the three transforms lies in the input array with 2n distinct slots. */
  lemma PlansOk(g: Grid, recip: seq<real>)
    requires g.Positive() && |recip| == g.nX * g.nY * g.nZ
    ensures JobsOk(FftPlan(g), g.Size()) && JobsOk(IfftPlan(g), g.Size())
    ensures JobsOk(ConvolutionPlan(g, recip), g.Size())
  {
    XYPassInPlanes(g, 0, g.nZ, false);
    XYPassInPlanes(g, 0, g.nZ, true);
    ZPassInPencils(g, 0, g.nX * g.nY, Forward);
    ZPassInPencils(g, 0, g.nX * g.nY, Inverse);
    ZizPassInPencils(g, recip, 0, g.nX * g.nY);
    JobsOkAppend(XYPass(g, 0, g.nZ, false), ZPass(g, 0, g.nX * g.nY, Forward), g.Size());
    JobsOkAppend(ZPass(g, 0, g.nX * g.nY, Inverse), XYPass(g, 0, g.nZ, true), g.Size());
    JobsOkAppend(XYPass(g, 0, g.nZ, false), ZizPass(g, recip, 0, g.nX * g.nY), g.Size());
    JobsOkAppend(XYPass(g, 0, g.nZ, false) + ZizPass(g, recip, 0, g.nX * g.nY), XYPass(g, 0, g.nZ, true), g.Size());
  }

  lemma {:induction false} XYPassKinds(g: Grid, lo: int, hi: int, inverse: bool, i: int)
    requires g.Positive() && 0 <= i < |XYPass(g, lo, hi, inverse)|
    ensures XYPass(g, lo, hi, inverse)[i].kind == if inverse then Inverse else Forward
    decreases hi - lo
  {
    var pre := XYPass(g, lo, hi - 1, inverse);
    if i < |pre| {
      XYPassKinds(g, lo, hi - 1, inverse, i);
    } else {
      var z := hi - 1;
      if inverse {
        assert Plane(g, z, inverse)[i - |pre|] == (YCol(g, z, g.nX, Inverse) + XRow(g, z, g.nY, Inverse))[i - |pre|];
      }
    }
  }

  lemma XYPassIdentity(g: Grid, e: Engine, s: seq<real>, inverse: bool)
    requires g.Positive() && |s| == g.Size()
    requires IsIdentity(e.fwd) && IsIdentity(e.inv)
    ensures JobsOk(XYPass(g, 0, g.nZ, inverse), |s|) && RunJobs(e, s, XYPass(g, 0, g.nZ, inverse)) == s
  {
    var js := XYPass(g, 0, g.nZ, inverse);
    XYPassInPlanes(g, 0, g.nZ, inverse);
    forall i | 0 <= i < |js| ensures !js[i].kind.Convolve? {
      XYPassKinds(g, 0, g.nZ, inverse, i);
    }
    RunJobsIdentity(e, s, js);
  }

  lemma ZPassIdentity(g: Grid, e: Engine, s: seq<real>, kind: Kind)
    requires g.Positive() && |s| == g.Size() && !kind.Convolve?
    requires IsIdentity(e.fwd) && IsIdentity(e.inv)
    ensures JobsOk(ZPass(g, 0, g.nX * g.nY, kind), |s|) && RunJobs(e, s, ZPass(g, 0, g.nX * g.nY, kind)) == s
  {
    ZPassInPencils(g, 0, g.nX * g.nY, kind);
    RunJobsIdentity(e, s, ZPass(g, 0, g.nX * g.nY, kind));
  }

  /**
   * With identity 1-D transforms, fft and ifft change nothing: every phase
   * gathers each line and scatters it straight back.
   */
  lemma IdentityPlans(g: Grid, e: Engine, s: seq<real>)
    requires g.Positive() && |s| == g.Size()
    requires IsIdentity(e.fwd) && IsIdentity(e.inv)
    ensures JobsOk(FftPlan(g), |s|) && JobsOk(IfftPlan(g), |s|)
    ensures RunJobs(e, s, FftPlan(g)) == s && RunJobs(e, s, IfftPlan(g)) == s
  {
    XYPassIdentity(g, e, s, false);
    XYPassIdentity(g, e, s, true);
    ZPassIdentity(g, e, s, Forward);
    ZPassIdentity(g, e, s, Inverse);
    JobsOkAppend(XYPass(g, 0, g.nZ, false), ZPass(g, 0, g.nX * g.nY, Forward), |s|);
    JobsOkAppend(ZPass(g, 0, g.nX * g.nY, Inverse), XYPass(g, 0, g.nZ, true), |s|);
    RunJobsAppend(e, s, XYPass(g, 0, g.nZ, false), ZPass(g, 0, g.nX * g.nY, Forward));
    RunJobsAppend(e, s, ZPass(g, 0, g.nX * g.nY, Inverse), XYPass(g, 0, g.nZ, true));
  }

  // The Z loops as written step pencil offsets by a hard-coded 2.

  /** In the interleaved layout pencil p starts at 2*p. */
  lemma InterleavedPencilBase(g: Grid, p: int)
    requires g.Positive() && g.layout == Interleaved && 0 <= p
    ensures PencilOf(g, p) == 2 * p
  {
    var x, y := p % g.nX, p / g.nX;
    assert (p / g.nX) * (2 * g.nX) == 2 * (g.nX * (p / g.nX));
  }

  /** The line the Z loops address for pencil counter p, whatever the layout: base 2*p, stride nextZ. */
  function ZLineAsWritten(g: Grid, p: int): Line
    requires g.Positive()
  {
    var st := g.St();
    Line(2 * p, st.nextZ, st.im, g.nZ)
  }

  /** In the interleaved layout the hard-coded steps address exactly pencil p. */
  lemma ZLineAsWrittenInterleaved(g: Grid, p: int)
    requires g.Positive() && g.layout == Interleaved && 0 <= p
    ensures ZLineAsWritten(g, p) == PencilLine(g, p)
  {
    InterleavedPencilBase(g, p);
  }

  /** With the BlockedXYZ layout and nX = nY = nZ = 2, pencil 3 as written reaches slot 18 of a 16-slot array. */
  lemma ZLineAsWrittenLeavesArray()
    ensures Grid(2, 2, 2, BlockedXYZ).Size() == 16
    ensures ZLineAsWritten(Grid(2, 2, 2, BlockedXYZ), 3).Im(1) == 18
    ensures !ZLineAsWritten(Grid(2, 2, 2, BlockedXYZ), 3).Fits(16)
  {
    var L := ZLineAsWritten(Grid(2, 2, 2, BlockedXYZ), 3);
    assert L.Im(1) == 18;
  }

  /** The workspace line IFFTZLoop passes to the inverse transform: stride 2, whatever the layout. */
  function IfftWorkLineAsWritten(g: Grid): Line
    requires g.Positive()
  {
    Line(0, 2, g.St().internalImZ, g.nZ)
  }

  lemma IfftWorkLineInterleaved(g: Grid)
    requires g.Positive() && g.layout == Interleaved
    ensures IfftWorkLineAsWritten(g) == WorkLine(g)
  {
  }

  /** With the BlockedX layout and nZ = 2, the stride 2 reaches slot 4 of the 4-slot workspace. */
  lemma IfftWorkLineLeavesWorkspace()
    ensures IfftWorkLineAsWritten(Grid(1, 1, 2, BlockedX)).Im(1) == 4
    ensures !IfftWorkLineAsWritten(Grid(1, 1, 2, BlockedX)).Fits(2 * 2)
  {
    var L := IfftWorkLineAsWritten(Grid(1, 1, 2, BlockedX));
    assert L.Im(1) == 4;
  }
}
