/**
 * The data-layout table of Complex3DParallel and the addresses it induces.
 *
 * Sample (x, y, z) of an nX by nY by nZ complex volume keeps its real part at
 * x*nextX + y*nextY + z*nextZ and its imaginary part im further on.  The
 * constructor fixes (im, nextX, nextY, nextZ) and the strides of the Z-axis
 * repack workspace once, from the chosen layout.
 */
module FftLayout {
  import opened MixedRadix

  datatype DataLayout3D = Interleaved | BlockedX | BlockedXY | BlockedXYZ

  /** The final integers chosen by the constructor's layout switch. */
  datatype Strides = Strides(im: int, nextX: int, nextY: int, nextZ: int,
                             internalImZ: int, internalNextZ: int)

  /** The layout switch of the constructor. */
  function LayoutStrides(layout: DataLayout3D, nX: int, nY: int, nZ: int): Strides
  {
    match layout
    case Interleaved => Strides(1, 2, 2 * nX, 2 * nX * nY, 1, 2)
    case BlockedX => Strides(nX, 1, 2 * nX, 2 * nX * nY, nZ, 1)
    case BlockedXY => Strides(nX * nY, 1, nX, 2 * nY * nX, nZ, 1)
    case BlockedXYZ => Strides(nX * nY * nZ, 1, nX, nY * nX, nZ, 1)
  }

  /** The dimensions of a transform together with its layout. */
  datatype Grid = Grid(nX: int, nY: int, nZ: int, layout: DataLayout3D)
  {
    predicate Positive() { nX > 0 && nY > 0 && nZ > 0 }

    function St(): Strides { LayoutStrides(layout, nX, nY, nZ) }

    /** Length of the input array: two doubles per sample. */
    function Size(): int { 2 * nX * nY * nZ }

    /** (x, y, z) is a sample of the volume and c selects its real (0) or imaginary (1) part. */
    predicate InGrid(x: int, y: int, z: int, c: int)
    {
      0 <= x < nX && 0 <= y < nY && 0 <= z < nZ && 0 <= c < 2
    }
  }

  /** Address of the real (c == 0) or imaginary (c == 1) part of sample (x, y, z). */
  function Addr(g: Grid, x: int, y: int, z: int, c: int): int
  {
    var st := g.St();
    x * st.nextX + y * st.nextY + z * st.nextZ + c * st.im
  }

  /** Address of the real (c == 0) or imaginary (c == 1) part of entry i of the Z workspace. */
  function WorkAddr(g: Grid, i: int, c: int): int
  {
    var st := g.St();
    i * st.internalNextZ + c * st.internalImZ
  }

  // The address of each layout, read as a mixed-radix number.

  function LayoutDigits(layout: DataLayout3D, x: int, y: int, z: int, c: int): seq<int>
  {
    match layout
    case Interleaved => [c, x, y, z]
    case BlockedX => [x, c, y, z]
    case BlockedXY => [x, y, c, z]
    case BlockedXYZ => [x, y, z, c]
  }

  function LayoutRadices(g: Grid): seq<int>
  {
    match g.layout
    case Interleaved => [2, g.nX, g.nY, g.nZ]
    case BlockedX => [g.nX, 2, g.nY, g.nZ]
    case BlockedXY => [g.nX, g.nY, 2, g.nZ]
    case BlockedXYZ => [g.nX, g.nY, g.nZ, 2]
  }

  lemma AddrIsValue(g: Grid, x: int, y: int, z: int, c: int)
    ensures Addr(g, x, y, z, c) == Value(LayoutDigits(g.layout, x, y, z, c), LayoutRadices(g))
    ensures Product(LayoutRadices(g)) == g.Size()
  {
    var nX, nY, nZ := g.nX, g.nY, g.nZ;
    match g.layout
    case Interleaved =>
      Value4(c, x, y, z, 2, nX, nY, nZ);
      InterleavedArith(nX, nY, nZ, x, y, z, c);
    case BlockedX =>
      Value4(x, c, y, z, nX, 2, nY, nZ);
      BlockedXArith(nX, nY, nZ, x, y, z, c);
    case BlockedXY =>
      Value4(x, y, c, z, nX, nY, 2, nZ);
      BlockedXYArith(nX, nY, nZ, x, y, z, c);
    case BlockedXYZ =>
      Value4(x, y, z, c, nX, nY, nZ, 2);
      BlockedXYZArith(nX, nY, nZ, x, y, z, c);
  }

  lemma InterleavedArith(nX: int, nY: int, nZ: int, x: int, y: int, z: int, c: int)
    ensures x * 2 + y * (2 * nX) + z * (2 * nX * nY) + c * 1 == c + 2 * (x + nX * (y + nY * z))
    ensures 2 * (nX * (nY * nZ)) == 2 * nX * nY * nZ
  {
    var nXY := nX * nY;
    assert nX * (nY * z) == nXY * z;
    assert nX * (y + nY * z) == nX * y + nXY * z;
  }

  lemma BlockedXArith(nX: int, nY: int, nZ: int, x: int, y: int, z: int, c: int)
    ensures x * 1 + y * (2 * nX) + z * (2 * nX * nY) + c * nX == x + nX * (c + 2 * (y + nY * z))
    ensures nX * (2 * (nY * nZ)) == 2 * nX * nY * nZ
  {
    var nXY := nX * nY;
    assert nX * (nY * z) == nXY * z;
    assert nX * (c + 2 * (y + nY * z)) == nX * c + 2 * (nX * y) + 2 * (nXY * z);
  }

  lemma BlockedXYArith(nX: int, nY: int, nZ: int, x: int, y: int, z: int, c: int)
    ensures x * 1 + y * nX + z * (2 * nY * nX) + c * (nX * nY) == x + nX * (y + nY * (c + 2 * z))
    ensures nX * (nY * (2 * nZ)) == 2 * nX * nY * nZ
  {
    var nXY := nX * nY;
    assert nX * (nY * (2 * z)) == 2 * (nXY * z);
    assert nX * (nY * c) == nXY * c;
    assert nX * (y + nY * (c + 2 * z)) == nX * y + nX * (nY * c) + nX * (nY * (2 * z));
  }

  lemma BlockedXYZArith(nX: int, nY: int, nZ: int, x: int, y: int, z: int, c: int)
    ensures x * 1 + y * nX + z * (nY * nX) + c * (nX * nY * nZ) == x + nX * (y + nY * (z + nZ * c))
    ensures nX * (nY * (nZ * 2)) == 2 * nX * nY * nZ
  {
    var nXY := nX * nY;
    assert nX * (nY * z) == nXY * z;
    assert nX * (nY * (nZ * c)) == nXY * nZ * c;
    assert nX * (y + nY * (z + nZ * c)) == nX * y + nX * (nY * z) + nX * (nY * (nZ * c));
  }

  lemma DigitsFit(g: Grid, x: int, y: int, z: int, c: int)
    requires g.InGrid(x, y, z, c)
    ensures Fits(LayoutDigits(g.layout, x, y, z, c), LayoutRadices(g))
  {
  }

  /** Every address of a sample lies in [0, 2*nX*nY*nZ), for each of the four layouts. */
  lemma AddrInBounds(g: Grid, x: int, y: int, z: int, c: int)
    requires g.InGrid(x, y, z, c)
    ensures 0 <= Addr(g, x, y, z, c) < g.Size()
  {
    AddrIsValue(g, x, y, z, c);
    DigitsFit(g, x, y, z, c);
    ValueBounds(LayoutDigits(g.layout, x, y, z, c), LayoutRadices(g));
  }

  /** No two parts of two samples share an address, for each of the four layouts. */
  lemma AddrInjective(g: Grid, x: int, y: int, z: int, c: int, x': int, y': int, z': int, c': int)
    requires g.InGrid(x, y, z, c) && g.InGrid(x', y', z', c')
    requires Addr(g, x, y, z, c) == Addr(g, x', y', z', c')
    ensures x == x' && y == y' && z == z' && c == c'
  {
    AddrIsValue(g, x, y, z, c);
    AddrIsValue(g, x', y', z', c');
    DigitsFit(g, x, y, z, c);
    DigitsFit(g, x', y', z', c');
    var ds, es := LayoutDigits(g.layout, x, y, z, c), LayoutDigits(g.layout, x', y', z', c');
    ValueInjective(ds, es, LayoutRadices(g));
    assert ds[0] == es[0] && ds[1] == es[1] && ds[2] == es[2] && ds[3] == es[3];
  }

  /** The sample and part stored at address a: every slot of the input array holds one. */
  function Coords(g: Grid, a: int): (t: (int, int, int, int))
    requires g.Positive() && 0 <= a < g.Size()
    ensures g.InGrid(t.0, t.1, t.2, t.3) && Addr(g, t.0, t.1, t.2, t.3) == a
  {
    AddrIsValue(g, 0, 0, 0, 0);
    var ds := Digits(a, LayoutRadices(g));
    var t := match g.layout
      case Interleaved => (ds[1], ds[2], ds[3], ds[0])
      case BlockedX => (ds[0], ds[2], ds[3], ds[1])
      case BlockedXY => (ds[0], ds[1], ds[3], ds[2])
      case BlockedXYZ => (ds[0], ds[1], ds[2], ds[3]);
    AddrIsValue(g, t.0, t.1, t.2, t.3);
    assert LayoutDigits(g.layout, t.0, t.1, t.2, t.3) == ds;
    t
  }

  // The Z-axis workspace of 2*nZ doubles.

  function WorkDigits(layout: DataLayout3D, i: int, c: int): seq<int>
  {
    if layout == Interleaved then [c, i] else [i, c]
  }

  function WorkRadices(g: Grid): seq<int>
  {
    if g.layout == Interleaved then [2, g.nZ] else [g.nZ, 2]
  }

  lemma WorkAddrIsValue(g: Grid, i: int, c: int)
    ensures WorkAddr(g, i, c) == Value(WorkDigits(g.layout, i, c), WorkRadices(g))
    ensures Product(WorkRadices(g)) == 2 * g.nZ
  {
    if g.layout == Interleaved {
      Value2(c, i, 2, g.nZ);
    } else {
      Value2(i, c, g.nZ, 2);
    }
  }

  /** Workspace entries i < nZ have addresses in [0, 2*nZ), the length of the workspace. */
  lemma WorkAddrInBounds(g: Grid, i: int, c: int)
    requires 0 <= i < g.nZ && 0 <= c < 2
    ensures 0 <= WorkAddr(g, i, c) < 2 * g.nZ
  {
    WorkAddrIsValue(g, i, c);
    ValueBounds(WorkDigits(g.layout, i, c), WorkRadices(g));
  }

  /** Distinct workspace entries and parts never share a slot. */
  lemma WorkAddrInjective(g: Grid, i: int, c: int, i': int, c': int)
    requires 0 <= i < g.nZ && 0 <= c < 2 && 0 <= i' < g.nZ && 0 <= c' < 2
    requires WorkAddr(g, i, c) == WorkAddr(g, i', c')
    ensures i == i' && c == c'
  {
    WorkAddrIsValue(g, i, c);
    WorkAddrIsValue(g, i', c');
    var ds, es := WorkDigits(g.layout, i, c), WorkDigits(g.layout, i', c');
    ValueInjective(ds, es, WorkRadices(g));
    assert ds[0] == es[0] && ds[1] == es[1];
  }

  /** Every slot of the workspace is used: the entry and part stored at w. */
  function WorkCoords(g: Grid, w: int): (t: (int, int))
    requires g.nZ > 0 && 0 <= w < 2 * g.nZ
    ensures 0 <= t.0 < g.nZ && 0 <= t.1 < 2 && WorkAddr(g, t.0, t.1) == w
  {
    WorkAddrIsValue(g, 0, 0);
    var ds := Digits(w, WorkRadices(g));
    var t := if g.layout == Interleaved then (ds[1], ds[0]) else (ds[0], ds[1]);
    WorkAddrIsValue(g, t.0, t.1);
    assert WorkDigits(g.layout, t.0, t.1) == ds;
    t
  }
}
