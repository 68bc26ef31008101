/**
 * Complex3DParallel: the 3-D FFT driver, with the 1-D transform abstract.
 *
 * The object keeps its dimensions, the strides chosen by its layout, the
 * reordered reciprocal-space kernel, the per-thread timing slots and the Z
 * workspace; fft, ifft and convolution run their passes over the caller's
 * array in a fixed order.  Each loop is proved to do exactly the job list of
 * its pass (FftPasses), so everything proved about the passes holds for it.
 * The parallel team is modelled by one worker that runs each loop over the
 * whole index range; FftPasses proves that any split into chunks gives the
 * same result.
 */
module Complex3D {
  import opened MixedRadix
  import opened FftLayout
  import opened FftLines
  import opened FftPasses
  import opened FftKernel

  class Complex3DParallel {
    const nX: int
    const nY: int
    const nZ: int
    const layout: DataLayout3D
    const im: int
    const nY2: int
    const nZ2: int
    const nextX: int
    const nextY: int
    const nextZ: int
    const internalImZ: int
    const internalNextZ: int
    const threadCount: int
    /** The 1-D transforms (Complex.fft and Complex.ifft). */
    const engine: Engine
    /** The kernel in the order the fused Z pass reads it. */
    const recip: array<real>
    const convolutionTime: array<int>
    /** The Z-axis repack workspace of one worker. */
    const work: array<real>
    /** The array being transformed; set by fft, ifft and convolution. */
    var input: array?<real>

    function G(): Grid
    {
      Grid(nX, nY, nZ, layout)
    }

    ghost predicate Valid()
    {
      G().Positive() && threadCount > 0 &&
      Strides(im, nextX, nextY, nextZ, internalImZ, internalNextZ) == G().St() &&
      nY2 == 2 * nY && nZ2 == 2 * nZ &&
      recip.Length == nX * nY * nZ && work.Length == nZ2 &&
      convolutionTime.Length == threadCount && recip != work
    }

    /** Valid, with an input array of the right size that is none of the private arrays. */
    ghost predicate Ready()
      reads this
    {
      Valid() && input != null && input.Length == G().Size() && input != work && input != recip
    }

    /** The constructor's layout switch. */
    constructor(nX: int, nY: int, nZ: int, threadCount: int, dataLayout: DataLayout3D, engine: Engine)
      requires nX > 0 && nY > 0 && nZ > 0 && threadCount > 0
      ensures Valid()
      ensures this.nX == nX && this.nY == nY && this.nZ == nZ && layout == dataLayout
      ensures this.threadCount == threadCount && this.engine == engine
      ensures fresh(recip) && fresh(work) && fresh(convolutionTime) && input == null
    {
      this.nX := nX;
      this.nY := nY;
      this.nZ := nZ;
      layout := dataLayout;
      recip := new real[nX * nY * nZ];
      nY2 := 2 * nY;
      nZ2 := 2 * nZ;
      match dataLayout {
        case Interleaved =>
          im := 1;
          nextX := 2;
          nextY := 2 * nX;
          nextZ := 2 * nX * nY;
          internalImZ := 1;
          internalNextZ := 2;
        case BlockedX =>
          im := nX;
          nextX := 1;
          nextY := 2 * nX;
          nextZ := 2 * nX * nY;
          internalNextZ := 1;
          internalImZ := nZ;
        case BlockedXY =>
          im := nX * nY;
          nextX := 1;
          nextY := nX;
          nextZ := 2 * nY * nX;
          internalNextZ := 1;
          internalImZ := nZ;
        case BlockedXYZ =>
          im := nX * nY * nZ;
          nextX := 1;
          nextY := nX;
          nextZ := nY * nX;
          internalNextZ := 1;
          internalImZ := nZ;
      }
      this.threadCount := threadCount;
      this.engine := engine;
      work := new real[2 * nZ];
      convolutionTime := new int[threadCount];
      input := null;
    }

    /** Sets every per-thread timing slot to zero. */
    method InitTiming()
      requires Valid()
      modifies convolutionTime
      ensures forall i :: 0 <= i < convolutionTime.Length ==> convolutionTime[i] == 0
    {
      var i := 0;
      while i < threadCount
        invariant 0 <= i <= threadCount
        invariant forall j :: 0 <= j < i ==> convolutionTime[j] == 0
      {
        convolutionTime[i] := 0;
        i := i + 1;
      }
    }

    /** The timing array itself, not a copy. */
    function GetTimings(): (t: array<int>)
      ensures t == convolutionTime
    {
      convolutionTime
    }

    /**
     * setRecip: copies the caller's kernel so that the nZ factors of each
     * pencil are contiguous, pencils in row-major (y, x) order; the result is
     * exactly the reordering FftKernel proves to be a permutation.
     */
    method SetRecip(src: array<real>)
      requires Valid() && src.Length >= nX * nY * nZ && src != recip
      modifies recip
      ensures recip[..] == Reordered(G(), src[..])
    {
      ghost var R := Reordered(G(), src[..]);
      var index := 0;
      var offset := 0;
      var y := 0;
      while y < nY
        invariant 0 <= y <= nY && offset == y * nX && index == offset * nZ
        invariant 0 <= index <= recip.Length
        invariant forall d :: 0 <= d < index ==> recip[d] == R[d]
      {
        var x := 0;
        while x < nX
          invariant 0 <= x <= nX && offset == y * nX + x && index == offset * nZ
          invariant 0 <= index <= recip.Length
          invariant forall d :: 0 <= d < index ==> recip[d] == R[d]
        {
          PencilSpan(x, y, nX, nY, nZ, offset);
          index := SetRecipPencil(x, y, offset, index, R, src);
          ghost var o0 := offset;
          offset := offset + 1;
          NextMultiple(o0, offset, nZ);
          x := x + 1;
        }
        NextRow(y, nX, offset);
        y := y + 1;
      }
      WholeVolume(nX, nY, nZ, offset, index);
      assert recip[..] == R;
    }

    /** The innermost loop of setRecip: the nZ factors of pencil (x, y). */
    method SetRecipPencil(x: int, y: int, offset: int, start: int, ghost R: seq<real>, src: array<real>)
      returns (next: int)
      requires Valid() && src.Length >= nX * nY * nZ && src != recip
      requires R == Reordered(G(), src[..])
      requires 0 <= x < nX && 0 <= y < nY && offset == y * nX + x && start == offset * nZ
      requires 0 <= start && start + nZ <= recip.Length
      requires forall d :: 0 <= d < start ==> recip[d] == R[d]
      modifies recip
      ensures next == start + nZ
      ensures forall d :: 0 <= d < next ==> recip[d] == R[d]
    {
      next := start;
      var i := 0;
      var z := offset;
      while i < nZ
        invariant 0 <= i <= nZ && next == start + i && z == offset + i * (nX * nY)
        invariant forall d :: 0 <= d < next ==> recip[d] == R[d]
      {
        PencilEntry(G(), x, y, i, offset, start, next, z);
        ReorderedAt(G(), src[..], x, y, i);
        recip[next] := src[z];
        next := next + 1;
        ghost var i0 := i;
        i := i + 1;
        z := z + nX * nY;
        NextMultiple(i0, i, nX * nY);
      }
    }

    /** fft: the XY pass over every plane, then the Z pass over every pencil. */
    method Fft(a: array<real>)
      requires Valid() && layout == Interleaved && a.Length == G().Size() && a != work && a != recip
      modifies this, a, work
      ensures input == a && JobsOk(FftPlan(G()), a.Length)
      ensures a[..] == RunJobs(engine, old(a[..]), FftPlan(G()))
    {
      input := a;
      FftRegion();
    }

    /** FFTRegion.run: the two phases of fft, one after the other. */
    method FftRegion()
      requires Ready() && layout == Interleaved
      modifies input, work
      ensures JobsOk(FftPlan(G()), input.Length)
      ensures input[..] == RunJobs(engine, old(input[..]), FftPlan(G()))
    {
      ghost var s0 := input[..];
      FftXYPhase();
      ghost var s1 := input[..];
      FftZPhase();
      TwoPhases(engine, s0, XYPass(G(), 0, G().nZ, false), s1, ZPass(G(), 0, G().nX * G().nY, Forward), input[..]);
    }

    /** ifft: the inverse Z pass over every pencil, then the inverse XY pass over every plane. */
    method Ifft(a: array<real>)
      requires Valid() && layout == Interleaved && a.Length == G().Size() && a != work && a != recip
      modifies this, a, work
      ensures input == a && JobsOk(IfftPlan(G()), a.Length)
      ensures a[..] == RunJobs(engine, old(a[..]), IfftPlan(G()))
    {
      input := a;
      IfftRegion();
    }

    /** IFFTRegion.run: the two phases of ifft, one after the other. */
    method IfftRegion()
      requires Ready() && layout == Interleaved
      modifies input, work
      ensures JobsOk(IfftPlan(G()), input.Length)
      ensures input[..] == RunJobs(engine, old(input[..]), IfftPlan(G()))
    {
      ghost var s0 := input[..];
      IfftZPhase();
      ghost var s1 := input[..];
      IfftXYPhase();
      TwoPhases(engine, s0, ZPass(G(), 0, G().nX * G().nY, Inverse), s1, XYPass(G(), 0, G().nZ, true), input[..]);
    }

    /**
     * convolution: the XY pass, the fused forward Z, kernel scaling and
     * inverse Z pass, then the inverse XY pass.
     */
    method Convolution(a: array<real>)
      requires Valid() && layout == Interleaved && a.Length == G().Size() && a != work && a != recip
      modifies this, a, work
      ensures input == a && JobsOk(ConvolutionPlan(G(), recip[..]), a.Length)
      ensures a[..] == RunJobs(engine, old(a[..]), ConvolutionPlan(G(), recip[..]))
    {
      input := a;
      ConvolutionRegion();
    }

    /** ConvolutionRegion.run: the three phases of convolution, one after the other. */
    method ConvolutionRegion()
      requires Ready() && layout == Interleaved
      modifies input, work
      ensures JobsOk(ConvolutionPlan(G(), recip[..]), input.Length)
      ensures input[..] == RunJobs(engine, old(input[..]), ConvolutionPlan(G(), recip[..]))
    {
      ghost var s0 := input[..];
      FftXYPhase();
      ghost var s1 := input[..];
      ZizPhase();
      ghost var s2 := input[..];
      IfftXYPhase();
      ghost var A := XYPass(G(), 0, G().nZ, false);
      ghost var B := ZizPass(G(), recip[..], 0, G().nX * G().nY);
      TwoPhases(engine, s0, A, s1, B, s2);
      TwoPhases(engine, s0, A + B, s2, XYPass(G(), 0, G().nZ, true), input[..]);
    }

    /** execute(0, nZ - 1, fftXYLoop): the forward XY pass over every plane. */
    method FftXYPhase()
      requires Ready()
      modifies input
      ensures JobsOk(XYPass(G(), 0, G().nZ, false), input.Length)
      ensures input[..] == RunJobs(engine, old(input[..]), XYPass(G(), 0, G().nZ, false))
    {
      FftXYLoop(0, nZ - 1);
    }

    /** execute(0, nZ - 1, ifftXYLoop): the inverse XY pass over every plane. */
    method IfftXYPhase()
      requires Ready()
      modifies input
      ensures JobsOk(XYPass(G(), 0, G().nZ, true), input.Length)
      ensures input[..] == RunJobs(engine, old(input[..]), XYPass(G(), 0, G().nZ, true))
    {
      IfftXYLoop(0, nZ - 1);
    }

    /** execute(0, nX - 1, fftZLoop): the forward Z pass over every pencil. */
    method FftZPhase()
      requires Ready() && layout == Interleaved
      modifies input, work
      ensures JobsOk(ZPass(G(), 0, G().nX * G().nY, Forward), input.Length)
      ensures input[..] == RunJobs(engine, old(input[..]), ZPass(G(), 0, G().nX * G().nY, Forward))
    {
      FftZLoop(0, nX - 1);
    }

    /** execute(0, nX - 1, ifftZLoop): the inverse Z pass over every pencil. */
    method IfftZPhase()
      requires Ready() && layout == Interleaved
      modifies input, work
      ensures JobsOk(ZPass(G(), 0, G().nX * G().nY, Inverse), input.Length)
      ensures input[..] == RunJobs(engine, old(input[..]), ZPass(G(), 0, G().nX * G().nY, Inverse))
    {
      IfftZLoop(0, nX - 1);
    }

    /** execute(0, nY - 1, fftZizLoop): the fused Z pass over every pencil. */
    method ZizPhase()
      requires Ready() && layout == Interleaved
      modifies input, work
      ensures JobsOk(ZizPass(G(), recip[..], 0, G().nX * G().nY), input.Length)
      ensures input[..] == RunJobs(engine, old(input[..]), ZizPass(G(), recip[..], 0, G().nX * G().nY))
    {
      FftZizLoop(0, nY - 1);
      EveryRow(nX, nY);
    }

    /**
     * The 1-D transform of one line of a, in place (Complex.fft / Complex.ifft
     * with an offset and a stride): reads the samples of the line, writes the
     * transformed samples back to the same slots and nothing else.
     */
    method ApplyLine(a: array<real>, L: Line, kind: Kind)
      requires JobOk(Job(L, kind), a.Length)
      modifies a
      ensures a[..] == RunJob(engine, old(a[..]), Job(L, kind))
    {
      ghost var s := a[..];
      var w := Transform(engine, kind, Gather(a[..], L));
      var k := 0;
      while k < L.n
        invariant 0 <= k <= L.n
        invariant a[..] == Scatter(s, L, w, k)
      {
        ghost var before := a[..];
        a[L.Re(k)] := w[k].re;
        a[L.Im(k)] := w[k].im;
        assert a[..] == before[L.Re(k) := w[k].re][L.Im(k) := w[k].im];
        ScatterStep(s, L, w, k);
        k := k + 1;
      }
    }

    /**
     * Copies pencil line P of input into the workspace line W: entry i of the
     * pencil goes to i*internalNextZ and its imaginary part internalImZ further.
     */
    method GatherPencil(ghost P: Line, base: int, ghost W: Line)
      requires input != null && input != work && nZ >= 0
      requires P == Line(base, nextZ, im, nZ) && P.Ok(input.Length)
      requires W == Line(0, internalNextZ, internalImZ, nZ) && W.Ok(work.Length)
      modifies work
      ensures Gather(work[..], W) == Gather(input[..], P)
    {
      ghost var w0 := work[..];
      ghost var u := Gather(input[..], P);
      var i := 0;
      var z := base;
      while i < nZ
        invariant 0 <= i <= nZ && z == P.Re(i)
        invariant work[..] == Scatter(w0, W, u, i)
      {
        ghost var before := work[..];
        var w := i * internalNextZ;
        assert W.Re(i) == w && W.Im(i) == w + internalImZ;
        work[w] := input[z];
        work[w + internalImZ] := input[z + im];
        assert work[..] == before[W.Re(i) := u[i].re][W.Im(i) := u[i].im];
        ScatterStep(w0, W, u, i);
        LineStep(P, i);
        i := i + 1;
        z := z + nextZ;
      }
      GatherScatter(w0, W, u);
    }

    /** Copies the workspace line W back over pencil line P of input. */
    method ScatterPencil(ghost P: Line, base: int, ghost W: Line)
      requires input != null && input != work && nZ >= 0
      requires P == Line(base, nextZ, im, nZ) && P.Ok(input.Length)
      requires W == Line(0, internalNextZ, internalImZ, nZ) && W.Ok(work.Length)
      modifies input
      ensures input[..] == Scatter(old(input[..]), P, Gather(work[..], W), P.n)
    {
      ghost var s := input[..];
      ghost var v := Gather(work[..], W);
      var i := 0;
      var z := base;
      while i < nZ
        invariant 0 <= i <= nZ && z == P.Re(i)
        invariant input[..] == Scatter(s, P, v, i)
      {
        ghost var before := input[..];
        var w := i * internalNextZ;
        assert W.Re(i) == w && W.Im(i) == w + internalImZ;
        input[z] := work[w];
        input[z + im] := work[w + internalImZ];
        assert input[..] == before[P.Re(i) := v[i].re][P.Im(i) := v[i].im];
        ScatterStep(s, P, v, i);
        LineStep(P, i);
        i := i + 1;
        z := z + nextZ;
      }
    }

    // The X and Y lines of one plane.

    /** The X lines of plane z, row by row: offset z*nextZ, then nextY further per row. */
    method TransformRows(z: int, kind: Kind)
      requires Ready() && 0 <= z < nZ && !kind.Convolve?
      modifies input
      ensures JobsOk(XRow(G(), z, nY, kind), input.Length)
      ensures input[..] == RunJobs(engine, old(input[..]), XRow(G(), z, nY, kind))
    {
      ghost var g := G();
      ghost var s0 := input[..];
      var offset := z * nextZ;
      var y := 0;
      while y < nY
        invariant 0 <= y <= nY && offset == z * nextZ + y * nextY
        invariant JobsOk(XRow(g, z, y, kind), |s0|)
        invariant input[..] == RunJobs(engine, s0, XRow(g, z, y, kind))
      {
        ghost var s1 := input[..];
        RowLineOk(g, z, y, kind);
        assert Line(offset, nextX, im, nX) == XLine(g, z, y);
        ApplyLine(input, Line(offset, nextX, im, nX), kind);
        RowStep(g, engine, s0, z, y, kind, s1, input[..]);
        StepOffset(z * nextZ, y, nextY);
        y := y + 1;
        offset := offset + nextY;
      }
    }

    /** The Y lines of plane z, column by column: offset z*nextZ, then nextX further per column. */
    method TransformColumns(z: int, kind: Kind)
      requires Ready() && 0 <= z < nZ && !kind.Convolve?
      modifies input
      ensures JobsOk(YCol(G(), z, nX, kind), input.Length)
      ensures input[..] == RunJobs(engine, old(input[..]), YCol(G(), z, nX, kind))
    {
      ghost var g := G();
      ghost var s0 := input[..];
      var offset := z * nextZ;
      var x := 0;
      while x < nX
        invariant 0 <= x <= nX && offset == z * nextZ + x * nextX
        invariant JobsOk(YCol(g, z, x, kind), |s0|)
        invariant input[..] == RunJobs(engine, s0, YCol(g, z, x, kind))
      {
        ghost var s1 := input[..];
        ColumnLineOk(g, z, x, kind);
        assert Line(offset, nextY, im, nY) == YLine(g, z, x);
        ApplyLine(input, Line(offset, nextY, im, nY), kind);
        ColumnStep(g, engine, s0, z, x, kind, s1, input[..]);
        StepOffset(z * nextZ, x, nextX);
        x := x + 1;
        offset := offset + nextX;
      }
    }

    /**
     * One plane of FFTXYLoop (X lines, then Y lines) or of IFFTXYLoop (Y lines,
     * then X lines), after planes lo .. z-1: the pass grows by that plane.
     */
    method XYPlane(z: int, inverse: bool, ghost lo: int, ghost s0: seq<real>)
      requires Ready() && 0 <= lo <= z < nZ && |s0| == input.Length
      requires JobsOk(XYPass(G(), lo, z, inverse), |s0|) && input[..] == RunJobs(engine, s0, XYPass(G(), lo, z, inverse))
      modifies input
      ensures JobsOk(XYPass(G(), lo, z + 1, inverse), |s0|)
      ensures input[..] == RunJobs(engine, s0, XYPass(G(), lo, z + 1, inverse))
    {
      ghost var s1 := input[..];
      if inverse {
        TransformColumns(z, Inverse);
        TransformRows(z, Inverse);
      } else {
        TransformRows(z, Forward);
        TransformColumns(z, Forward);
      }
      PlaneRun(G(), engine, s1, z, inverse, input[..]);
      PlaneStep(G(), engine, s0, lo, z, inverse, s1, input[..]);
    }

    /** FFTXYLoop.run(lb, ub): for each plane z of [lb, ub], the X lines and then the Y lines. */
    method FftXYLoop(lb: int, ub: int)
      requires Ready() && 0 <= lb <= ub + 1 && ub < nZ
      modifies input
      ensures JobsOk(XYPass(G(), lb, ub + 1, false), input.Length)
      ensures input[..] == RunJobs(engine, old(input[..]), XYPass(G(), lb, ub + 1, false))
    {
      ghost var g := G();
      ghost var s0 := input[..];
      var z := lb;
      while z <= ub
        invariant lb <= z <= ub + 1
        invariant JobsOk(XYPass(g, lb, z, false), |s0|)
        invariant input[..] == RunJobs(engine, s0, XYPass(g, lb, z, false))
      {
        XYPlane(z, false, lb, s0);
        z := z + 1;
      }
    }

    /** IFFTXYLoop.run(lb, ub): for each plane z of [lb, ub], the inverse Y lines and then the inverse X lines. */
    method IfftXYLoop(lb: int, ub: int)
      requires Ready() && 0 <= lb <= ub + 1 && ub < nZ
      modifies input
      ensures JobsOk(XYPass(G(), lb, ub + 1, true), input.Length)
      ensures input[..] == RunJobs(engine, old(input[..]), XYPass(G(), lb, ub + 1, true))
    {
      ghost var g := G();
      ghost var s0 := input[..];
      var z := lb;
      while z <= ub
        invariant lb <= z <= ub + 1
        invariant JobsOk(XYPass(g, lb, z, true), |s0|)
        invariant input[..] == RunJobs(engine, s0, XYPass(g, lb, z, true))
      {
        XYPlane(z, true, lb, s0);
        z := z + 1;
      }
    }

    // The Z pencils, through the workspace.

    /**
     * One pencil of FFTZLoop or IFFTZLoop: pencil p, starting at offset, is
     * copied into the workspace, the workspace line with the given stride is
     * transformed, and the workspace is copied back.
     */
    method TransformPencil(ghost p: int, offset: int, stride: int, kind: Kind)
      requires Ready() && 0 <= p < nX * nY && offset == PencilOf(G(), p) && !kind.Convolve?
      requires Line(0, stride, internalImZ, nZ) == WorkLine(G())
      modifies input, work
      ensures JobOk(Job(PencilLine(G(), p), kind), input.Length)
      ensures input[..] == RunJob(engine, old(input[..]), Job(PencilLine(G(), p), kind))
    {
      ghost var g := G();
      ghost var P := PencilLine(g, p);
      ghost var W := WorkLine(g);
      PencilOk(g, p);
      WorkLineOk(g);
      GatherPencil(P, offset, W);
      ghost var w1 := work[..];
      ApplyLine(work, Line(0, stride, internalImZ, nZ), kind);
      GatherScatter(w1, W, Transform(engine, kind, Gather(w1, W)));
      ScatterPencil(P, offset, W);
    }

    /** Pencil p of a Z loop, transformed after pencils lo .. p-1: the pass grows by that pencil. */
    method ZPencil(ghost p: int, offset: int, stride: int, kind: Kind, ghost lo: int, ghost s0: seq<real>)
      requires Ready() && layout == Interleaved && lo <= p && 0 <= p < nX * nY && offset == 2 * p && !kind.Convolve?
      requires Line(0, stride, internalImZ, nZ) == WorkLine(G()) && |s0| == input.Length
      requires JobsOk(ZPass(G(), lo, p, kind), |s0|) && input[..] == RunJobs(engine, s0, ZPass(G(), lo, p, kind))
      modifies input, work
      ensures JobsOk(ZPass(G(), lo, p + 1, kind), |s0|)
      ensures input[..] == RunJobs(engine, s0, ZPass(G(), lo, p + 1, kind))
    {
      ghost var s1 := input[..];
      InterleavedPencilBase(G(), p);
      TransformPencil(p, offset, stride, kind);
      PencilStep(G(), engine, s0, lo, p, kind, s1, input[..]);
    }

    /** The inner loop of FFTZLoop and IFFTZLoop: the nY pencils from p0 = x*nY on, the first at offset. */
    method ZColumn(x: int, offset: int, stride: int, kind: Kind, ghost p0: int, ghost lo: int, ghost s0: seq<real>)
      returns (next: int)
      requires Ready() && layout == Interleaved && 0 <= x < nX && p0 == x * nY && lo <= p0 && offset == 2 * p0
      requires !kind.Convolve? && Line(0, stride, internalImZ, nZ) == WorkLine(G()) && |s0| == input.Length
      requires JobsOk(ZPass(G(), lo, p0, kind), |s0|) && input[..] == RunJobs(engine, s0, ZPass(G(), lo, p0, kind))
      modifies input, work
      ensures next == offset + 2 * nY
      ensures JobsOk(ZPass(G(), lo, p0 + nY, kind), |s0|)
      ensures input[..] == RunJobs(engine, s0, ZPass(G(), lo, p0 + nY, kind))
    {
      ghost var p := p0;
      next := offset;
      var y := 0;
      while y < nY
        invariant 0 <= y <= nY && p == p0 + y && next == offset + 2 * y
        invariant JobsOk(ZPass(G(), lo, p, kind), |s0|)
        invariant input[..] == RunJobs(engine, s0, ZPass(G(), lo, p, kind))
      {
        RowMajorBound(x, y, nX, nY);
        ZPencil(p, next, stride, kind, lo, s0);
        p := p + 1;
        y := y + 1;
        next := next + 2;
      }
    }

    /**
     * FFTZLoop.run(lb, ub): for x in [lb, ub] and y < nY the base offset starts
     * at lb*nY2 and steps by 2, which in the interleaved layout is pencil
     * x*nY + y; the workspace line has stride internalNextZ.
     */
    method FftZLoop(lb: int, ub: int)
      requires Ready() && layout == Interleaved && 0 <= lb <= ub + 1 && ub < nX
      modifies input, work
      ensures lb * nY <= (ub + 1) * nY
      ensures JobsOk(ZPass(G(), lb * nY, (ub + 1) * nY, Forward), input.Length)
      ensures input[..] == RunJobs(engine, old(input[..]), ZPass(G(), lb * nY, (ub + 1) * nY, Forward))
    {
      ghost var g := G();
      ghost var s0 := input[..];
      ghost var lo := lb * nY;
      ghost var p := lo;
      assert Line(0, internalNextZ, internalImZ, nZ) == WorkLine(g);
      var x := lb;
      var offset := lb * nY2;
      assert offset == 2 * p;
      while x <= ub
        invariant lb <= x <= ub + 1 && lo <= p == x * nY && offset == 2 * p
        invariant JobsOk(ZPass(g, lo, p, Forward), |s0|)
        invariant input[..] == RunJobs(engine, s0, ZPass(g, lo, p, Forward))
      {
        offset := ZColumn(x, offset, internalNextZ, Forward, p, lo, s0);
        p := p + nY;
        StepOffset(0, x, nY);
        x := x + 1;
      }
      assert p == (ub + 1) * nY;
    }

    /**
     * IFFTZLoop.run(lb, ub): the same pencils as FFTZLoop, inverse transformed;
     * the workspace line is given the hard-coded stride 2.
     */
    method IfftZLoop(lb: int, ub: int)
      requires Ready() && layout == Interleaved && 0 <= lb <= ub + 1 && ub < nX
      modifies input, work
      ensures lb * nY <= (ub + 1) * nY
      ensures JobsOk(ZPass(G(), lb * nY, (ub + 1) * nY, Inverse), input.Length)
      ensures input[..] == RunJobs(engine, old(input[..]), ZPass(G(), lb * nY, (ub + 1) * nY, Inverse))
    {
      ghost var g := G();
      ghost var s0 := input[..];
      ghost var lo := lb * nY;
      ghost var p := lo;
      IfftWorkLineInterleaved(g);
      var offset := lb * nY2;
      var x := lb;
      assert offset == 2 * p;
      while x <= ub
        invariant lb <= x <= ub + 1 && lo <= p == x * nY && offset == 2 * p
        invariant JobsOk(ZPass(g, lo, p, Inverse), |s0|)
        invariant input[..] == RunJobs(engine, s0, ZPass(g, lo, p, Inverse))
      {
        offset := ZColumn(x, offset, 2, Inverse, p, lo, s0);
        p := p + nY;
        StepOffset(0, x, nY);
        x := x + 1;
      }
      assert p == (ub + 1) * nY;
    }

    /**
     * The scale loop of FFTZIZLoop: entry i of the workspace line W is
     * multiplied, real and imaginary part, by recip[index + i] (K is that
     * stretch of the kernel); returns the advanced index.
     */
    method ScaleWork(index: int, ghost K: seq<real>, ghost W: Line) returns (next: int)
      requires recip != work && nZ >= 0 && 0 <= index && index + nZ <= recip.Length && |K| == nZ && (forall k {:trigger K[k]} :: 0 <= k < nZ ==> K[k] == recip[index + k])
      requires W == Line(0, internalNextZ, internalImZ, nZ) && W.Ok(work.Length)
      modifies work
      ensures next == index + nZ
      ensures Gather(work[..], W) == Scale(Gather(old(work[..]), W), K)
    {
      ghost var w0 := work[..];
      ghost var u := Scale(Gather(w0, W), K);
      next := index;
      var i := 0;
      while i < nZ
        invariant 0 <= i <= nZ == |K| && next == index + i
        invariant work[..] == Scatter(w0, W, u, i)
      {
        ScaleSample(i, index, w0, W, K);
        next := next + 1;
        i := i + 1;
      }
      GatherScatter(w0, W, u);
    }

    /**
     * One pass of the scale loop: sample i of the workspace line, real and
     * imaginary part, is multiplied by recip[index + i], which is K[i].
     */
    method ScaleSample(i: int, index: int, ghost w0: seq<real>, ghost W: Line, ghost K: seq<real>)
      requires 0 <= i < nZ == |K| && 0 <= index && index + nZ <= recip.Length && (forall k {:trigger K[k]} :: 0 <= k < nZ ==> K[k] == recip[index + k])
      requires recip != work && W == Line(0, internalNextZ, internalImZ, nZ) && W.Ok(|w0|) && |w0| == work.Length
      requires work[..] == Scatter(w0, W, Scale(Gather(w0, W), K), i)
      modifies work
      ensures work[..] == Scatter(w0, W, Scale(Gather(w0, W), K), i + 1)
    {
      var r := recip[index + i];
      var w := i * internalNextZ;
      assert W.Re(i) == w && W.Im(i) == w + internalImZ;
      ghost var before := work[..];
      var re, imag := work[w], work[w + internalImZ];
      work[w] := re * r;
      work[w + internalImZ] := imag * r;
      assert work[..] == before[w := re * r][w + internalImZ := imag * r];
      ScaleStep(w0, W, K, i, r, before, re, imag, work[..]);
    }

    /**
     * The workspace part of one pencil of FFTZIZLoop: transform, scale by the
     * kernel entries from index on, inverse transform; returns the advanced
     * kernel index.
     */
    method ConvolveWork(index: int, ghost K: seq<real>, ghost W: Line) returns (next: int)
      requires recip != work && nZ >= 0 && 0 <= index && index + nZ <= recip.Length && |K| == nZ && (forall k {:trigger K[k]} :: 0 <= k < nZ ==> K[k] == recip[index + k])
      requires W == Line(0, internalNextZ, internalImZ, nZ) && W.Ok(work.Length)
      modifies work
      ensures next == index + nZ
      ensures Gather(work[..], W) == Transform(engine, Convolve(K), Gather(old(work[..]), W))
    {
      ghost var v := Gather(work[..], W);
      TransformWork(Forward, W);
      next := ScaleWork(index, K, W);
      TransformWork(Inverse, W);
      assert Transform(engine, Convolve(K), v) == Transform(engine, Inverse, Scale(Transform(engine, Forward, v), K));
    }

    /** The 1-D transform of the workspace line W, in place. */
    method TransformWork(kind: Kind, ghost W: Line)
      requires !kind.Convolve? && nZ >= 0
      requires W == Line(0, internalNextZ, internalImZ, nZ) && W.Ok(work.Length)
      modifies work
      ensures Gather(work[..], W) == Transform(engine, kind, Gather(old(work[..]), W))
    {
      ghost var w0 := work[..];
      ApplyLine(work, Line(0, internalNextZ, internalImZ, nZ), kind);
      GatherScatter(w0, W, Transform(engine, kind, Gather(w0, W)));
    }

    /**
     * One pencil of FFTZIZLoop: pencil p is copied into the workspace,
     * convolved there with its kernel entries (R is the reordered kernel) and
     * copied back; returns the advanced kernel index.
     */
    method ConvolvePencil(ghost p: int, offset: int, index: int, ghost R: seq<real>) returns (next: int)
      requires Ready() && 0 <= p < nX * nY && offset == PencilOf(G(), p) && index == p * nZ && R == recip[..]
      modifies input, work
      ensures next == index + nZ
      ensures JobOk(ZizJob(G(), R, p), input.Length)
      ensures input[..] == RunJob(engine, old(input[..]), ZizJob(G(), R, p))
    {
      ghost var g := G();
      ghost var P := PencilLine(g, p);
      ghost var W := WorkLine(g);
      PencilOk(g, p);
      WorkLineOk(g);
      KernelSpan(g, p);
      GatherPencil(P, offset, W);
      ghost var K := KernelAt(g, R, p);
      forall k | 0 <= k < nZ
        ensures K[k] == recip[index + k]
      {
        KernelAtIndex(g, R, p, k);
      }
      next := ConvolveWork(index, K, W);
      ScatterPencil(P, offset, W);
    }

    /**
     * FFTZIZLoop.run(lb, ub): for y in [lb, ub] and x < nX the base offset
     * starts at lb*nextY and steps by 2, which in the interleaved layout is
     * pencil y*nX + x; the kernel index starts at nX*nZ*lb.
     */
    method FftZizLoop(lb: int, ub: int)
      requires Ready() && layout == Interleaved && 0 <= lb <= ub + 1 && ub < nY
      modifies input, work
      ensures 0 <= lb * nX <= (ub + 1) * nX <= nX * nY
      ensures JobsOk(ZizPass(G(), recip[..], lb * nX, (ub + 1) * nX), input.Length)
      ensures input[..] == RunJobs(engine, old(input[..]), ZizPass(G(), recip[..], lb * nX, (ub + 1) * nX))
    {
      ghost var g := G();
      ghost var R := recip[..];
      ghost var s0 := input[..];
      ghost var lo := lb * nX;
      MulLeft(nX, 0, lb);
      MulLeft(nX, lb, nY);
      MulLeft(nX, ub + 1, nY);
      var index := nX * nZ * lb;
      var offset := lb * nextY;
      var y := lb;
      while y <= ub
        invariant lb <= y <= ub + 1 && 0 <= lo <= y * nX <= nX * nY
        invariant offset == y * nextY && index == nX * nZ * y
        invariant JobsOk(ZizPass(g, R, lo, y * nX), |s0|)
        invariant input[..] == RunJobs(engine, s0, ZizPass(g, R, lo, y * nX))
      {
        RowEnd(y, nY, nX);
        index, offset := ConvolveRow(y, index, offset, lo, R, s0);
        y := y + 1;
      }
      SameProduct(y, ub + 1, nX);
    }

    /**
     * One pass of the outer loop of FFTZIZLoop: the pencils y*nX .. y*nX + nX - 1
     * in turn, the base offset stepping by 2 and the kernel index by nZ.
     */
    method ConvolveRow(y: int, index: int, offset: int, ghost lo: int, ghost R: seq<real>, ghost s0: seq<real>)
      returns (nextIndex: int, nextOffset: int)
      requires Ready() && layout == Interleaved && 0 <= y < nY && R == recip[..] && |s0| == input.Length
      requires 0 <= lo <= y * nX && y * nX + nX <= nX * nY && offset == y * nextY && index == nX * nZ * y
      requires JobsOk(ZizPass(G(), R, lo, y * nX), |s0|) && input[..] == RunJobs(engine, s0, ZizPass(G(), R, lo, y * nX))
      modifies input, work
      ensures nextOffset == (y + 1) * nextY && nextIndex == nX * nZ * (y + 1) && lo <= (y + 1) * nX <= nX * nY
      ensures JobsOk(ZizPass(G(), R, lo, (y + 1) * nX), |s0|) && input[..] == RunJobs(engine, s0, ZizPass(G(), R, lo, (y + 1) * nX))
    {
      ghost var g := G();
      ghost var p := y * nX;
      ghost var q := p;
      RowStart(y, nX, nZ, nextY);
      nextIndex, nextOffset := index, offset;
      var x := 0;
      while x < nX
        invariant 0 <= x <= nX && q == p + x && nextOffset == 2 * q && nextIndex == q * nZ
        invariant JobsOk(ZizPass(g, R, lo, q), |s0|)
        invariant input[..] == RunJobs(engine, s0, ZizPass(g, R, lo, q))
      {
        nextIndex := ConvolveNext(q, nextOffset, nextIndex, lo, R, s0);
        ghost var q0 := q;
        q := q + 1;
        NextMultiple(q0, q, nZ);
        x := x + 1;
        nextOffset := nextOffset + 2;
      }
      RowFinish(y, nX, nZ, nextY, q);
    }

    /** One pass of the inner loop of FFTZIZLoop: pencil p, after pencils lo .. p-1. */
    method ConvolveNext(ghost p: int, offset: int, index: int, ghost lo: int, ghost R: seq<real>, ghost s0: seq<real>)
      returns (next: int)
      requires Ready() && layout == Interleaved && R == recip[..] && |s0| == input.Length
      requires 0 <= lo <= p < nX * nY && offset == 2 * p && index == p * nZ
      requires JobsOk(ZizPass(G(), R, lo, p), |s0|) && input[..] == RunJobs(engine, s0, ZizPass(G(), R, lo, p))
      modifies input, work
      ensures next == index + nZ
      ensures JobsOk(ZizPass(G(), R, lo, p + 1), |s0|) && input[..] == RunJobs(engine, s0, ZizPass(G(), R, lo, p + 1))
    {
      ghost var s1 := input[..];
      InterleavedPencilBase(G(), p);
      next := ConvolvePencil(p, offset, index, R);
      ConvolveStep(G(), engine, s0, R, lo, p, s1, input[..]);
    }
  }

  /**
   * One step of the scale loop: multiplying both parts of sample i of the
   * workspace line by factor i extends the scattered prefix of the scaled line.
   */
  lemma ScaleStep(w0: seq<real>, W: Line, r: seq<real>, i: nat, f: real, s1: seq<real>, re: real, im: real, s2: seq<real>)
    requires W.Ok(|w0|) && |r| == W.n && i < W.n && f == r[i]
    requires s1 == Scatter(w0, W, Scale(Gather(w0, W), r), i)
    requires re == s1[W.Re(i)] && im == s1[W.Im(i)]
    requires s2 == s1[W.Re(i) := re * f][W.Im(i) := im * f]
    ensures s2 == Scatter(w0, W, Scale(Gather(w0, W), r), i + 1)
  {
    var u := Scale(Gather(w0, W), r);
    ScatterUntouched(w0, W, u, i);
    ScaleEntry(w0, W, r, i, f, re, im);
    ScatterStep(w0, W, u, i);
  }

  /** Entry i of the scaled workspace line: both parts of sample i times factor i. */
  lemma ScaleEntry(w0: seq<real>, W: Line, r: seq<real>, i: int, f: real, re: real, im: real)
    requires W.Fits(|w0|) && |r| == W.n && 0 <= i < W.n && f == r[i]
    requires re == w0[W.Re(i)] && im == w0[W.Im(i)]
    ensures Scale(Gather(w0, W), r)[i] == Cx(re * f, im * f)
  {
  }

  /** Running pass a and then pass b is running the pass a + b. */
  lemma TwoPhases(e: Engine, s0: seq<real>, a: seq<Job>, s1: seq<real>, b: seq<Job>, s2: seq<real>)
    requires JobsOk(a, |s0|) && s1 == RunJobs(e, s0, a)
    requires JobsOk(b, |s1|) && s2 == RunJobs(e, s1, b)
    ensures JobsOk(a + b, |s0|) && s2 == RunJobs(e, s0, a + b)
  {
    JobsOkAppend(a, b, |s0|);
    RunJobsAppend(e, s0, a, b);
  }

  /** The offset of the first pencil of the next row. */
  lemma NextRow(y: int, nX: int, offset: int)
    requires offset == y * nX + nX
    ensures offset == (y + 1) * nX
  {
  }

  /** The nZ factors of pencil (x, y) lie inside the kernel. */
  lemma PencilSpan(x: int, y: int, nX: int, nY: int, nZ: int, offset: int)
    requires 0 <= x < nX && 0 <= y < nY && 0 <= nZ && offset == y * nX + x
    ensures 0 <= offset * nZ && offset * nZ + nZ <= nX * nY * nZ
  {
    RowMajorBound(y, x, nY, nX);
    MulLeft(nZ, offset + 1, nY * nX);
    assert nZ * (offset + 1) == offset * nZ + nZ;
    assert nZ * (nY * nX) == nX * nY * nZ;
  }

  /** After the last row the running index has covered the whole kernel. */
  lemma WholeVolume(nX: int, nY: int, nZ: int, offset: int, index: int)
    requires offset == nY * nX && index == offset * nZ
    ensures index == nX * nY * nZ
  {
  }

  /** The running indices of setRecip are the two index maps of FftKernel. */
  lemma PencilEntry(g: Grid, x: int, y: int, i: int, offset: int, start: int, index: int, z: int)
    requires offset == y * g.nX + x && start == offset * g.nZ && index == start + i
    requires z == offset + i * (g.nX * g.nY)
    ensures index == RecipIndex(g, x, y, i) && z == KernelIndex(g, x, y, i)
  {
    assert i * (g.nX * g.nY) == i * g.nX * g.nY;
  }


  /** Pencil i*cols + j of a row-major count lies below rows*cols. */
  lemma RowMajorBound(i: int, j: int, rows: int, cols: int)
    requires 0 <= i < rows && 0 <= j < cols
    ensures 0 <= i * cols + j < rows * cols
  {
    MulLeft(cols, i + 1, rows);
    assert (i + 1) * cols == i * cols + cols;
  }

  /** Transforming pencil p after pencils lo .. p-1 extends the Z pass by that pencil. */
  lemma PencilStep(g: Grid, e: Engine, s0: seq<real>, lo: int, p: int, kind: Kind, s1: seq<real>, s2: seq<real>)
    requires g.Positive() && |s0| == g.Size() && lo <= p
    requires JobsOk(ZPass(g, lo, p, kind), |s0|) && s1 == RunJobs(e, s0, ZPass(g, lo, p, kind))
    requires JobOk(Job(PencilLine(g, p), kind), |s0|) && s2 == RunJob(e, s1, Job(PencilLine(g, p), kind))
    ensures JobsOk(ZPass(g, lo, p + 1, kind), |s0|) && s2 == RunJobs(e, s0, ZPass(g, lo, p + 1, kind))
  {
    ZPassSnoc(g, lo, p, kind);
    JobStep(e, s0, ZPass(g, lo, p, kind), Job(PencilLine(g, p), kind), s1, s2);
  }

  /** Convolving pencil p after pencils lo .. p-1 extends the fused pass by that pencil. */
  lemma ConvolveStep(g: Grid, e: Engine, s0: seq<real>, recip: seq<real>, lo: int, p: int, s1: seq<real>, s2: seq<real>)
    requires g.Positive() && |s0| == g.Size() && |recip| == g.nX * g.nY * g.nZ && 0 <= lo <= p < g.nX * g.nY
    requires JobsOk(ZizPass(g, recip, lo, p), |s0|) && s1 == RunJobs(e, s0, ZizPass(g, recip, lo, p))
    requires JobOk(ZizJob(g, recip, p), |s0|) && s2 == RunJob(e, s1, ZizJob(g, recip, p))
    ensures JobsOk(ZizPass(g, recip, lo, p + 1), |s0|) && s2 == RunJobs(e, s0, ZizPass(g, recip, lo, p + 1))
  {
    ZizPassSnoc(g, recip, lo, p);
    JobStep(e, s0, ZizPass(g, recip, lo, p), ZizJob(g, recip, p), s1, s2);
  }

  /** Row y of a rows-by-cols count ends at or before the last entry. */
  lemma RowEnd(y: int, rows: int, cols: int)
    requires 0 <= y < rows && 0 <= cols
    ensures 0 <= y * cols && y * cols + cols <= cols * rows
  {
    MulLeft(cols, y + 1, rows);
  }

  /** The base offset and kernel index at the start of row y, in the interleaved layout. */
  lemma RowStart(y: int, nX: int, nZ: int, nextY: int)
    requires nextY == 2 * nX
    ensures y * nextY == 2 * (y * nX) && nX * nZ * y == (y * nX) * nZ
  {
  }

  /** The base offset and kernel index after row y, in the interleaved layout. */
  lemma RowFinish(y: int, nX: int, nZ: int, nextY: int, q: int)
    requires nextY == 2 * nX && q == y * nX + nX
    ensures q == (y + 1) * nX && 2 * q == (y + 1) * nextY && q * nZ == nX * nZ * (y + 1)
  {
  }

  /** The fused Z loop over rows 0 .. nY-1 covers pencils 0 .. nX*nY. */
  lemma EveryRow(nX: int, nY: int)
    ensures (nY - 1 + 1) * nX == nX * nY
  {
  }

  /** Equal factors give equal products. */
  lemma SameProduct(a: int, b: int, n: int)
    requires a == b
    ensures a * n == b * n
  {
  }

  /** The multiple of step after k*step. */
  lemma NextMultiple(k: int, k1: int, step: int)
    requires k1 == k + 1
    ensures k1 * step == k * step + step
  {
  }

  /** A running offset a + k*step, advanced by one step. */
  lemma StepOffset(a: int, k: int, step: int)
    ensures a + (k + 1) * step == a + k * step + step
  {
  }

  /** The jobs of plane z, run as its two halves one after the other. */
  lemma PlaneRun(g: Grid, e: Engine, s1: seq<real>, z: int, inverse: bool, s2: seq<real>)
    requires g.Positive() && |s1| == g.Size() && 0 <= z < g.nZ
    requires !inverse ==> JobsOk(XRow(g, z, g.nY, Forward), |s1|) && JobsOk(YCol(g, z, g.nX, Forward), |s1|) &&
                          s2 == RunJobs(e, RunJobs(e, s1, XRow(g, z, g.nY, Forward)), YCol(g, z, g.nX, Forward))
    requires inverse ==> JobsOk(YCol(g, z, g.nX, Inverse), |s1|) && JobsOk(XRow(g, z, g.nY, Inverse), |s1|) &&
                         s2 == RunJobs(e, RunJobs(e, s1, YCol(g, z, g.nX, Inverse)), XRow(g, z, g.nY, Inverse))
    ensures JobsOk(Plane(g, z, inverse), |s1|) && s2 == RunJobs(e, s1, Plane(g, z, inverse))
  {
    if inverse {
      JobsOkAppend(YCol(g, z, g.nX, Inverse), XRow(g, z, g.nY, Inverse), |s1|);
      RunJobsAppend(e, s1, YCol(g, z, g.nX, Inverse), XRow(g, z, g.nY, Inverse));
    } else {
      JobsOkAppend(XRow(g, z, g.nY, Forward), YCol(g, z, g.nX, Forward), |s1|);
      RunJobsAppend(e, s1, XRow(g, z, g.nY, Forward), YCol(g, z, g.nX, Forward));
    }
  }

  /** Running plane z after planes lo .. z-1 extends the XY pass by that plane. */
  lemma PlaneStep(g: Grid, e: Engine, s0: seq<real>, lo: int, z: int, inverse: bool, s1: seq<real>, s2: seq<real>)
    requires g.Positive() && |s0| == g.Size() && lo <= z
    requires JobsOk(XYPass(g, lo, z, inverse), |s0|)
    requires s1 == RunJobs(e, s0, XYPass(g, lo, z, inverse))
    requires JobsOk(Plane(g, z, inverse), |s0|) && s2 == RunJobs(e, s1, Plane(g, z, inverse))
    ensures JobsOk(XYPass(g, lo, z + 1, inverse), |s0|)
    ensures s2 == RunJobs(e, s0, XYPass(g, lo, z + 1, inverse))
  {
    XYPassSnoc(g, lo, z, inverse);
    JobsOkAppend(XYPass(g, lo, z, inverse), Plane(g, z, inverse), |s0|);
    RunJobsAppend(e, s0, XYPass(g, lo, z, inverse), Plane(g, z, inverse));
  }

  /** Running one more job after a job list extends the list by that job. */
  lemma JobStep(e: Engine, s0: seq<real>, js: seq<Job>, j: Job, s1: seq<real>, s2: seq<real>)
    requires JobsOk(js, |s0|) && JobOk(j, |s0|)
    requires s1 == RunJobs(e, s0, js) && s2 == RunJob(e, s1, j)
    ensures JobsOk(js + [j], |s0|) && s2 == RunJobs(e, s0, js + [j])
  {
    JobsOkAppend(js, [j], |s0|);
    RunJobsSnoc(e, s0, js, j);
  }

  lemma RowLineOk(g: Grid, z: int, y: int, kind: Kind)
    requires g.Positive() && 0 <= z < g.nZ && 0 <= y < g.nY && !kind.Convolve?
    ensures JobOk(Job(XLine(g, z, y), kind), g.Size())
  {
    XRowOk(g, z, y + 1, kind);
    assert XRow(g, z, y + 1, kind)[y] == Job(XLine(g, z, y), kind);
  }

  lemma ColumnLineOk(g: Grid, z: int, x: int, kind: Kind)
    requires g.Positive() && 0 <= z < g.nZ && 0 <= x < g.nX && !kind.Convolve?
    ensures JobOk(Job(YLine(g, z, x), kind), g.Size())
  {
    YColOk(g, z, x + 1, kind);
    assert YCol(g, z, x + 1, kind)[x] == Job(YLine(g, z, x), kind);
  }

  /** Transforming X line y of plane z after lines 0 .. y-1 extends the row pass by that line. */
  lemma RowStep(g: Grid, e: Engine, s0: seq<real>, z: int, y: int, kind: Kind, s1: seq<real>, s2: seq<real>)
    requires g.Positive() && |s0| == g.Size() && 0 <= z < g.nZ && 0 <= y < g.nY && !kind.Convolve?
    requires JobsOk(XRow(g, z, y, kind), |s0|) && s1 == RunJobs(e, s0, XRow(g, z, y, kind))
    requires JobOk(Job(XLine(g, z, y), kind), |s1|) && s2 == RunJob(e, s1, Job(XLine(g, z, y), kind))
    ensures JobsOk(XRow(g, z, y + 1, kind), |s0|) && s2 == RunJobs(e, s0, XRow(g, z, y + 1, kind))
  {
    RowLineOk(g, z, y, kind);
    XRowSnoc(g, z, y, kind);
    JobStep(e, s0, XRow(g, z, y, kind), Job(XLine(g, z, y), kind), s1, s2);
  }

  /** Transforming Y line x of plane z after lines 0 .. x-1 extends the column pass by that line. */
  lemma ColumnStep(g: Grid, e: Engine, s0: seq<real>, z: int, x: int, kind: Kind, s1: seq<real>, s2: seq<real>)
    requires g.Positive() && |s0| == g.Size() && 0 <= z < g.nZ && 0 <= x < g.nX && !kind.Convolve?
    requires JobsOk(YCol(g, z, x, kind), |s0|) && s1 == RunJobs(e, s0, YCol(g, z, x, kind))
    requires JobOk(Job(YLine(g, z, x), kind), |s1|) && s2 == RunJob(e, s1, Job(YLine(g, z, x), kind))
    ensures JobsOk(YCol(g, z, x + 1, kind), |s0|) && s2 == RunJobs(e, s0, YCol(g, z, x + 1, kind))
  {
    ColumnLineOk(g, z, x, kind);
    YColSnoc(g, z, x, kind);
    JobStep(e, s0, YCol(g, z, x, kind), Job(YLine(g, z, x), kind), s1, s2);
  }
}
