# Force Field X cores in Dafny

This project models five small cores of Force Field X and proves properties of them.

1. **The parallel 3-D FFT driver `Complex3DParallel`** (modules `Complex3D`, `FftLayout`, `FftKernel`, `FftLines`, `FftPasses`, `MixedRadix`).
   - What is modelled: the constructor's data-layout table, `setRecip`, `initTiming`/`getTimings`, the phase order of `fft`, `ifft` and `convolution`, and the loop bodies of the XY, Z and fused Z loops.
   - The 1-D transform (`Complex.fft`/`ifft`) is abstract: an `Engine` whose forward and inverse line transforms only read and write the samples of their own line.
   - Every loop is proved to run exactly a list of line jobs, its pass.
   - About the passes it is proved that:
     - addresses are in bounds and collision-free;
     - the kernel reorder is a permutation;
     - gather followed by scatter is the identity;
     - chunks over disjoint index ranges touch disjoint memory and commute.
2. **Three message-passing buffers from the Parallel Java library** (modules `IntegerMatrixBufs`, `Unsigned16Bufs`, `ObjectReductionBufs`, with `JavaInts`, `ByteBuffers` and `Ranges` underneath).
   - `IntegerMatrixBuf` is a strided 2-D view that sends and receives ints through a byte buffer.
   - `Unsigned16BitIntegerArrayBuf` is a strided 1-D view. It sends the low 16 bits of each item and zero-extends what it receives.
   - `ObjectItemReductionBuf` folds every item put into it into a wrapped one-item buffer.
3. **`RefinementData`** (module `Refinement`): per-reflection tables of two-entry rows, with get/set accessors, the free-R flags, and the `sigmaa` row setter that shares the caller's array.
4. **`DiffractionFile`** (module `Diffraction`): the extension-to-filter rule, the constructor chain with its defaults, and the order in which the assembly constructor probes data files. Whether a file exists is a predicate parameter.
5. **`LambdaMove`** (module `LambdaMoves`): the Monte Carlo move on lambda, its single reflection into 0..1, and its revert.

Modelling choices:
- Java `double` is modelled as `real`.
- Java `int` and `short` values stored in arrays or buffers are the `int32`/`int16` newtypes. The `(short)` cast, the `& 0xFFFF` mask and the 32-bit sum `i + num` in `receiveItems` are written out.
- A `java.nio.ByteBuffer` is a class holding its bytes, position and limit. `asIntBuffer` is modelled by absolute int puts and gets from the byte position.
- `edu.rit.util.Range` is a datatype of lower bound, stride and length.
- Objects that the source updates in place are classes: `Complex3DParallel`, the buffers, `RefinementData`, `LambdaMove` and the random walk it moves. Their methods state their new state in `ensures`. The loops carry invariants that tie them to the specification functions.

## Model

| member | source | states |
|---|---|---|
| Complex3D.Complex3DParallel.constructor | modules/numerics/src/main/java/ffx/numerics/fft/Complex3DParallel.java:146-207 | the strides (im, nextX, nextY, nextZ, internalImZ, internalNextZ) are the layout table's entry for the chosen layout; nY2 = 2nY, nZ2 = 2nZ; the kernel has nX·nY·nZ slots and the workspace 2nZ |
| FftLayout.AddrInBounds | modules/numerics/src/main/java/ffx/numerics/fft/Complex3DParallel.java:157-207 | for each of the four layouts, every real and imaginary address x·nextX + y·nextY + z·nextZ (+ im) lies in [0, 2·nX·nY·nZ) |
| FftLayout.AddrInjective | modules/numerics/src/main/java/ffx/numerics/fft/Complex3DParallel.java:157-207 | for each layout, two (sample, part) pairs with the same address are the same pair |
| FftLayout.Coords | modules/numerics/src/main/java/ffx/numerics/fft/Complex3DParallel.java:157-207 | every slot of the input array is the address of some sample and part, so the layout is a bijection onto the array |
| FftLayout.WorkAddrInBounds | modules/numerics/src/main/java/ffx/numerics/fft/Complex3DParallel.java:165-206 | workspace addresses i·internalNextZ (+ internalImZ) for i < nZ lie in [0, 2nZ), the length of `work`, in the interleaved and the blocked layouts |
| FftLayout.WorkAddrInjective | modules/numerics/src/main/java/ffx/numerics/fft/Complex3DParallel.java:165-206 | distinct workspace entries and parts use distinct slots |
| FftLayout.WorkCoords | modules/numerics/src/main/java/ffx/numerics/fft/Complex3DParallel.java:165-206 | every workspace slot holds some entry and part, so the repack is a bijection onto `work` |
| FftKernel.IndexBounds | modules/numerics/src/main/java/ffx/numerics/fft/Complex3DParallel.java:316-320 | the source index x + y·nX + z·nX·nY and the target index (y·nX + x)·nZ + z both lie in [0, nX·nY·nZ) |
| FftKernel.ReorderIsPermutation | modules/numerics/src/main/java/ffx/numerics/fft/Complex3DParallel.java:311-323 | the kernel reorder maps [0, nX·nY·nZ) into itself and has an inverse, so each slot is written exactly once from exactly one entry |
| FftKernel.RecipCoords | modules/numerics/src/main/java/ffx/numerics/fft/Complex3DParallel.java:311-323 | every slot of the reordered kernel belongs to exactly one sample (x, y, z) |
| FftKernel.ReorderedAt | modules/numerics/src/main/java/ffx/numerics/fft/Complex3DParallel.java:319 | after the reorder, slot (y·nX + x)·nZ + z holds the caller's entry x + y·nX + z·nX·nY |
| FftKernel.KernelOfPencil | modules/numerics/src/main/java/ffx/numerics/fft/Complex3DParallel.java:589-603 | the fused Z pass scales entry z of pencil (x, y) by the caller's kernel value of sample (x, y, z) |
| Complex3D.Complex3DParallel.SetRecip | modules/numerics/src/main/java/ffx/numerics/fft/Complex3DParallel.java:311-323 | `recip` becomes exactly the reordering of the caller's kernel (Reordered), and the caller's array is unchanged |
| Complex3D.Complex3DParallel.InitTiming | modules/numerics/src/main/java/ffx/numerics/fft/Complex3DParallel.java:300-304 | every per-thread timing slot is 0 |
| Complex3D.Complex3DParallel.GetTimings | modules/numerics/src/main/java/ffx/numerics/fft/Complex3DParallel.java:276-278 | returns the timing array itself, not a copy |
| Complex3D.Complex3DParallel.Fft | modules/numerics/src/main/java/ffx/numerics/fft/Complex3DParallel.java:261-264 | in the interleaved layout only: the input becomes the result of running the XY pass over all planes and then the Z pass over all pencils |
| Complex3D.Complex3DParallel.FftRegion | modules/numerics/src/main/java/ffx/numerics/fft/Complex3DParallel.java:351-355 | in the interleaved layout only: the forward region is the XY phase followed by the Z phase |
| Complex3D.Complex3DParallel.Ifft | modules/numerics/src/main/java/ffx/numerics/fft/Complex3DParallel.java:286-289 | in the interleaved layout only: the input becomes the result of the inverse Z pass and then the inverse XY pass |
| Complex3D.Complex3DParallel.IfftRegion | modules/numerics/src/main/java/ffx/numerics/fft/Complex3DParallel.java:388-392 | in the interleaved layout only: the inverse region is the inverse Z phase followed by the inverse XY phase |
| Complex3D.Complex3DParallel.Convolution | modules/numerics/src/main/java/ffx/numerics/fft/Complex3DParallel.java:245-248 | in the interleaved layout only: the input becomes the result of the XY pass, then the fused forward-Z/scale/inverse-Z pass, then the inverse XY pass |
| Complex3D.Complex3DParallel.ConvolutionRegion | modules/numerics/src/main/java/ffx/numerics/fft/Complex3DParallel.java:429-435 | in the interleaved layout only: the convolution region runs its three phases in that fixed order |
| Complex3D.Complex3DParallel.FftXYPhase | modules/numerics/src/main/java/ffx/numerics/fft/Complex3DParallel.java:354 | execute(0, nZ-1) of the XY loop is the XY pass over every plane |
| Complex3D.Complex3DParallel.FftZPhase | modules/numerics/src/main/java/ffx/numerics/fft/Complex3DParallel.java:355 | in the interleaved layout only: execute(0, nX-1) of the Z loop is the Z pass over every pencil |
| Complex3D.Complex3DParallel.IfftZPhase | modules/numerics/src/main/java/ffx/numerics/fft/Complex3DParallel.java:391 | in the interleaved layout only: execute(0, nX-1) of the inverse Z loop is the inverse Z pass over every pencil |
| Complex3D.Complex3DParallel.IfftXYPhase | modules/numerics/src/main/java/ffx/numerics/fft/Complex3DParallel.java:392 | execute(0, nZ-1) of the inverse XY loop is the inverse XY pass over every plane |
| Complex3D.Complex3DParallel.ZizPhase | modules/numerics/src/main/java/ffx/numerics/fft/Complex3DParallel.java:434 | in the interleaved layout only: execute(0, nY-1) of the fused loop is the fused pass over every pencil |
| Complex3D.Complex3DParallel.FftXYLoop | modules/numerics/src/main/java/ffx/numerics/fft/Complex3DParallel.java:449-457 | for planes z in [lb, ub] the loop runs exactly the X lines and then the Y lines of each plane, in that order |
| Complex3D.Complex3DParallel.IfftXYLoop | modules/numerics/src/main/java/ffx/numerics/fft/Complex3DParallel.java:516-524 | for planes z in [lb, ub] the loop runs exactly the inverse Y lines and then the inverse X lines of each plane |
| Complex3D.Complex3DParallel.FftZLoop | modules/numerics/src/main/java/ffx/numerics/fft/Complex3DParallel.java:481-494 | for x in [lb, ub], the offset stepping by 2 visits pencils lb·nY .. (ub+1)·nY − 1, and the input becomes the forward Z pass over exactly those pencils |
| Complex3D.Complex3DParallel.IfftZLoop | modules/numerics/src/main/java/ffx/numerics/fft/Complex3DParallel.java:549-562 | the same pencils, inverse transformed through the workspace line of stride 2 |
| Complex3D.Complex3DParallel.FftZizLoop | modules/numerics/src/main/java/ffx/numerics/fft/Complex3DParallel.java:588-609 | for y in [lb, ub], with the kernel index started at nX·nZ·lb, the input becomes the fused pass over pencils lb·nX .. (ub+1)·nX − 1, pencil p scaled by the reordered kernel entries p·nZ .. p·nZ + nZ − 1 |
| Complex3D.Complex3DParallel.GatherPencil | modules/numerics/src/main/java/ffx/numerics/fft/Complex3DParallel.java:484-488 | the workspace line holds exactly the samples of the pencil, and the input is untouched |
| Complex3D.Complex3DParallel.ScatterPencil | modules/numerics/src/main/java/ffx/numerics/fft/Complex3DParallel.java:490-494 | the input becomes the old input with the pencil's samples overwritten by the workspace line (Scatter), which changes no other slot |
| Complex3D.Complex3DParallel.ScaleWork | modules/numerics/src/main/java/ffx/numerics/fft/Complex3DParallel.java:598-603 | each workspace sample, real and imaginary part, is multiplied by recip[index + i], and the index advances by nZ |
| Complex3D.Complex3DParallel.ApplyLine | modules/numerics/src/main/java/ffx/numerics/fft/Complex3DParallel.java:452 | a 1-D transform with an offset and a stride rewrites only the samples of its own line |
| FftLines.GatherScatter | modules/numerics/src/main/java/ffx/numerics/fft/Complex3DParallel.java:484-494 | scattering samples over a line and gathering the line gives back those samples |
| FftLines.ScatterGather | modules/numerics/src/main/java/ffx/numerics/fft/Complex3DParallel.java:484-494 | gathering a line and scattering it straight back leaves the array unchanged |
| FftLines.RunJobsIdentity | modules/numerics/src/main/java/ffx/numerics/fft/Complex3DParallel.java:484-494 | with identity 1-D transforms, any pass of forward and inverse jobs leaves the input unchanged |
| FftLines.RunJobFrame | modules/numerics/src/main/java/ffx/numerics/fft/Complex3DParallel.java:489-494 | one job writes only the addresses of its line |
| FftLines.RunJobsFrame | modules/numerics/src/main/java/ffx/numerics/fft/Complex3DParallel.java:481-494 | a pass writes only addresses that belong to one of its lines |
| FftLines.RunJobsLocal | modules/numerics/src/main/java/ffx/numerics/fft/Complex3DParallel.java:481-494 | what a pass writes on its lines depends only on the input on those lines |
| FftLines.RunJobsCommute | modules/numerics/src/main/java/ffx/numerics/fft/Complex3DParallel.java:481-494 | two passes over disjoint addresses give the same result in either order, even when they use different engines |
| FftLines.RunDisjointPasses | modules/numerics/src/main/java/ffx/numerics/fft/Complex3DParallel.java:481-494 | two disjoint passes, run in either order, equal their concatenation |
| FftLines.ScatterTwice | modules/numerics/src/main/java/ffx/numerics/fft/Complex3DParallel.java:490-494 | scattering over a line twice leaves what the second scatter wrote, and nothing of the first |
| FftLines.ScalerScales | modules/numerics/src/main/java/ffx/numerics/fft/Complex3DParallel.java:598-603 | under the engine whose 1-D transforms change nothing, a convolution job only multiplies each sample by its kernel factor |
| FftLines.ConvolveSteps | modules/numerics/src/main/java/ffx/numerics/fft/Complex3DParallel.java:597-604 | on one line, a convolution job equals a forward job, then the line scaled by the kernel, then an inverse job, run one after the other |
| FftPasses.AlongOk | modules/numerics/src/main/java/ffx/numerics/fft/Complex3DParallel.java:451-455 | every X, Y or Z line of the volume lies in the input array and uses 2n distinct slots |
| FftPasses.WorkLineOk | modules/numerics/src/main/java/ffx/numerics/fft/Complex3DParallel.java:489 | the workspace line with stride internalNextZ fits in `work` with distinct slots, for every layout |
| FftPasses.PencilOk | modules/numerics/src/main/java/ffx/numerics/fft/Complex3DParallel.java:484-494 | the Z line of every pencil (x, y) lies in the input array with 2nZ distinct slots, for every layout |
| FftPasses.XYPassInPlanes | modules/numerics/src/main/java/ffx/numerics/fft/Complex3DParallel.java:449-457 | an XY pass over planes [lo, hi) addresses only samples whose z lies in [lo, hi), all in bounds |
| FftPasses.InPlanesDisjoint | modules/numerics/src/main/java/ffx/numerics/fft/Complex3DParallel.java:449-457 | passes over disjoint plane ranges never touch the same slot |
| FftPasses.XYChunksCommute | modules/numerics/src/main/java/ffx/numerics/fft/Complex3DParallel.java:449-457 | the XY chunks [lo, mid) and [mid, hi) give the XY pass over [lo, hi) in either order |
| FftPasses.ZPassInPencils | modules/numerics/src/main/java/ffx/numerics/fft/Complex3DParallel.java:481-494 | a Z pass over pencils [lo, hi) addresses only samples of those pencils, all in bounds |
| FftPasses.ZizPassInPencils | modules/numerics/src/main/java/ffx/numerics/fft/Complex3DParallel.java:588-609 | the same holds for the fused pass |
| FftPasses.InPencilsDisjoint | modules/numerics/src/main/java/ffx/numerics/fft/Complex3DParallel.java:481-494 | passes over disjoint pencil ranges never touch the same slot |
| FftPasses.ZPassVisitsEachPencilOnce | modules/numerics/src/main/java/ffx/numerics/fft/Complex3DParallel.java:482-483 | over all pencils, every pencil is the job at its own position and no other job starts at its base |
| FftPasses.ZChunksCommute | modules/numerics/src/main/java/ffx/numerics/fft/Complex3DParallel.java:481-494 | the Z chunks [lo, mid) and [mid, hi) give the Z pass over [lo, hi) in either order |
| FftPasses.ZizPassSteps | modules/numerics/src/main/java/ffx/numerics/fft/Complex3DParallel.java:588-609 | over any range of pencils, the fused pass equals the forward Z pass over those pencils, then each pencil scaled by its kernel entries, then the inverse Z pass |
| FftPasses.ZizChunksCommute | modules/numerics/src/main/java/ffx/numerics/fft/Complex3DParallel.java:588-609 | the same holds for chunks of the fused pass |
| FftPasses.KernelAtIndex | modules/numerics/src/main/java/ffx/numerics/fft/Complex3DParallel.java:589-599 | pencil p reads kernel entries p·nZ .. p·nZ + nZ − 1 |
| FftPasses.PlansOk | modules/numerics/src/main/java/ffx/numerics/fft/Complex3DParallel.java:351-435 | every line of every phase of fft, ifft and convolution is in bounds and collision-free |
| FftPasses.IdentityPlans | modules/numerics/src/main/java/ffx/numerics/fft/Complex3DParallel.java:351-392 | with identity 1-D transforms, fft and ifft leave the input unchanged |
| FftPasses.InterleavedPencilBase | modules/numerics/src/main/java/ffx/numerics/fft/Complex3DParallel.java:482-483 | in the interleaved layout, pencil counter p = x·nY + y starts at offset 2p |
| FftPasses.ZLineAsWrittenInterleaved | modules/numerics/src/main/java/ffx/numerics/fft/Complex3DParallel.java:483 | in the interleaved layout, the line the hard-coded +2 step addresses is exactly pencil p |
| FftPasses.ZLineAsWrittenLeavesArray | modules/numerics/src/main/java/ffx/numerics/fft/Complex3DParallel.java:483 | in the BlockedXYZ layout the same step leaves the input array (2×2×2 volume, pencil 3, slot 18 of 16) |
| FftPasses.IfftWorkLineInterleaved | modules/numerics/src/main/java/ffx/numerics/fft/Complex3DParallel.java:557 | in the interleaved layout, stride 2 is the workspace line the repack fills |
| FftPasses.IfftWorkLineLeavesWorkspace | modules/numerics/src/main/java/ffx/numerics/fft/Complex3DParallel.java:557 | in the BlockedX layout, stride 2 reaches slot 4 of a 4-slot workspace |
| MixedRadix.ValueBounds | modules/numerics/src/main/java/ffx/numerics/fft/Complex3DParallel.java:157-207 | digits within their radices give a value in [0, product of radices) |
| MixedRadix.ValueInjective | modules/numerics/src/main/java/ffx/numerics/fft/Complex3DParallel.java:157-207 | two digit strings within their radices with the same value are equal |
| MixedRadix.Digits | modules/numerics/src/main/java/ffx/numerics/fft/Complex3DParallel.java:157-207 | every number below the product of radices has a digit string |
| IntegerMatrixBufs.IntegerMatrixBuf.constructor | src/main/java/edu/rit/mp/buf/IntegerMatrixBuf.java:76-91 | the length is the row range's length times the column range's length |
| IntegerMatrixBufs.IntegerMatrixBuf.SplitIndex | src/main/java/edu/rit/mp/buf/IntegerMatrixBuf.java:274-287 | if colCount > 0, then i = i2r(i)·colCount + i2c(i) with 0 ≤ i2c(i) < colCount; if colCount = 0, then i2r(i) = i and i2c(i) = 0 |
| IntegerMatrixBufs.IntegerMatrixBuf.JoinIndex | src/main/java/edu/rit/mp/buf/IntegerMatrixBuf.java:274-287 | row r, column c is item r·colCount + c, which lies below the length |
| IntegerMatrixBufs.IntegerMatrixBuf.CellFacts | src/main/java/edu/rit/mp/buf/IntegerMatrixBuf.java:105-111 | each item's cell [lowerRow + i2r·rowStride][lowerCol + i2c·colStride] is inside the matrix, and distinct items have distinct cells |
| IntegerMatrixBufs.IntegerMatrixBuf.GetAt | src/main/java/edu/rit/mp/buf/IntegerMatrixBuf.java:105-111 | get reads items row by row: item r·colCount + c is the matrix cell of view row r and view column c, inside the matrix |
| IntegerMatrixBufs.IntegerMatrixBuf.Put | src/main/java/edu/rit/mp/buf/IntegerMatrixBuf.java:122-129 | afterwards get(i) is the item put; every other item and every other matrix cell is unchanged |
| IntegerMatrixBufs.IntegerMatrixBuf.Copy | src/main/java/edu/rit/mp/buf/IntegerMatrixBuf.java:146-148 | copying the buffer onto itself leaves the matrix unchanged |
| IntegerMatrixBufs.IntegerMatrixBuf.SendItems | src/main/java/edu/rit/mp/buf/IntegerMatrixBuf.java:194-223 | as written: the ints put are SentAsWritten, the count is AsWrittenPlan's, and the position moves by 4 per counted item, failing when that passes the limit |
| IntegerMatrixBufs.IntegerMatrixBuf.SendAtRowStart | src/main/java/edu/rit/mp/buf/IntegerMatrixBuf.java:194-223 | started at a row start, the as-written send puts items i .. i+n−1 in row-major order and reports n = min(remaining ints, length − i) |
| IntegerMatrixBufs.AsWrittenAtRowStart | src/main/java/edu/rit/mp/buf/IntegerMatrixBuf.java:204-220 | from a row start, the as-written plan puts exactly the ints it counts |
| IntegerMatrixBufs.AsWrittenPlanBounds | src/main/java/edu/rit/mp/buf/IntegerMatrixBuf.java:204-220 | the ints an as-written send puts stay inside the view and never exceed the count or the room |
| IntegerMatrixBufs.AsWrittenMidRowUndercounts | src/main/java/edu/rit/mp/buf/IntegerMatrixBuf.java:208 | started inside a row, the as-written send puts fewer ints than it reports |
| IntegerMatrixBufs.AsWrittenMidRowExample | src/main/java/edu/rit/mp/buf/IntegerMatrixBuf.java:208 | a 2×3 view sent from item 2 with room for 3 ints puts 3 ints but reports 4, where 3 items should go |
| IntegerMatrixBufs.IntegerMatrixBuf.SendItemsCorrected | src/main/java/edu/rit/mp/buf/IntegerMatrixBuf.java:194-223 | with the inner bound corrected: puts items i .. i+n−1 as big-endian ints, n = min(remaining ints, length − i), and moves the position by 4n |
| IntegerMatrixBufs.IntegerMatrixBuf.ReceiveItems | src/main/java/edu/rit/mp/buf/IntegerMatrixBuf.java:239-269 | stores n = min(num, remaining ints, length − i) ints into items i, i+1, … in row-major order; returns n; moves the position by 4n; changes no other cell |
| IntegerMatrixBufs.IntegerMatrixBuf.SendReceiveRoundTrip | src/main/java/edu/rit/mp/buf/IntegerMatrixBuf.java:211 | a receive at the byte offset where a corrected send started reads back every sent item |
| Unsigned16Bufs.Unsigned16BitIntegerArrayBuf.constructor | src/main/java/edu/rit/mp/buf/Unsigned16BitIntegerArrayBuf.java:67-76 | the length is the range's length |
| Unsigned16Bufs.Unsigned16BitIntegerArrayBuf.SlotFacts | src/main/java/edu/rit/mp/buf/Unsigned16BitIntegerArrayBuf.java:90-94 | item i lives at offset + i·stride, inside the array, and distinct items have distinct slots |
| Unsigned16Bufs.Unsigned16BitIntegerArrayBuf.Get | src/main/java/edu/rit/mp/buf/Unsigned16BitIntegerArrayBuf.java:90-94 | get(i) is the array element at offset + i·stride, which lies in the array and is the slot of no other item |
| Unsigned16Bufs.Unsigned16BitIntegerArrayBuf.Put | src/main/java/edu/rit/mp/buf/Unsigned16BitIntegerArrayBuf.java:105-110 | afterwards get(i) is the item put; only that slot of the array changes |
| Unsigned16Bufs.Unsigned16BitIntegerArrayBuf.Copy | src/main/java/edu/rit/mp/buf/Unsigned16BitIntegerArrayBuf.java:127-129 | copying the buffer onto itself leaves the array unchanged |
| Unsigned16Bufs.Unsigned16BitIntegerArrayBuf.SendItems | src/main/java/edu/rit/mp/buf/Unsigned16BitIntegerArrayBuf.java:175-188 | puts items i .. i+n−1, cast to short, two bytes each; n = min(length − i, remaining/2); the position moves by 2n |
| Unsigned16Bufs.ShortsOf | src/main/java/edu/rit/mp/buf/Unsigned16BitIntegerArrayBuf.java:183 | each short sent is the item cast to short, equal to it modulo 2^16 |
| Unsigned16Bufs.Unsigned16BitIntegerArrayBuf.ReceiveItems | src/main/java/edu/rit/mp/buf/Unsigned16BitIntegerArrayBuf.java:204-219 | stores ReceiveCount items, each the next short zero-extended into [0, 65535]; the position moves by 2n; only those items' slots change |
| Unsigned16Bufs.ReceiveCountNoOverflow | src/main/java/edu/rit/mp/buf/Unsigned16BitIntegerArrayBuf.java:211-212 | when i + num does not overflow, the count is min(num, length − i, remaining/2), never negative |
| Unsigned16Bufs.ReceiveCountOverflow | src/main/java/edu/rit/mp/buf/Unsigned16BitIntegerArrayBuf.java:211 | when the 32-bit sum i + num wraps, nothing is received |
| Unsigned16Bufs.SendReceiveRoundTrip | src/main/java/edu/rit/mp/buf/Unsigned16BitIntegerArrayBuf.java:183 | receiving what a send wrote gives each item modulo 65536, so items in [0, 65535] come back unchanged |
| JavaInts.LowBitsOfShort | src/main/java/edu/rit/mp/buf/Unsigned16BitIntegerArrayBuf.java:214 | zero-extending the short cast of x gives x mod 2^16 |
| JavaInts.AddInt | src/main/java/edu/rit/mp/buf/Unsigned16BitIntegerArrayBuf.java:211 | Java int addition equals the sum modulo 2^32, and equals the sum itself when that is in range |
| ByteBuffers.ShortRoundTrip | src/main/java/edu/rit/mp/buf/Unsigned16BitIntegerArrayBuf.java:183 | reading back the two big-endian bytes of a short gives the short |
| ByteBuffers.IntRoundTrip | src/main/java/edu/rit/mp/buf/IntegerMatrixBuf.java:211 | reading back the four big-endian bytes of an int gives the int |
| ByteBuffers.ByteBuffer.SetPosition | src/main/java/edu/rit/mp/buf/IntegerMatrixBuf.java:221 | the position moves to p when 0 ≤ p ≤ limit; otherwise the call fails and nothing changes |
| ObjectReductionBufs.NewObjectItemReductionBuf | src/main/java/edu/rit/mp/buf/ObjectItemReductionBuf.java:62-74 | it fails with NullPointerException exactly when op is null; otherwise it returns a buffer over buf with that op |
| ObjectReductionBufs.ObjectItemReductionBuf.Init | src/main/java/edu/rit/mp/buf/ObjectItemReductionBuf.java:66 | the length is 1, and nothing has been folded in yet |
| ObjectReductionBufs.ObjectItemReductionBuf.GetIgnoresIndex | src/main/java/edu/rit/mp/buf/ObjectItemReductionBuf.java:88-92 | get(i) is the wrapped buffer's item for every i |
| ObjectReductionBufs.ObjectItemReductionBuf.Put | src/main/java/edu/rit/mp/buf/ObjectItemReductionBuf.java:105-112 | the wrapped item becomes op(old item, x) whatever i is; both buffers are reset once; the wrapped item remains the left fold of op over everything put |
| ObjectReductionBufs.FoldLeftAppend | src/main/java/edu/rit/mp/buf/ObjectItemReductionBuf.java:109 | folding xs and then ys is folding xs + ys |
| ObjectReductionBufs.ObjectItemReductionBuf.GetReductionBuf | src/main/java/edu/rit/mp/buf/ObjectItemReductionBuf.java:124-128 | always fails with UnsupportedOperationException |
| Refinement.RefinementData.constructor | modules/xray/src/main/java/ffx/xray/RefinementData.java:45-56 | all eight tables have n rows of two zero entries; freer has n zero entries; anisok has 6 zero entries; the rows of the seven fixed-row tables are pairwise distinct arrays (Valid); the rows of sigmaa are new arrays, distinct from each other and from every fixed-table row |
| Refinement.NewThenSsigmaa | modules/xray/src/main/java/ffx/xray/RefinementData.java:45-147 | on a new RefinementData, ssigmaa(i, v) reads back as v while every fixed-table entry and every other sigmaa row keeps its zeros |
| Refinement.RefinementData.SetF | modules/xray/src/main/java/ffx/xray/RefinementData.java:58-64 | afterwards f(i) is v and sigf(i) is unchanged; no other table, row or column changes |
| Refinement.RefinementData.SetSigf | modules/xray/src/main/java/ffx/xray/RefinementData.java:66-72 | afterwards sigf(i) is v and f(i) is unchanged; no other entry changes |
| Refinement.RefinementData.F | modules/xray/src/main/java/ffx/xray/RefinementData.java:62-64 | f(i) is entry 0 of the row fsigf(i) returns; SetF's ensures reads a stored F back through it |
| Refinement.RefinementData.Sigf | modules/xray/src/main/java/ffx/xray/RefinementData.java:70-72 | sigf(i) is entry 1 of the row fsigf(i) returns; SetSigf's ensures reads a stored sigF back through it |
| Refinement.RefinementData.FsigfRow | modules/xray/src/main/java/ffx/xray/RefinementData.java:74-76 | returns row i of fsigf itself, a two-entry array |
| Refinement.RefinementData.Freer | modules/xray/src/main/java/ffx/xray/RefinementData.java:82-84 | freer(i) is the flag isfreer(i, f) tests for, and isfreer(i) holds iff it is 1 |
| Refinement.RefinementData.IsFreer | modules/xray/src/main/java/ffx/xray/RefinementData.java:90-92 | isfreer(i) is isfreer(i, 1) |
| Refinement.RefinementData.SetFreer | modules/xray/src/main/java/ffx/xray/RefinementData.java:78-92 | afterwards freer(i) is f, isfreer(i, f) holds, and isfreer(i) holds iff f is 1; other flags are unchanged |
| Refinement.RefinementData.GetComplex | modules/xray/src/main/java/ffx/xray/RefinementData.java:99-182 | fc(i), fs(i), fctot(i), fofc2(i), fofc1(i), fd(i) return a new complex of columns 0 and 1 of row i; SetComplex's ensures reads a stored complex back through it |
| Refinement.RefinementData.SetComplex | modules/xray/src/main/java/ffx/xray/RefinementData.java:94-182 | each complex setter (fc, fs, fctot, fofc2, fofc1, fd) stores re and im in columns 0 and 1 of row i, and its getter returns the same complex; no other row or table changes |
| Refinement.RefinementData.SigmaaRow | modules/xray/src/main/java/ffx/xray/RefinementData.java:133-135 | sigmaa(i) returns row i itself, not a copy |
| Refinement.RefinementData.Ssigmaa | modules/xray/src/main/java/ffx/xray/RefinementData.java:145-147 | ssigmaa(i) is entry 0 of the row sigmaa(i) returns, whatever array that is |
| Refinement.RefinementData.Wsigmaa | modules/xray/src/main/java/ffx/xray/RefinementData.java:153-155 | wsigmaa(i) is entry 1 of the row sigmaa(i) returns, whatever array that is |
| Refinement.RefinementData.SetSigmaaRow | modules/xray/src/main/java/ffx/xray/RefinementData.java:137-139 | row i of sigmaa becomes the caller's array itself; other rows and all other tables are unchanged |
| Refinement.RefinementData.SetSsigmaa | modules/xray/src/main/java/ffx/xray/RefinementData.java:141-147 | column 0 of sigmaa row i is set and read back; the other columns of that row and all other tables are unchanged |
| Refinement.RefinementData.SetWsigmaa | modules/xray/src/main/java/ffx/xray/RefinementData.java:149-155 | column 1 of sigmaa row i is set and read back; the other columns of that row and all other tables are unchanged |
| Refinement.RefinementData.SigmaaRowIsShared | modules/xray/src/main/java/ffx/xray/RefinementData.java:137-143 | after sigmaa(i, d), a later ssigmaa(i, v) writes into the caller's array d |
| Refinement.RefinementData.SigmaaAliasesFsigf | modules/xray/src/main/java/ffx/xray/RefinementData.java:74-143 | after sigmaa(i, fsigf(j)), ssigmaa(i, v) changes f(j) to v |
| Diffraction.LastIndexOf | modules/xray/src/main/java/ffx/xray/DiffractionFile.java:56 | the last position of c in s, or −1 when c does not occur |
| Diffraction.IsAnyExtensionPair | modules/xray/src/main/java/ffx/xray/DiffractionFile.java:58-61 | a name has one of two extensions iff its extension is one of them |
| Diffraction.ExtensionOfAppended | modules/xray/src/main/java/ffx/xray/DiffractionFile.java:94-116 | for a plain extension e, base + "." + e has extension e, and removing it gives back base |
| Diffraction.NameOfAppended | modules/xray/src/main/java/ffx/xray/DiffractionFile.java:129 | the file name of base + "." + e is the file name of base followed by "." + e |
| Diffraction.FilterOf | modules/xray/src/main/java/ffx/xray/DiffractionFile.java:56-64 | MTZ iff the extension is mtz; CIF iff it is cif or ent; CNS iff it is cns or hkl; no filter iff it is none of these |
| Diffraction.FromName | modules/xray/src/main/java/ffx/xray/DiffractionFile.java:50-69 | filename, weight and neutron come from the arguments whether or not the file exists, and the filter is FilterOf(filename) |
| Diffraction.FromNameDefaults | modules/xray/src/main/java/ffx/xray/DiffractionFile.java:42-48 | the one- and two-argument constructors default the weight to 1.0 and neutron to false |
| Diffraction.FromAssembly | modules/xray/src/main/java/ffx/xray/DiffractionFile.java:92-132 | weight and neutron come from the arguments; the filter is null iff none of the .mtz, .cif, .ent, .cns, .hkl files of the assembly's base name exists |
| Diffraction.FromAssemblyDefaults | modules/xray/src/main/java/ffx/xray/DiffractionFile.java:84-90 | the assembly constructors with fewer arguments default the weight to 1.0 and neutron to false |
| Diffraction.FromAssemblies | modules/xray/src/main/java/ffx/xray/DiffractionFile.java:71-82 | the array constructors use assembly[0] only, and fail with ArrayIndexOutOfBoundsException iff the array is empty |
| Diffraction.FirstPresentSpec | modules/xray/src/main/java/ffx/xray/DiffractionFile.java:96-127 | the probe search returns the first probe from k on whose file exists, or none if no such file exists |
| Diffraction.AssemblyProbeOrder | modules/xray/src/main/java/ffx/xray/DiffractionFile.java:94-131 | with the first existing probe among .mtz, .cif, .ent, .cns, .hkl, the filter is that probe's and the filename is its name; with none, the filter is null and the filename is the .hkl name |
| Diffraction.ProbeFilterAgrees | modules/xray/src/main/java/ffx/xray/DiffractionFile.java:96-127 | each probe's filter is the filter its extension selects by the name rule |
| Diffraction.AssemblyFilterMatchesName | modules/xray/src/main/java/ffx/xray/DiffractionFile.java:94-131 | a filter found by the assembly constructor is the one the name rule gives for its filename; with no filter, the name rule would still give CNS for that filename |
| Diffraction.AssemblyNoDataFile | modules/xray/src/main/java/ffx/xray/DiffractionFile.java:120-123 | when none of the five probe files exists, there is no filter |
| LambdaMoves.Reflect | modules/algorithms/src/main/java/ffx/algorithms/mc/LambdaMove.java:73-77 | the proposal is kept, reflected about 1 or reflected about 0; a non-negative proposal never ends above 1, and one not above 1 never ends below 0 |
| LambdaMoves.ReflectKeepsUnitInterval | modules/algorithms/src/main/java/ffx/algorithms/mc/LambdaMove.java:73-78 | a proposal already in [0, 1] is used unchanged |
| LambdaMoves.ReflectIsFold | modules/algorithms/src/main/java/ffx/algorithms/mc/LambdaMove.java:73-77 | on [−1, 2], the single reflection equals the full reflection into [0, 1] |
| LambdaMoves.SmallStepStaysInRange | modules/algorithms/src/main/java/ffx/algorithms/mc/LambdaMove.java:70-77 | from lambda in [0, 1], a step with abs(dL) ≤ 1 lands in [0, 1] |
| LambdaMoves.LargeStepEscapes | modules/algorithms/src/main/java/ffx/algorithms/mc/LambdaMove.java:73-77 | because the reflection is applied once, steps larger than 1 can leave [0, 1] (0.5 + 2.0 gives −0.5, and 0.5 − 2.5 gives 2.0) |
| LambdaMoves.LambdaMove.constructor | modules/algorithms/src/main/java/ffx/algorithms/mc/LambdaMove.java:53-62 | as written: sigma is 0.1 and the field currentLambda stays 0.0, because the assignment goes to the parameter |
| LambdaMoves.LambdaMove.Corrected | modules/algorithms/src/main/java/ffx/algorithms/mc/LambdaMove.java:58-62 | the intended constructor: currentLambda is the walk's lambda |
| LambdaMoves.LambdaMove.Move | modules/algorithms/src/main/java/ffx/algorithms/mc/LambdaMove.java:65-79 | currentLambda becomes the walk's old lambda; the walk's lambda becomes Reflect(old + dL); it lies in [0, 1] when the old value did and abs(dL) ≤ 1 |
| LambdaMoves.LambdaMove.RevertMove | modules/algorithms/src/main/java/ffx/algorithms/mc/LambdaMove.java:82-84 | the walk's lambda is set back to currentLambda |
| LambdaMoves.LambdaMove.MoveThenRevert | modules/algorithms/src/main/java/ffx/algorithms/mc/LambdaMove.java:65-84 | a move followed by a revert leaves the walk's lambda where it was |
| LambdaMoves.RevertBeforeMove | modules/algorithms/src/main/java/ffx/algorithms/mc/LambdaMove.java:58-84 | with the constructor as written, a revert before any move sets lambda to 0.0 whatever it was |
| LambdaMoves.RevertBeforeMoveCorrected | modules/algorithms/src/main/java/ffx/algorithms/mc/LambdaMove.java:58-84 | with the corrected constructor, a revert before any move leaves lambda unchanged |

## Left out

- The numerics of the 1-D transforms (`Complex.fft`/`ifft`, twiddle factors, accuracy). They are floating-point work in a class that is not part of this model. Here they are an abstract `Engine` that only touches its own line.
- The parallel team, regions, schedules, barriers and thread indices of `Complex3DParallel`. One worker runs each loop over the whole index range. The chunk lemmas show that any split into disjoint ranges gives the same result.
- `System.nanoTime` timing, logging, the `System.exit` path of `ifft`, and the benchmarking `main`/`initRandomData`.
- Complex3D.Complex3DParallel.FftZLoop: requires the interleaved layout. Its +2 offset step addresses the pencil only in that layout (see Findings).
- Complex3D.Complex3DParallel.IfftZLoop: requires the interleaved layout, for the same reason and for the stride 2 it passes to `ifft`.
- Complex3D.Complex3DParallel.FftZizLoop: requires the interleaved layout, for the same reason.
- Complex3D.Complex3DParallel.Fft: requires the interleaved layout, because it runs the Z loops above. The source accepts every DataLayout3D here, and for the other three layouts nothing is proved.
- Complex3D.Complex3DParallel.FftRegion: requires the interleaved layout, because it runs the Z loops above. The source accepts every DataLayout3D here, and for the other three layouts nothing is proved.
- Complex3D.Complex3DParallel.Ifft: requires the interleaved layout, because it runs the Z loops above. The source accepts every DataLayout3D here, and for the other three layouts nothing is proved.
- Complex3D.Complex3DParallel.IfftRegion: requires the interleaved layout, because it runs the Z loops above. The source accepts every DataLayout3D here, and for the other three layouts nothing is proved.
- Complex3D.Complex3DParallel.Convolution: requires the interleaved layout, because it runs the Z loops above. The source accepts every DataLayout3D here, and for the other three layouts nothing is proved.
- Complex3D.Complex3DParallel.ConvolutionRegion: requires the interleaved layout, because it runs the Z loops above. The source accepts every DataLayout3D here, and for the other three layouts nothing is proved.
- Complex3D.Complex3DParallel.FftZPhase: requires the interleaved layout, because it runs the Z loops above. The source accepts every DataLayout3D here, and for the other three layouts nothing is proved.
- Complex3D.Complex3DParallel.IfftZPhase: requires the interleaved layout, because it runs the Z loops above. The source accepts every DataLayout3D here, and for the other three layouts nothing is proved.
- Complex3D.Complex3DParallel.ZizPhase: requires the interleaved layout, because it runs the Z loops above. The source accepts every DataLayout3D here, and for the other three layouts nothing is proved.
- `fc_f` and `fc_phi` of `RefinementData`: the modulus and phase of a foreign `Complex`, in floating point.
- Refinement.RefinementData.constructor: Java doubles are reals. The ghost ownership map that records which table and row each row array belongs to is proof bookkeeping only.
- `getReductionBuf` of `IntegerMatrixBuf` and `Unsigned16BitIntegerArrayBuf`, `copy` from a different buffer, and `defaultCopy`: their code is in classes that are not part of this model.
- ObjectReductionBufs.ObjectItemReductionBuf.Put: counts the two `reset()` calls but does not model what `reset` does, which is message-layer state not shown here.
- IntegerMatrixBufs.IntegerMatrixBuf.Put: the matrix is a rectangular `array2`, so rows are assumed to be distinct arrays. A Java `int[][]` may hold the same row array twice, and then `put(i)` also changes the items of the other row; "every other item unchanged" does not hold for such a matrix.
- IntegerMatrixBufs.IntegerMatrixBuf.ReceiveItems: rows are assumed to be distinct arrays, as for Put. With a shared row array, a later item written by the receive can overwrite an earlier one.
- IntegerMatrixBufs.IntegerMatrixBuf.ReceiveItems: assumes item counts and byte positions fit in a Java int. 32-bit overflow of `i2r`/`i2c` arithmetic and of `4*n` is not modelled.
- Unsigned16Bufs.Unsigned16BitIntegerArrayBuf.SendItems: the array offset `myArrayOffset + i*myStride` is taken as a mathematical integer. The constructor requires the array to have fewer than 2^31 elements.
- DiffractionFile logging, and the existence check of the name constructor, which only logs. A null argument, which would throw NullPointerException, is not modelled.
- Diffraction.FilterOf: the extension is what follows the last dot after the last '/' or '\\'. Platform-specific details of commons-io `isExtension` (NTFS alternate data streams, illegal characters) are not modelled.
- Diffraction.FromAssembly: `File` path normalisation is not modelled. The filename is the text after the last '/'.
- `getWeight` and `isNeutron` are plain field reads of the datatype.
- LambdaMoves.LambdaMove.Move: the normal draw `dist.sample()` is the parameter dL. Floating-point rounding is not modelled. `setLambda` on the random walk is modelled only by its effect on lambda.
- The `MCMove` interface: `LambdaMove.move()` returns void while the interface declares a double, so the two are modelled separately and the interface not at all.

## Findings

| source | as written | input that shows it | evidently intended | confidence | as-written member | corrected member |
|---|---|---|---|---|---|---|
| modules/numerics/src/main/java/ffx/numerics/fft/Complex3DParallel.java:483 | the Z loops step the pencil offset by a hard-coded 2, which is the pencil base only in the interleaved layout | BlockedXYZ layout, nX = nY = nZ = 2: pencil 3's line reaches slot 18 of a 16-slot array | step to the base of pencil (x, y) in the chosen layout, x·nextX + y·nextY | medium (the class comment describes the interleaved layout only), not executed | FftPasses.ZLineAsWrittenLeavesArray | FftPasses.PencilOk |
| modules/numerics/src/main/java/ffx/numerics/fft/Complex3DParallel.java:557 | IFFTZLoop passes stride 2 for the workspace line, where FFTZLoop passes internalNextZ | BlockedX layout, nZ = 2: the stride-2 line reaches slot 4 of the 4-slot workspace | stride internalNextZ, as in FFTZLoop at line 489 | medium, not executed | FftPasses.IfftWorkLineLeavesWorkspace | FftPasses.WorkLineOk |
| src/main/java/edu/rit/mp/buf/IntegerMatrixBuf.java:208 | the first row's inner loop runs `while (c < ncols)`, comparing a column index with a count | a 2×3 view sent from item 2 with room for 3 ints puts 3 ints but reports 4 items | put ncols cells from column c, that is `c < start + ncols` | high, not executed | IntegerMatrixBufs.AsWrittenMidRowExample | IntegerMatrixBufs.IntegerMatrixBuf.SendItemsCorrected |
| modules/algorithms/src/main/java/ffx/algorithms/mc/LambdaMove.java:60 | the constructor assigns the walk's lambda to the parameter `currentLambda`, which shadows the field | construct at lambda 0.7, then revertMove before any move: lambda becomes 0.0 | `this.currentLambda = osrw.getLambda()` | high, not executed | LambdaMoves.RevertBeforeMove | LambdaMoves.RevertBeforeMoveCorrected |
