# Glow core: CPU kernels, operator importer, ONNXIFI status protocol

This project models three parts of the Glow neural-network compiler and proves
properties of each.

- **The CPU backend kernel library** (`libjit.c`). Tensors are flat row-major
  buffers in NHWC layout. Every kernel addresses them through
  `libjit_getXY/XYZ/XYZW`. Elements are exact `real` numbers, so the kernels
  become statements about index arithmetic, window clipping and which input
  cell feeds which output cell. The kernels modelled are:
  - the element-wise loops;
  - transpose;
  - batched matmul, add and reduce-add;
  - max-pool, with and without argmax recording;
  - average pool;
  - the gradients of both pools;
  - convolution, its 4-way unrolled variant and its gradient;
  - the softmax gradient.
- **The common operator importer** (`CommonOperatorLoader.h`). The graph is an
  append-only sequence of nodes. The name-to-NodeValue environment is a
  `map<string, NodeValue>`. Each `load*` handler is a pure function from state
  to state, and `tryLoadCommonOperator` dispatches on the operator name.
- **The ONNXIFI entry points** (`onnxifiGlow.cpp`). Handles are optional
  abstract values. Each entry point is a pure function from its inputs to a
  status and the outputs it writes. Its fixed-order cascade of validity checks
  is also stated as a list of checks (`Onnxifi.Cascade`), and a lemma proves
  the status is the first failing check's code.

Modules:
- `Index`: flat offsets and their inverse.
- `Sums`: sums and scatter-add streams.
- `Elementwise`, `Transpose`, `Batched`, `Pooling`, `ConvOperands` and
  `Convolution`: the kernels.
- `Loader`: the importer.
- `Onnxifi`: the ONNXIFI entry points.
- `Optional`: the `Option` type.

Kernels that accumulate (`+=` into a zeroed buffer) are modelled as a stream of
`(cell, value)` contributions folded into the buffer (`Sums.ScatterAdd`). The
properties of a stream are proved once, in `Sums`:
- the value that reaches each cell (`Sums.ScatterGather`);
- the total it adds (`Sums.ScatterTotal`);
- its inner product with any weight vector (`Sums.ScatterDot`).

## Model

| member | source | states |
|---|---|---|
| Index.GetXYZW | lib/Backends/CPUBackend/libjit.c:11-15 | an in-range coordinate's offset lies inside the buffer |
| Index.GetXYZWFormula | lib/Backends/CPUBackend/libjit.c:11-15 | the offset is x·d1·d2·d3 + y·d2·d3 + z·d3 + w |
| Index.GetXYZFormula | lib/Backends/CPUBackend/libjit.c:18-20 | the offset is x·d1·d2 + y·d2 + z |
| Index.GetXYFormula | lib/Backends/CPUBackend/libjit.c:23-25 | the offset is x·d1 + y |
| Index.GetXYZWInjective | lib/Backends/CPUBackend/libjit.c:11-15 | two in-range coordinates with the same offset are equal |
| Index.GetXYZInjective | lib/Backends/CPUBackend/libjit.c:18-20 | the same for three coordinates |
| Index.GetXYInjective | lib/Backends/CPUBackend/libjit.c:23-25 | the same for two coordinates |
| Index.UnravelXYZW | lib/Backends/CPUBackend/libjit.c:11-15 | decoding the offset of an in-range coordinate gives that coordinate back |
| Index.XYZWOfUnravel | lib/Backends/CPUBackend/libjit.c:11-15 | every offset below the volume is the offset of exactly the in-range coordinate it decodes to |
| Elementwise.Splat | lib/Backends/CPUBackend/libjit.c:27-31 | the first sz elements become val and the rest are unchanged |
| Elementwise.ElementMax | lib/Backends/CPUBackend/libjit.c:33-38 | each of the first sz elements is at least both operands and equals one of them |
| Elementwise.ElementMax0 | lib/Backends/CPUBackend/libjit.c:40-44 | each element is at least 0 and at least the operand, and equals one of them |
| Elementwise.Max0IsMaxWithZeros | lib/Backends/CPUBackend/libjit.c:40-44 | max with 0 is the binary max against a zero-splatted buffer |
| Elementwise.ElementMin | lib/Backends/CPUBackend/libjit.c:46-51 | each element is at most both operands and equals one of them |
| Elementwise.ElementSelect | lib/Backends/CPUBackend/libjit.c:53-58 | a nonzero condition picks LHS and a zero condition picks RHS |
| Elementwise.MinIsSelectOfCmp | lib/Backends/CPUBackend/libjit.c:46-58 | min equals select driven by the `<=` comparison |
| Elementwise.MaxIsSelectOfCmp | lib/Backends/CPUBackend/libjit.c:33-58 | max equals select driven by the `<=` comparison with the arms swapped |
| Elementwise.CopyBuffer | lib/Backends/CPUBackend/libjit.c:115-119 | the first `bytes` elements come from src and the rest of dest is unchanged |
| Elementwise.ElementCmpLteAsWritten | lib/Backends/CPUBackend/libjit.c:121-126 | the kernel as written yields 1 exactly where LHS < RHS, and 0 elsewhere |
| Elementwise.CmpLteAsWrittenRejectsEqual | lib/Backends/CPUBackend/libjit.c:121-126 | equal operands yield 0 from the kernel named "less or equal" |
| Elementwise.ElementCmpLte | lib/Backends/CPUBackend/libjit.c:121-126 | the corrected kernel yields 1 exactly where LHS <= RHS, and 0 elsewhere |
| Elementwise.ElementSub | lib/Backends/CPUBackend/libjit.c:128-133 | each of the first numElem elements is LHS - RHS at that index and the rest of dest is unchanged |
| Elementwise.ElementAdd | lib/Backends/CPUBackend/libjit.c:135-140 | each of the first numElem elements is LHS + RHS at that index and the rest of dest is unchanged |
| Elementwise.ElementDiv | lib/Backends/CPUBackend/libjit.c:142-147 | each of the first numElem elements is LHS / RHS at that index and the rest of dest is unchanged |
| Elementwise.ElementMul | lib/Backends/CPUBackend/libjit.c:149-154 | each of the first numElem elements is LHS * RHS at that index and the rest of dest is unchanged |
| Elementwise.SubUndoesAdd | lib/Backends/CPUBackend/libjit.c:128-140 | subtracting RHS after adding it restores LHS on the first numElem elements |
| Elementwise.DivUndoesMul | lib/Backends/CPUBackend/libjit.c:142-154 | dividing by a nonzero RHS after multiplying by it restores LHS |
| Elementwise.SoftMaxGradCell | lib/Backends/CPUBackend/libjit.c:649-657 | the gradient is outW - 1 at the selected class and outW at every other class |
| Elementwise.SoftMaxGradRowSum | lib/Backends/CPUBackend/libjit.c:649-657 | a row of the gradient sums to the row of outW minus one, when the selected class is in range |
| Transpose.TransposeCell | lib/Backends/CPUBackend/libjit.c:672-712 | out[o] = in[SC], where SC[shuffle[k]] = o[k] for every in-range output coordinate, in ranks 2 to 4 |
| Transpose.Transpose4Cell | lib/Backends/CPUBackend/libjit.c:678-690 | the same in the kernel's own getXYZW terms for rank 4 |
| Transpose.Transpose2Cell | lib/Backends/CPUBackend/libjit.c:704-711 | the same in getXY terms for rank 2 |
| Transpose.Transpose | lib/Backends/CPUBackend/libjit.c:672-712 | a shuffle outside ranks 2 to 4 leaves the output untouched |
| Transpose.TransposeRoundTrip | lib/Backends/CPUBackend/libjit.c:672-712 | transposing by the inverse shuffle returns the original buffer |
| Transpose.InverseInverse | lib/Backends/CPUBackend/libjit.c:672-712 | the inverse of a permutation is a permutation whose inverse is the original |
| Batched.BatchedMatMulCell | lib/Backends/CPUBackend/libjit.c:60-88 | dest[n,x,y] is the dot product of LHS row (ln,x) and RHS column (rn,y), where ln = 0 for a batch of one and ln = n otherwise, and likewise for rn |
| Batched.BatchedMatMul | lib/Backends/CPUBackend/libjit.c:60-88 | dest past the result's volume is unchanged |
| Batched.MatMulBroadcastIsTiling | lib/Backends/CPUBackend/libjit.c:60-88 | a batch-of-one LHS gives the same result as the LHS tiled to the full batch |
| Batched.BatchedAdd | lib/Backends/CPUBackend/libjit.c:90-100 | dest[n·s+i] = batch[n·s+i] + slice[i], and the tail is unchanged |
| Batched.BatchedReduceAdd | lib/Backends/CPUBackend/libjit.c:102-113 | dest[i] is the column sum of batch over all slices, entries in [sliceSize, destSize) stay 0, and those past destSize are untouched |
| Batched.ColumnSumOfBatchedAdd | lib/Backends/CPUBackend/libjit.c:90-113 | reducing a batched add gives the reduced batch plus numSlice copies of the slice |
| Pooling.TapAt | lib/Backends/CPUBackend/libjit.c:427-437 | a window tap has a value exactly when it lies inside the input plane |
| Pooling.ScanMax | lib/Backends/CPUBackend/libjit.c:422-444 | the scan finds no tap iff every tap is out of bounds; otherwise its value is attained, bounds every tap, and is strictly above every later tap |
| Pooling.PoolMaxCell | lib/Backends/CPUBackend/libjit.c:409-451 | each output cell is the maximum of its window's in-bounds taps; channels beyond the input keep their old value |
| Pooling.WindowMaxBound | lib/Backends/CPUBackend/libjit.c:422-446 | no in-bounds tap exceeds the pooled value |
| Pooling.WindowMaxAttained | lib/Backends/CPUBackend/libjit.c:422-446 | some in-bounds tap equals the pooled value |
| Pooling.WindowMaxEmpty | lib/Backends/CPUBackend/libjit.c:422-446 | a window with no in-bounds tap pools to the initial 0 |
| Pooling.LaterInScan | lib/Backends/CPUBackend/libjit.c:425-426 | the flat scan position orders taps exactly as the fx-then-fy loop nest does |
| Pooling.PoolMaxXYCell | lib/Backends/CPUBackend/libjit.c:453-500 | each output cell is the window maximum, and inXY[2o] and inXY[2o+1] hold the position of the recorded tap |
| Pooling.PoolMaxXYAgrees | lib/Backends/CPUBackend/libjit.c:409-500 | the recording kernel computes the same output as the plain max-pool |
| Pooling.ArgMaxInWindow | lib/Backends/CPUBackend/libjit.c:479-495 | the recorded position lies in the window and holds the maximum |
| Pooling.ArgMaxIsLastMax | lib/Backends/CPUBackend/libjit.c:481-486 | the `>=` tie-break keeps the last maximum: every later in-bounds tap is strictly smaller |
| Pooling.CoveredWindowHasTap | lib/Backends/CPUBackend/libjit.c:464-466 | under the every-window-has-a-tap condition, each window records a tap |
| Pooling.ClearPlanesCell | lib/Backends/CPUBackend/libjit.c:506-513 | the planes of the output's batches and channels are zeroed and others kept |
| Pooling.PoolMaxGradCell | lib/Backends/CPUBackend/libjit.c:502-529 | each input-gradient cell is the sum of the outG elements whose recorded argmax is that cell |
| Pooling.MaxGradTarget | lib/Backends/CPUBackend/libjit.c:519-524 | outG[o] goes to (n, maxX, maxY, z) exactly when o has batch n, channel z and that recorded position |
| Pooling.PoolMaxGradUnrecorded | lib/Backends/CPUBackend/libjit.c:502-529 | a cell no window recorded ends at 0 |
| Pooling.PoolMaxGradConserves | lib/Backends/CPUBackend/libjit.c:502-529 | the gradient's total equals the total of outG |
| Pooling.MaxGradDotPlane | lib/Backends/CPUBackend/libjit.c:515-525 | every gradient of output plane (n, z) lands in input plane (n, z): the stream weighted by the input plane's indicator equals outG weighted by the output plane's indicator |
| Pooling.PoolMaxGradPlane | lib/Backends/CPUBackend/libjit.c:502-529 | for each batch n and channel z the output covers, the input gradient's plane (n, z) sums to outG's plane (n, z) |
| Pooling.Area | lib/Backends/CPUBackend/libjit.c:534 | the number of taps of a window is the square of the filter size: `filterArea`, the divisor of average pooling (used at line 561), and `kernelArea` (line 571), the divisor of its gradient (used at line 587) |
| Pooling.PoolAvgCell | lib/Backends/CPUBackend/libjit.c:531-566 | each output cell is the sum of its in-bounds taps divided by filterSize², whatever the tap count |
| Pooling.PoolAvgOfConstant | lib/Backends/CPUBackend/libjit.c:531-566 | on a constant input a window holding every tap averages to the constant; a clipped one gives count·v/filterSize² |
| Pooling.PoolAvgGradCell | lib/Backends/CPUBackend/libjit.c:568-603 | for every kernel size, 0 included, a cell of a plane the output covers ends at Shares: the sum of outG[o] / kernel² over exactly the output cells o whose window has that cell as a tap; a cell of any other plane keeps its inG value |
| Pooling.AvgGradStreamGather | lib/Backends/CPUBackend/libjit.c:579-598 | the contributions of the first m output cells gather, at every input cell, exactly the Shares of the windows among them that cover it |
| Pooling.CellStreamGather | lib/Backends/CPUBackend/libjit.c:585-596 | one output cell sends outG[o] / kernel² to an input cell once if its window covers that cell, and nothing otherwise |
| Pooling.WindowStreamGather | lib/Backends/CPUBackend/libjit.c:587-596 | the first m taps of a window reach a cell once exactly when it is an in-bounds tap scanned before position m |
| Pooling.SharesOutsidePlanes | lib/Backends/CPUBackend/libjit.c:572-573 | no window covers a cell outside the output's batches and channels |
| Pooling.WindowStreamTotal | lib/Backends/CPUBackend/libjit.c:587-598 | a window whose taps are all in bounds spreads filterSize² shares |
| Pooling.PoolAvgGradConserves | lib/Backends/CPUBackend/libjit.c:568-603 | when every window is inside the input and the output has the input's batches and channels, the gradient's total equals the total of outG |
| Pooling.PoolAvgGradPlane | lib/Backends/CPUBackend/libjit.c:568-603 | when every window is inside the input, for each batch n and channel z the output covers, the input gradient's plane (n, z) sums to outG's plane (n, z) |
| Pooling.AvgGradSelectPlane | lib/Backends/CPUBackend/libjit.c:574-600 | the first m output cells add to input plane (n, z) exactly the sum of those of the first m output gradients that lie in plane (n, z) |
| Pooling.CellStreamPlane | lib/Backends/CPUBackend/libjit.c:584-598 | a window inside the input sends all of outG[o] to o's own plane and nothing to any other plane |
| Pooling.WindowStreamPlane | lib/Backends/CPUBackend/libjit.c:588-597 | the first m taps of a window add one share per in-bounds tap to the window's own plane and nothing to any other |
| Pooling.EmptyKernelStream | lib/Backends/CPUBackend/libjit.c:588-589 | with kernel 0 the tap loops never run, so no output cell contributes anything |
| Pooling.EmptyKernelShares | lib/Backends/CPUBackend/libjit.c:588-589 | with kernel 0 no window covers any cell, so every Shares sum is 0 |
| Convolution.ConvolutionCell | lib/Backends/CPUBackend/libjit.c:234-279 | out[n,ax,ay,d] is the window dot product over in-bounds taps and all channels; batches beyond the input keep their old value |
| Convolution.ConvolutionIsFilteredPlusBias | lib/Backends/CPUBackend/libjit.c:234-279 | each output is bias[d] plus the filtered sum |
| Convolution.SkippingIsZeroPadding | lib/Backends/CPUBackend/libjit.c:255-271 | skipping out-of-bounds taps gives the same output as convolving a zero-padded input |
| Convolution.UnrolledBlockLane | lib/Backends/CPUBackend/libjit.c:156-232 | lane j of an unrolled block of four is the plain convolution at channel d+j |
| Convolution.UnrolledAgrees | lib/Backends/CPUBackend/libjit.c:156-279 | with a channel count divisible by 4, the unrolled kernel produces the same buffer as the plain one |
| Convolution.ConvGradInputAdjoint | lib/Backends/CPUBackend/libjit.c:281-328 | the input gradient is the adjoint of the filtering map in the input: ⟨inG, w⟩ = ⟨outG, conv(w, filter)⟩ |
| Convolution.ConvGradFilterAdjoint | lib/Backends/CPUBackend/libjit.c:281-328 | the filter gradient is the adjoint in the filter: ⟨filterG, w⟩ = ⟨outG, conv(input, w)⟩ |
| Convolution.ConvGradBias | lib/Backends/CPUBackend/libjit.c:281-328 | biasG[d] is the sum of outG over channel d |
| Convolution.ConvGradBiasTotal | lib/Backends/CPUBackend/libjit.c:281-328 | the first depth entries of biasG are replaced, and biasG's total becomes the total of its untouched tail plus the total of outG |
| Sums.ScatterGather | lib/Backends/CPUBackend/libjit.c:519-524 | after the `+=` loop a cell holds its old value plus every contribution aimed at it |
| Sums.ScatterTotal | lib/Backends/CPUBackend/libjit.c:519-524 | the `+=` loop adds the total of its contributions to the buffer's total |
| Sums.ScatterDot | lib/Backends/CPUBackend/libjit.c:313-318 | the `+=` loop adds the stream's weighted sum to the buffer's inner product with any weights |
| Loader.DefaultBroadcast | include/glow/Importer/CommonOperatorLoader.h:42 | broadcasting is on unless a subclass says otherwise |
| Loader.AddNodeAsOutput | include/glow/Importer/CommonOperatorLoader.h:44-48 | output(i) is bound to result i of the node, the last duplicate name wins, and every other name keeps its binding |
| Loader.Resolve | include/glow/Importer/CommonOperatorLoader.h:53 | a bound name resolves with no change; an unbound one becomes a new Variable node |
| Loader.LoadUnary | include/glow/Importer/CommonOperatorLoader.h:51-63 | Relu and Sigmoid append one node on the resolved input and bind the outputs to it |
| Loader.LoadSum | include/glow/Importer/CommonOperatorLoader.h:65-73 | Sum appends one Add of its two inputs |
| Loader.LoadSoftmax | include/glow/Importer/CommonOperatorLoader.h:75-89 | "softmax_expected" is resolved first, the input is flattened at axis 1, and SoftMax reads the flatten node and the expected values |
| Loader.LayoutShufflesInverse | include/glow/Importer/CommonOperatorLoader.h:100-105 | NCHW→NHWC and NHWC→NCHW are permutations and each other's inverse |
| Loader.LoadLRN | include/glow/Importer/CommonOperatorLoader.h:91-110 | three nodes are chained (transpose, LRN with halfWindow = size/2, transpose back), and only output(0) is bound |
| Loader.BroadcastAxis | include/glow/Importer/CommonOperatorLoader.h:122-126 | a missing or -1 axis becomes rank(in0) − rank(in1) |
| Loader.BroadcastOperand | include/glow/Importer/CommonOperatorLoader.h:118-131 | with broadcast on, in1 is broadcast to in0's dims; with it off, in1 is used unchanged |
| Loader.LoadArithmetic | include/glow/Importer/CommonOperatorLoader.h:112-147 | the arithmetic node reads in0 and the possibly broadcast in1, and binds the outputs |
| Loader.SplitAxis | include/glow/Importer/CommonOperatorLoader.h:152 | the split axis defaults to 0 |
| Loader.LoadSplit | include/glow/Importer/CommonOperatorLoader.h:149-165 | one slice node per output, and output(i) is bound to result 0 of slice i |
| Loader.LoadFlatten | include/glow/Importer/CommonOperatorLoader.h:228-234 | the flatten axis defaults to 1 |
| Loader.LoadDropout | include/glow/Importer/CommonOperatorLoader.h:236-243 | no node is created; output(0) is bound to the input's node and no other name changes |
| Loader.ReshapeDimsEntries | include/glow/Importer/CommonOperatorLoader.h:172-191 | a 0 entry keeps the old extent, a -1 entry is the floor of size over the known product, and other entries are kept |
| Loader.ReshapeKeepsSize | include/glow/Importer/CommonOperatorLoader.h:172-191 | with one -1 and exact divisibility, the new dims multiply to the input size |
| Loader.ReshapeInfersExtent | include/glow/Importer/CommonOperatorLoader.h:172-191 | shape [4, -1] on a 2×3×4 input gives [4, 6] |
| Loader.ReshapeKeepsZeroEntry | include/glow/Importer/CommonOperatorLoader.h:172-191 | shape [0, 6] on a 4×6 input gives [4, 6] |
| Loader.LoadReshape | include/glow/Importer/CommonOperatorLoader.h:167-205 | the Reshape node gets the resolved shape attribute, or the contents of the second input's tensor; only output(0) is bound |
| Loader.TransposePerm | include/glow/Importer/CommonOperatorLoader.h:215-221 | an empty permutation becomes [N−1, …, 0]; other entries are taken modulo 2^32 |
| Loader.ReversedAxesSelfInverse | include/glow/Importer/CommonOperatorLoader.h:215-221 | the reversed axis order is a permutation and its own inverse |
| Loader.LoadTranspose | include/glow/Importer/CommonOperatorLoader.h:207-226 | one Shuffle node with the resolved permutation |
| Loader.LoadTransposeDefault | include/glow/Importer/CommonOperatorLoader.h:207-226 | with an empty permutation the node reverses the input's axes, and that shuffle is self-inverse |
| Loader.TryLoadCommonOperator | include/glow/Importer/CommonOperatorLoader.h:248-292 | returns true iff the name is one of the 13 handled operators; on false the graph and environment are unchanged |
| Onnxifi.OutcomeFirstFailure | lib/Onnxifi/onnxifiGlow.cpp:38-328 | a cascade of checks returns the code of its first failing check, or its final status if none fails |
| Onnxifi.GetBackendIDsAsWritten | lib/Onnxifi/onnxifiGlow.cpp:38-56 | a null count gives INVALID_POINTER, a null array gives FALLBACK with count 1, and otherwise one ID is written with SUCCESS |
| Onnxifi.GetBackendIDsOverrunsCapacity | lib/Onnxifi/onnxifiGlow.cpp:50-53 | an array of capacity 0 still has an ID written into it |
| Onnxifi.GetBackendIDs | lib/Onnxifi/onnxifiGlow.cpp:38-56 | corrected: success iff the array exists and holds at least one ID; nothing is ever written past the capacity |
| Onnxifi.GetBackendIDsAgrees | lib/Onnxifi/onnxifiGlow.cpp:38-56 | the corrected entry point matches the written one whenever the capacity is at least 1 |
| Onnxifi.GetBackendIDsNegotiation | lib/Onnxifi/onnxifiGlow.cpp:38-56 | querying with no array and retrying with the reported count succeeds |
| Onnxifi.ReleaseBackendID | lib/Onnxifi/onnxifiGlow.cpp:61-70 | a null ID gives INVALID_ID, and any other gives SUCCESS |
| Onnxifi.SetInfo | lib/Onnxifi/onnxifiGlow.cpp:72-95 | the size is always set to the needed size; it succeeds iff the buffer exists and is large enough; otherwise FALLBACK with nothing written |
| Onnxifi.CString | lib/Onnxifi/onnxifiGlow.cpp:72-83 | the copied bytes are the string followed by one terminating NUL |
| Onnxifi.SetInfoNegotiation | lib/Onnxifi/onnxifiGlow.cpp:72-95 | retrying with the size a FALLBACK reported succeeds and writes the value |
| Onnxifi.GetBackendInfo | lib/Onnxifi/onnxifiGlow.cpp:98-130 | a null size or ID gives INVALID_POINTER, the six known kinds answer through the size negotiation, and any other kind gives UNSUPPORTED_PARAMETER |
| Onnxifi.GetBackendInfoCascade | lib/Onnxifi/onnxifiGlow.cpp:98-130 | the status is the first failing check in the source's order |
| Onnxifi.BackendNameNeedsFiveBytes | lib/Onnxifi/onnxifiGlow.cpp:111-113 | the name "Glow" needs 5 bytes and is written with its terminator |
| Onnxifi.GetBackendCompatibility | lib/Onnxifi/onnxifiGlow.cpp:133-154 | success iff the model is present, non-empty and parses |
| Onnxifi.GetBackendCompatibilityCascade | lib/Onnxifi/onnxifiGlow.cpp:133-154 | INVALID_POINTER is checked before INVALID_SIZE, and that before UNSUPPORTED_OPERATOR |
| Onnxifi.InitBackend | lib/Onnxifi/onnxifiGlow.cpp:157-173 | a handle is produced iff the status is SUCCESS, and it carries the given ID |
| Onnxifi.InitBackendCascade | lib/Onnxifi/onnxifiGlow.cpp:157-173 | INVALID_POINTER is checked before INVALID_ID |
| Onnxifi.ReleaseBackend | lib/Onnxifi/onnxifiGlow.cpp:176-186 | a null backend gives INVALID_BACKEND |
| Onnxifi.InitEvent | lib/Onnxifi/onnxifiGlow.cpp:189-202 | an event is produced iff the status is SUCCESS |
| Onnxifi.InitEventCascade | lib/Onnxifi/onnxifiGlow.cpp:189-202 | INVALID_POINTER is checked before INVALID_BACKEND |
| Onnxifi.SignalEvent | lib/Onnxifi/onnxifiGlow.cpp:205-217 | success iff the event exists and its signal() returns false; INVALID_STATE exactly when signal() returns true (lines 212-214) |
| Onnxifi.SignalEventCascade | lib/Onnxifi/onnxifiGlow.cpp:205-217 | a null event gives INVALID_EVENT, then INVALID_STATE exactly when signal() returns true, then SUCCESS |
| Onnxifi.WaitEvent | lib/Onnxifi/onnxifiGlow.cpp:220-230 | a null event gives INVALID_EVENT |
| Onnxifi.ReleaseEvent | lib/Onnxifi/onnxifiGlow.cpp:233-243 | a null event gives INVALID_EVENT |
| Onnxifi.InitGraphAsWritten | lib/Onnxifi/onnxifiGlow.cpp:246-272 | a handle is returned iff the status is SUCCESS, but a graph object is allocated whenever the argument checks pass |
| Onnxifi.InitGraphLeaksOnFailure | lib/Onnxifi/onnxifiGlow.cpp:262-267 | a failed initGraph leaves an allocated graph that no handle reaches |
| Onnxifi.InitGraph | lib/Onnxifi/onnxifiGlow.cpp:246-272 | corrected: a handle iff SUCCESS, on the given backend, and no graph is left allocated without a handle |
| Onnxifi.InitGraphCascade | lib/Onnxifi/onnxifiGlow.cpp:246-272 | INVALID_POINTER, then INVALID_SIZE, then INVALID_BACKEND, then initGraph's own status |
| Onnxifi.InitGraphAgrees | lib/Onnxifi/onnxifiGlow.cpp:246-272 | the corrected entry point returns the same status and handle as the written one |
| Onnxifi.SetGraphIO | lib/Onnxifi/onnxifiGlow.cpp:275-290 | a missing descriptor array gives INVALID_POINTER, then a null graph gives INVALID_GRAPH, and otherwise the status is setIO's; SUCCESS only when both arrays and the graph exist and setIO succeeds |
| Onnxifi.SetGraphIOCascade | lib/Onnxifi/onnxifiGlow.cpp:275-290 | INVALID_POINTER is checked before INVALID_GRAPH, and then setIO's own status is returned |
| Onnxifi.RunGraph | lib/Onnxifi/onnxifiGlow.cpp:294-314 | success iff the graph and both fences exist and both fences are event-type fences with the memory-fence-v1 tag |
| Onnxifi.RunGraphCascade | lib/Onnxifi/onnxifiGlow.cpp:294-314 | INVALID_POINTER, then INVALID_GRAPH, then UNSUPPORTED_TAG |
| Onnxifi.ReleaseGraph | lib/Onnxifi/onnxifiGlow.cpp:318-328 | a null graph gives INVALID_GRAPH |
| Onnxifi.CreatedHandlesRelease | lib/Onnxifi/onnxifiGlow.cpp:38-328 | every handle an init entry point returns can be released with SUCCESS, and each release of a null handle gives its kind-specific code |

## Left out

- The floating-point kernels are not modelled, because rounding, `expf` and `pow` have no exact counterpart. These are softmax, sigmoid, tanh, local response normalisation and its gradient, and SGD (lib/Backends/CPUBackend/libjit.c:330-407, 605-670).
- Elements are exact reals, so IEEE rounding, NaN and infinities are outside every kernel's contract.
- `size_t` index arithmetic is unbounded in the kernels: buffers are assumed small enough that no offset wraps.
- Elementwise.CopyBuffer: the source counts with an `int i` against a `size_t bytes` (lib/Backends/CPUBackend/libjit.c:116), so a copy of more than 2^31 - 1 bytes overflows a signed counter, which C leaves undefined. The model's counter is unbounded and its contract covers every length.
- The accumulating kernels (Pooling.MaxGradStream, Pooling.AvgGradStream and the convolution gradients' `Convolution.GradStream`) are modelled as streams of contributions ordered by output offset, not by the source's loop nest. Each cell's result is a sum of the contributions to it, and a sum over exact reals does not depend on their order.
- include/glow/Image.h declares a node with no logic and is not part of this model.
- Pooling.PoolMaxXYCell: requires every window to hold at least one in-bounds tap (`Pooling.Covered`). The source stores a negative position cast to `size_t` when no tap is in bounds.
- Pooling.PoolMaxGradConserves: requires the output to have the input's batches and channels, since planes the output does not cover keep their old values. Conservation per (batch, channel) plane, without that requirement, is Pooling.PoolMaxGradPlane.
- Pooling.PoolAvgGradConserves: requires every window to lie inside the input, since clipped windows drop their out-of-bounds shares. It also requires the output to have the input's batches and channels, since planes the output does not cover keep their old values. Conservation per (batch, channel) plane, without that second requirement, is Pooling.PoolAvgGradPlane.
- Pooling.PoolAvgGradPlane: requires every window to lie inside the input, for the same reason as Pooling.PoolAvgGradConserves.
- Pooling.PoolAvgCell: requires a filter size above 0, since the source divides by filterSize².
- Convolution.UnrolledAgrees: requires the output channel count to be a multiple of 4, as the unrolled kernel's loop does.
- Convolution.ConvolutionCell: the bias extents (`biasWdims`) are passed but unused in the source, and are not modelled.
- Convolution.ConvGradInputAdjoint: the gradient is stated through its adjoint, not cell by cell. This is a complete description of a linear map, but it is not a formula for each cell.
- Convolution.ConvGradFilterAdjoint: the filter-gradient extents are taken equal to the filter's.
- The importer's collaborators are abstract. This covers:
  - the protobuf parsing;
  - `getNodeValueOrCreateVariableByName` (modelled by `Loader.Resolve` as creating a Variable node);
  - `loadOperatorName` (taken as the operator's name);
  - `createSplit` (one Slice node per output);
  - node type inference (the `dims0` parameter);
  - `getTensorByName` (the `tensor` parameter).
- Loader.IntOr: `loadInt` reads an int64, which is not truncated; only the conversions to `size_t` (`Loader.ToSizeT`) and `unsigned` are modelled.
- Loader.ReshapeDims: the int64 product of known extents is not modelled with overflow.
- Loader.LoadDropout: the code binds `NodeValue(in, 0)` (include/glow/Importer/CommonOperatorLoader.h:241), where `in` converts to its node, so result 0 of the input's node is bound rather than the input NodeValue itself.
- Loader.BroadcastOperand: with broadcast off, the code passes `in1` as a `Node *`, so result 0 of in1's node is used.
- Loader.LoadLRN: the NCHW2NHWC and NHWC2NCHW constants come from the graph headers, which are not part of this model; their values are the standard layout shuffles. The float attributes alpha, beta and bias are carried as given.
- The ONNXIFI objects in Base.h are not part of this model. Their `signal`, `initGraph`, `setIO` and model parsing are parameters of the entry points.
- Heap allocation and `delete` are modelled only as which handles exist (`Onnxifi.GraphReply.alive`). Blocking in `wait()` is concurrency and is left out.
- Graph execution in `onnxRunGraph` is an empty stub in the source (lib/Onnxifi/onnxifiGlow.cpp:311). It is not modelled.
- The numeric values of the status codes are not modelled; `Other(code)` stands for any status a collaborator returns.

## Findings

| source | as written | input that shows it | evidently intended | confidence | as-written member | corrected member |
|---|---|---|---|---|---|---|
| lib/Backends/CPUBackend/libjit.c:121-126 | `libjit_element_cmp_lte_f` writes `LHS[i] < RHS[i]` | LHS = RHS = [x] gives 0 | 1 where LHS <= RHS, as the kernel's name says | medium, not executed | Elementwise.CmpLteAsWrittenRejectsEqual | Elementwise.ElementCmpLte |
| lib/Onnxifi/onnxifiGlow.cpp:38-56 | with a non-null array, one ID is written and SUCCESS is returned without reading `*numBackends` | a non-null array with `*numBackends` = 0 | FALLBACK with the count reported when the capacity is below 1, as the ONNXIFI ABI specifies | medium, not executed | Onnxifi.GetBackendIDsOverrunsCapacity | Onnxifi.GetBackendIDs |
| lib/Onnxifi/onnxifiGlow.cpp:262-267 | the graph is allocated with `new` before `initGraph`, and a failure returns without deleting it | valid arguments with `initGraph` returning INVALID_SIZE | the graph is released on failure | high, not executed | Onnxifi.InitGraphLeaksOnFailure | Onnxifi.InitGraph |
