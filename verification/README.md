# A verified model of Paddle's custom device back ends

The repository holds plug-ins that let Paddle run on devices it does not know. Three of its parts
do real work on the host, and this project models them in Dafny and proves what they compute:

- **The strided-tensor kernels of the CPU plug-in.** Loops over flat buffers that step through
  multi-indices with an "odometer", or decode positions by division, for tensors of any rank:
  transpose, contiguous, broadcast, reductions, slice, concat, argsort, matmul with its gradients,
  softmax and cross entropy with theirs, and reshape. Several of them compute one thing by two
  means, and the two are proved to agree.
- **The GCU engine compiler.** It converts a block of operations over SSA values into a builder
  graph through a cache from tensors to nodes. The converted graph is proved to compute the block.
- **The rendezvous of the CPU plug-in's collectives.** Two counting semaphores shared by all
  ranks, modelled as interleaved steps, with safety, progress and token counts over all schedules.

Beside them stands the shape inference of the GCU convolution with bias.

Kernels are methods with the source's loops. Output tensors are arrays the methods modify; input
tensors, which the kernels only read, are sequences. Every kernel is proved against a specification
that is not its loop (the element at each multi-index, the sum of a fibre, a distribution along a
line), and the specifications are related to one another by lemmas. Numbers are reals, or integers
without a width; `exp` and `log` are parameters of which only what is stated is used.

## How it is arranged

| file | what it holds |
|---|---|
| `Indexing.dfy` | row-major positions, strides, the odometer, blocks of a buffer |
| `Permutations.dfy` | permutations of axes and their inverses |
| `Lines.dfy` | lines along an axis and the (outer, axis, inner) indexing |
| `Sums.dfy`, `Fibres.dfy` | finite sums; folding a buffer along a projection |
| `Transpose.dfy`, `Broadcast.dfy`, `Reduce.dfy`, `Slice.dfy`, `Concat.dfy`, `Reshape.dfy` | the layout kernels |
| `Sorting.dfy`, `Argsort.dfy` | the comparator, sorting, and argsort along any axis |
| `Gemms.dfy`, `Pairing.dfy` | the matrix-product loop nests and their pairing form |
| `Matmul.dfy`, `MatrixProduct.dfy`, `MatmulGrad.dfy`, `MatmulBatch.dfy` | dispatch on ranks and flags, what a product is element by element, gradients, products of two batches |
| `Softmax.dfy`, `CrossEntropy.dfy` | the normalising kernels and their gradients |
| `Rendezvous.dfy` | the collectives' semaphores |
| `Options.dfy` | optional values |
| `EngineIR.dfy`, `GraphCompiler.dfy`, `GraphSteps.dfy`, `GraphLookups.dfy` | the engine compiler, what each of its steps comes to, and why its lookups succeed |
| `GraphMeaning.dfy`, `GraphSsa.dfy`, `GraphTagging.dfy`, `GraphSharing.dfy` | what the converted graph computes, when that is the block's meaning, and examples of both outcomes |
| `ConvShape.dfy` | convolution output shapes |

`dafny verify dfyconfig.toml` checks the whole project.

## Where the code does less than it seems to

Each of these is a theorem with an exact condition.

- The gradient for `y` of a 3D by 2D product with `transpose_x` reads the batch in the wrong layout.
  It is the adjoint for all arguments exactly when the flattened layout happens to coincide
  (`MatmulGrad.TransposedBatchGradient`).
- A 3D by 3D product multiplies every matrix of x by y's first one. It is the product batch by batch,
  for all elements, exactly when there is at most one batch, no inner index or no element
  (`MatmulBatch.BatchOfYUnread`). Between 2D operands the inner extents are not compared: y is
  read as if it had x's (`MatmulGrad.MatmulKernel`).
- The mean kernel divides by the product of the extents of the axes as listed. That is the mean
  exactly when no axis of extent other than one is listed twice (`Reduce.MeanIff`).
- `BroadcastDims` takes the greater extent, so an empty axis against an axis of extent one comes out
  as one. It gives a shape both operands spread to exactly when that does not occur
  (`Broadcast.JoinedIsLeast`, `Broadcast.EmptyAgainstOne`).
- A collective called again before all ranks have left can let a fast rank take a slow one's token.
  The barrier, and freedom from deadlock, hold in every reachable state exactly for one rank or at
  most one call (`Rendezvous.BarrierIff`, `Rendezvous.DeadlockFreeIff`).
- The engine compiler keys its cache by tensor. An in-place operation makes two values share one, and
  a later read of the older value gets the newer contents (`GraphSharing.SharingMisreads`). A
  topologically sorted block that converts keeps its meaning, for all operations and inputs, exactly
  when every yielded value's tensor holds that value at the end, counting as spoiled what was computed
  from a stale or spoiled read (`GraphTagging.KeptIffClean`). A stale read that reaches no output does
  no harm (`GraphSharing.HarmlessStaleRead`).
- Normalising a backward slice whose start and end both lie before the axis lets in index 0, although
  nothing lies in the range. Forwards, and in all other cases, the indices stay the same
  (`Slice.NormalizeKeepsIndices`, `Slice.BackwardStartBeforeAxis`).
- Slice drops its decreased axes without asking that they have extent one. The shape it reports has as
  many elements as the data exactly when they do, or an axis that stays is empty
  (`Slice.DroppingKeepsElements`, `Slice.DroppingLosesElements`).
- Softmax clips at 64 below the maximum, and is the textbook function exactly when nothing lies lower
  (`Softmax.ClipInvisible`).
- The convolution's extent is a truncated quotient, so an input just short of one window is reported
  as having one (`ConvShape.OutExtentIsWindowCount`, `ConvShape.PhantomWindow`).
- Reshape's comment asks that an empty input be given an empty shape. The code instead accepts an
  empty input exactly when the request has a -1 and copies no zero, and leaves the -1 in the result
  (`Reshape.ValidateShape`).

## Model

| member | source | states |
|---|---|---|
| Indexing.VecProduct | backends/custom_cpu/kernels/phi_funcs.h:88-95 | the loop computes the dot product of two vectors |
| Indexing.ProductLoop | backends/custom_cpu/kernels/phi_funcs.h:83-86 | the accumulation computes the number of elements of a shape |
| Indexing.ComputeSteps | backends/custom_cpu/kernels/transpose_kernel.cc:42-46 | the suffix-product loop computes the row-major strides |
| Indexing.EncodeBound | backends/custom_cpu/kernels/phi_funcs.h:307-332 | an in-bounds multi-index has a position inside the buffer |
| Indexing.DecodeInverse | backends/custom_cpu/kernels/contiguous_kernel.cc:34-44 | decoding a position gives in-range digits whose position is the one decoded |
| Indexing.DecodeUnique | backends/custom_cpu/kernels/contiguous_kernel.cc:34-44 | decoding inverts encoding, so positions and multi-indices correspond one to one |
| Indexing.Advance | backends/custom_cpu/kernels/transpose_kernel.cc:55-63 | one odometer step with its carries takes the multi-index of position i to that of i + 1 |
| Indexing.SameBuffer | backends/custom_cpu/kernels/phi_funcs.h:88-95 | buffers that agree at every multi-index are equal |
| Indexing.CanonicalAxis | backends/custom_cpu/kernels/phi_funcs.h:99-104 | the argument is the axis itself, or the axis less the rank |
| Indexing.AxisArgument | backends/custom_cpu/kernels/phi_funcs.h:99-104 | an axis a, or a less the rank, is accepted and resolves to a |
| Indexing.TruncDivMeans | backends/custom_cpu/kernels/phi_funcs.h:214-218 | the quotient is the one that leaves a remainder smaller than the divisor and of the sign of the dividend |
| Transpose.CalcStrides | backends/custom_cpu/kernels/phi_funcs.h:362-467 | the strides unrolled for ranks 1 to 9 are the row-major ones; empty shapes come back as they are, higher ranks are refused |
| Transpose.StridedOffset | backends/custom_cpu/kernels/contiguous_kernel.cc:34-42 | decoding from the last axis up sums the stride offsets of the position's multi-index |
| Transpose.ContiguousKernel | backends/custom_cpu/kernels/contiguous_kernel.cc:21-45 | the output is the strided view read in row-major order |
| Transpose.ContiguousIsIdentity | backends/custom_cpu/kernels/contiguous_kernel.cc:34-44 | a view through the tensor's own strides is the tensor |
| Transpose.TransposedAt | backends/custom_cpu/kernels/transpose_kernel.cc:49-54 | the element at a multi-index moves to the permuted multi-index |
| Transpose.DestinationBijective | backends/custom_cpu/kernels/transpose_kernel.cc:47-64 | the scatter hits every output cell exactly once |
| Transpose.TransposeKernel | backends/custom_cpu/kernels/transpose_kernel.cc:21-65 | the odometer scatter produces the view with dims and strides permuted; fails just when the number of axes is wrong |
| Transpose.TransposeByView | backends/custom_cpu/kernels/transpose_kernel.cc:42-64 | the transpose kernel and the contiguous kernel on the permuted view give the same buffer |
| Transpose.TransposeRoundTrip | backends/custom_cpu/kernels/transpose_kernel.cc:42-64 | transposing by a permutation and then by its inverse gives the tensor back |
| Permutations.DotPermuted | backends/custom_cpu/kernels/transpose_kernel.cc:49-54 | a position does not depend on the order in which axes are summed |
| Broadcast.BroadcastDims | backends/custom_cpu/kernels/phi_funcs.h:335-360 | each extent is the greater of those the operands have there, axes being counted from the last by default and from the axis argument otherwise |
| Broadcast.JoinedIsLeast | backends/custom_cpu/kernels/phi_funcs.h:335-360 | if some shape accommodates both operands, the result does exactly when no empty axis meets one of extent 1, and is then the least |
| Broadcast.EmptyAgainstOne | backends/custom_cpu/kernels/phi_funcs.h:345-359 | shapes [0] and [1] both spread to [0] but are given [1] |
| Broadcast.AxisAccepted | backends/custom_cpu/kernels/elementwise_kernel.cc:26-39 | an axis argument is accepted when it is -1, when the ranks agree, or when it leaves room for the operand |
| Broadcast.JoinedSymmetric | backends/custom_cpu/kernels/phi_funcs.h:339-343 | with axis -1 the order of the operands does not matter |
| Broadcast.BroadcastTo | backends/custom_cpu/kernels/phi_funcs.h:261-333 | the result is the operand spread over the output shape, shared when the shapes are equal |
| Broadcast.SpreadAt | backends/custom_cpu/kernels/phi_funcs.h:312-322 | every cell is the operand's at the multi-index with size-one axes pinned to zero |
| Broadcast.SpreadOperandAt | backends/custom_cpu/kernels/phi_funcs.h:284-298 | the padded shape finds the same cell as the operand's own shape |
| Broadcast.ReadIsSpread | backends/custom_cpu/kernels/phi_funcs.h:284-332 | and it is the one at the coordinates `ReadAt` gives |
| Broadcast.VectorOverRows | backends/custom_cpu/kernels/phi_funcs.h:284-298 | by default a vector is read along the last axis of a matrix, with axis 0 along the first |
| Broadcast.SpreadAdjoint | backends/custom_cpu/kernels/phi_funcs.h:312-332 | spreading is the adjoint of summing over the axes spread |
| Broadcast.MeanUndoesSpread | backends/custom_cpu/kernels/phi_funcs.h:312-332 | averaging over the axes spread gives the operand back |
| Broadcast.BinaryRawKernel | backends/custom_cpu/kernels/elementwise_kernel.cc:26-39 | at every multi-index of the output the operation combines the operands' elements at the coordinates `ReadAt` gives: the last ones by default, those from the axis argument on otherwise, zero where the extent is one |
| Broadcast.AddRawKernel | backends/custom_cpu/kernels/elementwise_kernel.cc:51-72 | the above for addition |
| Broadcast.MultiplyRawKernel | backends/custom_cpu/kernels/elementwise_kernel.cc:20-40 | the above for multiplication |
| Broadcast.MaxRawKernel | backends/custom_cpu/kernels/elementwise_kernel.cc:83-104 | the above for the maximum |
| Broadcast.CombinesCommute | backends/custom_cpu/kernels/elementwise_kernel.cc:42-49 | with axis -1 a commutative operation's operands can be exchanged |
| Broadcast.DefaultAxisAccepts | backends/custom_cpu/kernels/elementwise_kernel.cc:42-49 | with axis -1 the operands accepted are exactly those with a common shape in which no empty axis meets an axis of extent one |
| Broadcast.DefaultAxisCompares | backends/custom_cpu/kernels/elementwise_kernel.cc:42-49 | and exactly those whose extents, compared from the last axis back, are equal or one of them is one and the other not zero |
| Reduce.NormalizeAxes | backends/custom_cpu/kernels/reduce_kernel.cc:31-42 | the axes reduced: all on request, else the listed ones resolved |
| Reduce.ReducedAxis | backends/custom_cpu/kernels/reduce_kernel.cc:31-42 | an axis is reduced exactly when all are, or it or it less the rank is listed |
| Reduce.DestinationSteps | backends/custom_cpu/kernels/reduce_kernel.cc:47-60 | the strides of the kept shape, zero on the reduced axes |
| Reduce.ReduceLoop | backends/custom_cpu/kernels/reduce_kernel.cc:51-78 | every output cell is the fold of exactly the inputs that project to it |
| Reduce.ProjectionOnto | backends/custom_cpu/kernels/reduce_kernel.cc:54-68 | every output cell is the projection of some input |
| Reduce.InFibre | backends/custom_cpu/kernels/reduce_kernel.cc:54-68 | an input goes to the output with which it agrees on every axis not reduced |
| Reduce.SumRawKernel | backends/custom_cpu/kernels/reduce_kernel.cc:94-153 | every output is the sum over its fibre along the axes that are listed, by themselves or less the rank; an empty list means all |
| Reduce.ReduceConserves | backends/custom_cpu/kernels/reduce_kernel.cc:140-152 | the outputs of a sum add up to the inputs |
| Reduce.CountFibre | backends/custom_cpu/kernels/reduce_kernel.cc:62-65 | every fibre has as many cells as the product of the reduced extents |
| Reduce.MeanRawKernel | backends/custom_cpu/kernels/reduce_kernel.cc:22-79 | every output times the product of the extents as listed is the sum of its fibre; an empty list reduces nothing, and without inputs the outputs are zero |
| Reduce.ListedIsFibreSize | backends/custom_cpu/kernels/reduce_kernel.cc:62-65 | the listed size is at least the fibre's, with equality exactly when repeated axes have extent 1 |
| Reduce.MeanIff | backends/custom_cpu/kernels/reduce_kernel.cc:62-68 | the outputs are the means for all inputs exactly then |
| Reduce.MaxRawKernel | backends/custom_cpu/kernels/reduce_kernel.cc:242-297 | every output bounds its fibre along the listed axes and the start value and is one of them |
| Reduce.MinRawKernel | backends/custom_cpu/kernels/reduce_kernel.cc:169-227 | the same from below; an empty list means all axes |
| Reduce.ExtremeAttained | backends/custom_cpu/kernels/reduce_kernel.cc:280-296 | when the start value bounds the input, the result is an element of the fibre |
| Slice.NormalizeIdempotent | backends/custom_cpu/kernels/phi_funcs.h:151-190 | normalising a slice again changes nothing, for steps of either sign |
| Slice.NormalizeKeepsIndices | backends/custom_cpu/kernels/phi_funcs.h:156-184 | normalising keeps which indices of the axis lie in the range, negative bounds counting from the end except a backward end, exactly when the step is forward, the axis is empty, or start or end does not lie before the axis |
| Slice.AcceptedIff | backends/custom_cpu/kernels/phi_funcs.h:156-184 | a range is accepted on an empty axis; forwards unless the start lies past the end, the start above 0 and the end below the extent; backwards unless the end reaches the extent or is positive and past the start; never with step 0 |
| Slice.NormalizedBounds | backends/custom_cpu/kernels/phi_funcs.h:156-184 | an accepted range becomes its bounds, those that count from the end resolved, clamped to the axis |
| Slice.BackwardStartBeforeAxis | backends/custom_cpu/kernels/phi_funcs.h:156-184 | on an axis of five, from -9 back to -3 there is no index, but index 0 is taken |
| Slice.TermCountExact | backends/custom_cpu/kernels/phi_funcs.h:214-218 | after normalisation the extent counts exactly the terms before the end, and all of them are indices of the axis |
| Slice.TermCountNonNegative | backends/custom_cpu/kernels/phi_funcs.h:214-218 | the extent of a normalised range is never negative |
| Slice.CheckAndUpdateSliceAttrs | backends/custom_cpu/kernels/phi_funcs.h:130-192 | starts and ends become the normalised ones, and it succeeds exactly when every entry names an axis and has a range that is accepted |
| Slice.GetSliceDims | backends/custom_cpu/kernels/phi_funcs.h:194-222 | each axis has the extent of its last entry, or the input's |
| Slice.GetDecreasedDims | backends/custom_cpu/kernels/phi_funcs.h:224-257 | the listed axes are dropped, and rank zero becomes [1] |
| Slice.UndroppedAt | backends/custom_cpu/kernels/phi_funcs.h:238-255 | each axis kept stands behind as many as are kept before it |
| Slice.DecreasedMeans | backends/custom_cpu/kernels/phi_funcs.h:224-257 | so the shape is that of the axes kept, in their order, or [1] when none of a listed shape is |
| Slice.DroppingKeepsElements | backends/custom_cpu/kernels/phi_funcs.h:224-257 | the decreased shape keeps the number of elements exactly when every axis dropped has extent one or one that stays is empty |
| Slice.DroppingLosesElements | backends/custom_cpu/kernels/phi_funcs.h:224-257 | dropping the first axis of [2, 3] leaves the shape [3] for six elements |
| Slice.AdvanceWindow | backends/custom_cpu/kernels/slice_kernel.cc:88-96 | the odometer between the window's bounds goes from each row to the next |
| Slice.CopyWindow | backends/custom_cpu/kernels/slice_kernel.cc:78-97 | the row copies produce the window |
| Slice.WindowAt | backends/custom_cpu/kernels/slice_kernel.cc:62-97 | every cell of the window is the input's at the multi-index shifted by the offsets |
| Slice.SliceRawKernel | backends/custom_cpu/kernels/slice_kernel.cc:20-99 | the result is the window of exactly the indices each axis's last entry selects, an entry that asks for the last element of a dropped axis selecting just that; its decreased shape fits just under the condition above; it fails exactly when sizes differ or an entry is rejected |
| Slice.SliceAxis | backends/custom_cpu/kernels/slice_kernel.cc:20-99 | with one entry in range, the kernel cuts that range of that axis |
| Concat.ConcatKernel | backends/custom_cpu/kernels/concat_kernel.cc:20-55 | along the axis a that the argument names, by itself or less the rank, the inputs stand one after the other; the copies, each extending the part written, end as the whole buffer |
| Concat.ConcatAt | backends/custom_cpu/kernels/concat_kernel.cc:42-54 | each input's element stands in the result, moved along the axis by the extents before it |
| Concat.Owner | backends/custom_cpu/kernels/concat_kernel.cc:29-37 | every coordinate along the axis belongs to exactly one input |
| Concat.StartsFollow | backends/custom_cpu/kernels/concat_kernel.cc:29-37 | the first input starts at zero and each where the one before ends, and the result ends with the last |
| Concat.SliceUndoesConcat | backends/custom_cpu/kernels/concat_kernel.cc:42-54 | the window over an input's range is that input |
| Concat.ConcatUndoesSlice | backends/custom_cpu/kernels/concat_kernel.cc:42-54 | a tensor has the inputs as its pieces exactly when it is their concatenation |
| Concat.SliceOfConcat | backends/custom_cpu/kernels/slice_kernel.cc:62-97 | the slice kernel on the concat kernel's output returns the input, for rank at least 2 |
| Reshape.ValidateShape | backends/custom_cpu/kernels/reshape_kernel.cc:22-122 | for positive extents, succeeds exactly when the request has an answer and returns the only one; for empty inputs, exactly when there is one -1, no zero is copied and no entry is below -1, and returns the request with zeros replaced |
| Reshape.AnswerUnique | backends/custom_cpu/kernels/reshape_kernel.cc:70-104 | a request has at most one answer |
| Reshape.AnswerExists | backends/custom_cpu/kernels/reshape_kernel.cc:70-104 | it has one exactly when completing it with the inferred extent gives the input's size |
| Reshape.CapacityIsKnown | backends/custom_cpu/kernels/reshape_kernel.cc:64-67 | the capacity is the product of the known entries, negated if there is a -1 |
| Sorting.StrictWeakOrder | backends/custom_cpu/kernels/argsort_kernel.cc:46-54 | the NaN-aware comparator is a strict weak order in which only equal elements are equivalent |
| Sorting.StableSort | backends/custom_cpu/kernels/argsort_kernel.cc:42-55 | the result is the input permuted, in order, with ties in their original order |
| Sorting.UnstableSort | backends/custom_cpu/kernels/argsort_kernel.cc:56-69 | the result is the input permuted, in order |
| Sorting.StableIsUnique | backends/custom_cpu/kernels/argsort_kernel.cc:42-55 | a stable sort of a line has one result |
| Sorting.ValuesAreUnique | backends/custom_cpu/kernels/argsort_kernel.cc:56-69 | stable or not, the sorted values are determined |
| Sorting.SortedLineMeans | backends/custom_cpu/kernels/argsort_kernel.cc:46-54 | being sorted by the comparator is to be the elements at the indices, with numbers rising, or falling when descending, and NaN after them, or before when descending |
| Argsort.FullSort | backends/custom_cpu/kernels/argsort_kernel.cc:21-76 | every row of the output and of the indices is a sorted row of the input |
| Argsort.RowsAreLines | backends/custom_cpu/kernels/argsort_kernel.cc:103-118 | sorted rows are sorted lines along the last axis |
| Argsort.SwapSelfInverse | backends/custom_cpu/kernels/argsort_kernel.cc:120-132 | exchanging two axes twice changes nothing |
| Argsort.LineTransposed | backends/custom_cpu/kernels/argsort_kernel.cc:134-138 | exchanging axes takes the lines of one to the lines of the other |
| Argsort.SortedThroughSwap | backends/custom_cpu/kernels/argsort_kernel.cc:134-167 | sorting the last axis between two exchanges sorts the lines of the given axis |
| Argsort.ArgsortKernel | backends/custom_cpu/kernels/argsort_kernel.cc:78-168 | on every line along the axis a that the argument names, by itself or less the rank, the numbers rise, or fall when descending, with NaN last, or first; the output is the line at the indices, each used once, ties kept if stable |
| Gemms.BatchedGemm | backends/custom_cpu/kernels/matmul_kernel.cc:20-94 | the accumulating loops compute each cell's sum of products, over the batches too when they are reduced |
| Gemms.RunAt | backends/custom_cpu/kernels/matmul_kernel.cc:29-40 | where each cell of each batch stands in the output, transposed or not |
| Pairing.BatchedInner | backends/custom_cpu/kernels/matmul_kernel.cc:60-75 | pairing a batched product with a tensor is one sum over batches, rows, columns and inner index |
| Pairing.ReducedInner | backends/custom_cpu/kernels/matmul_kernel.cc:60-75 | the same for a product that reduces its batches |
| Pairing.LeftAdjoint | backends/custom_cpu/kernels/matmul_kernel.cc:433-448 | a product whose positions match a gradient's for the left operand is its adjoint |
| Pairing.RightAdjoint | backends/custom_cpu/kernels/matmul_kernel.cc:450-463 | the same for the right operand |
| MatrixProduct.ForwardIsProduct | backends/custom_cpu/kernels/matmul_kernel.cc:96-295 | for all ranks up to 3, not both 3, and all flags, the loop nest selected computes at every batch, row and column the sum of the products of the operands' elements there |
| MatrixProduct.ProductUnique | backends/custom_cpu/kernels/matmul_kernel.cc:96-295 | that describes every element of the output: there is only one matrix product |
| MatrixProduct.IndicesMean | backends/custom_cpu/kernels/matmul_kernel.cc:29-40 | the coordinates of the operands' elements and of the result's, rank by rank and flag by flag |
| MatrixProduct.ExtentsMean | backends/custom_cpu/kernels/matmul_kernel.cc:214-247 | the rows, columns, inner extents and output shape of every combination of ranks and flags |
| MatmulGrad.MatmulKernel | backends/custom_cpu/kernels/matmul_kernel.cc:96-295 | the output has the product's shape and is the matrix product of x and what y is read as: y's first matrix of two batches, y with x's inner extent between 2D operands, else y itself; failure exactly where the inner extents differ and not both operands are 2D |
| MatmulBatch.BatchOfYUnread | backends/custom_cpu/kernels/matmul_kernel.cc:223-258 | a 3D by 3D product is the product batch by batch, for all elements, exactly when at most one batch exists, or no inner index, or no element |
| MatmulGrad.MatmulGradKernel | backends/custom_cpu/kernels/matmul_kernel.cc:297-538 | each requested gradient is the product that ranks and flags select |
| MatmulGrad.DxIsAdjoint | backends/custom_cpu/kernels/matmul_kernel.cc:323-519 | pairing dout with the product is pairing dx with x, for all modelled ranks and flags |
| MatmulGrad.DyIsAdjoint | backends/custom_cpu/kernels/matmul_kernel.cc:323-537 | the same for y, except a 3D x transposed against a 2D y |
| MatmulGrad.PairingDetermines | backends/custom_cpu/kernels/matmul_kernel.cc:297-538 | pairings determine a tensor, so the adjointness of dx and dy leaves only one value for each |
| MatmulGrad.FlattenedBatch | backends/custom_cpu/kernels/matmul_kernel.cc:521-536 | one product over the flattened batch is the batched product summed over the batches |
| MatmulGrad.UntransposedFlattens | backends/custom_cpu/kernels/matmul_kernel.cc:521-536 | for an untransposed x the layouts allow that, for either transpose_y |
| MatmulGrad.TransposedBatchGradient | backends/custom_cpu/kernels/matmul_kernel.cc:526-534 | for a transposed x, dy is always the adjoint exactly when the layouts coincide |
| Softmax.Softmax | backends/custom_cpu/kernels/softmax_kernel.cc:26-53 | every numbered line of the buffer becomes its softmax |
| Softmax.SoftmaxKernel | backends/custom_cpu/kernels/softmax_kernel.cc:55-77 | every line along the axis a that the argument names, by itself or less the rank, becomes its softmax |
| Softmax.SoftmaxLineMeans | backends/custom_cpu/kernels/softmax_kernel.cc:20-49 | each element of it is the exponential of the distance from the maximum, cut at -64, over the sum of these |
| Softmax.SoftmaxIsDistribution | backends/custom_cpu/kernels/softmax_kernel.cc:37-49 | a line of the output is positive and sums to one |
| Softmax.ShiftInvariant | backends/custom_cpu/kernels/softmax_kernel.cc:32-40 | adding a constant to a line changes nothing |
| Softmax.SoftmaxOrder | backends/custom_cpu/kernels/softmax_kernel.cc:20-40 | order is kept, strictly exactly when the greater element is less than 64 below the maximum |
| Softmax.ClipInvisible | backends/custom_cpu/kernels/softmax_kernel.cc:20-40 | the line is the textbook softmax exactly when nothing lies more than 64 below the maximum |
| Softmax.SoftmaxGrad | backends/custom_cpu/kernels/softmax_kernel.cc:79-103 | every line holds (g - <s, g>) s, from one dot product a line |
| Softmax.SoftmaxGradKernel | backends/custom_cpu/kernels/softmax_kernel.cc:105-130 | the same along the axis a that the argument names |
| Softmax.GradLineTotal | backends/custom_cpu/kernels/softmax_kernel.cc:79-103 | a line's gradient sums to the dot product times what the probabilities lack to one |
| Softmax.SoftmaxGradTotal | backends/custom_cpu/kernels/softmax_kernel.cc:79-103 | of a softmax output it sums to zero |
| Softmax.GradSelfAdjoint | backends/custom_cpu/kernels/softmax_kernel.cc:92-101 | the gradient is its own adjoint |
| Lines.CellHasCoordinates | backends/custom_cpu/kernels/softmax_kernel.cc:30-36 | a line and a place name one cell, and the cell's line and place are those |
| Lines.CoordinatesNameCell | backends/custom_cpu/kernels/softmax_kernel.cc:30-36 | every cell of the buffer is so named, so the (i, j, k) loops partition it |
| Lines.LineIsColumn | backends/custom_cpu/kernels/softmax_kernel.cc:74-76 | the numbered lines are the lines along the axis |
| Lines.UpdateCells | backends/custom_cpu/kernels/cross_entropy_with_softmax_kernel.cc:271-282 | the loops over blocks, layers and cells give each cell its new value once |
| CrossEntropy.CrossEntropy | backends/custom_cpu/kernels/cross_entropy_with_softmax_kernel.cc:21-70 | each line has its loss, and the kernel throws exactly when some label is neither ignored nor a class |
| CrossEntropy.CrossEntropyKernel | backends/custom_cpu/kernels/cross_entropy_with_softmax_kernel.cc:72-156 | along the axis a that the argument names, a class costs -ln of its probability, 1e20 if that is zero, and nothing if ignored; soft labels weigh these costs; false exactly when the axis or what precedes it is empty or a label is neither ignored nor a class |
| CrossEntropy.CrossEntropyWithSoftmaxKernel | backends/custom_cpu/kernels/cross_entropy_with_softmax_kernel.cc:158-181 | the same costs under the softmax of the logits along that axis, or with the logits as probabilities |
| CrossEntropy.HardIsSoftLoss | backends/custom_cpu/kernels/cross_entropy_with_softmax_kernel.cc:30-69 | a class index costs what its one-hot encoding costs |
| CrossEntropy.HardLossMeans | backends/custom_cpu/kernels/cross_entropy_with_softmax_kernel.cc:43-66 | a class costs minus the logarithm of its probability, or 1e20, and nothing if ignored |
| CrossEntropy.SoftLossMeans | backends/custom_cpu/kernels/cross_entropy_with_softmax_kernel.cc:34-39 | a soft line costs minus the sum of its labels times the logarithms, -1e20 standing for that of zero |
| CrossEntropy.LossOrder | backends/custom_cpu/kernels/cross_entropy_with_softmax_kernel.cc:63-66 | with an increasing logarithm, the less probable the class the greater its loss |
| CrossEntropy.CrossEntropyWithSoftmaxGradKernel | backends/custom_cpu/kernels/cross_entropy_with_softmax_kernel.cc:183-331 | along the axis a, with loss gradient g: g (p - y) for the logits and -y / p g for the probabilities, a class being one at its place and zero elsewhere; ignored lines hold zeros |
| CrossEntropy.HardIsSoftPlain | backends/custom_cpu/kernels/cross_entropy_with_softmax_kernel.cc:225-267 | without softmax the gradient of a class index is that of its one-hot encoding, where the soft form does not divide by zero |
| CrossEntropy.HardIsSoftFused | backends/custom_cpu/kernels/cross_entropy_with_softmax_kernel.cc:271-330 | in softmax mode it is that for all probabilities |
| CrossEntropy.HardKernelIsSoftLoss | backends/custom_cpu/kernels/cross_entropy_with_softmax_kernel.cc:21-70 | the loss kernel gives class indices the losses of their one-hot encodings, and ignored lines zero |
| CrossEntropy.HardKernelIsSoftGrad | backends/custom_cpu/kernels/cross_entropy_with_softmax_kernel.cc:225-330 | in both modes the gradient kernel gives class indices the gradients of their one-hot encodings, line by line, and ignored lines zeros |
| CrossEntropy.FusedGradTotal | backends/custom_cpu/kernels/cross_entropy_with_softmax_kernel.cc:269-282 | in softmax mode a line's gradient sums to the loss gradient times the difference of the totals |
| CrossEntropy.HardFusedTotal | backends/custom_cpu/kernels/cross_entropy_with_softmax_kernel.cc:294-330 | for a class index and any probabilities it sums to zero exactly when they sum to one or the loss gradient is zero; an ignored line always does |
| CrossEntropy.HardFusedOfSoftmax | backends/custom_cpu/kernels/cross_entropy_with_softmax_kernel.cc:294-330 | so on the softmax kernel's output it always sums to zero |
| CrossEntropy.FusedIsComposed | backends/custom_cpu/kernels/cross_entropy_with_softmax_kernel.cc:269-282 | pushing the plain gradient through softmax's gives the fused one exactly when the labels sum to one or the loss gradient is zero |
| Rendezvous.RunInvariant | backends/custom_cpu/runtime/runtime.cc:241-262 | what every step keeps: the token balances, and no operation unaccounted for |
| Rendezvous.TokenConservation | backends/custom_cpu/runtime/runtime.cc:248-260 | departures + sig_2 = releases <= n * full rounds <= arrivals = sig + collected, in every reachable state |
| Rendezvous.RunLength | backends/custom_cpu/runtime/runtime.cc:241-262 | no run is longer than 4 n operations a round, and it is that long exactly when all are done, with both semaphores at zero |
| Rendezvous.SingleCallBarrier | backends/custom_cpu/runtime/runtime.cc:248-261 | in one call no rank returns before all have entered |
| Rendezvous.SingleCallProgress | backends/custom_cpu/runtime/runtime.cc:248-261 | in one call only the final state is stuck |
| Rendezvous.SingleCallCompletes | backends/custom_cpu/runtime/runtime.cc:264-284 | any partial run of one call extends to a complete one |
| Rendezvous.BarrierIff | backends/custom_cpu/runtime/runtime.cc:248-261 | the barrier always holds exactly for one rank or at most one call |
| Rendezvous.DeadlockFreeIff | backends/custom_cpu/runtime/runtime.cc:248-261 | no unfinished state is stuck exactly then |
| EngineIR.EvalPrefix | backends/gcu/custom_engine/gcu_engine_compiler.cc:309-341 | building further nodes changes no earlier value |
| GraphCompiler.Compiler.Init | backends/gcu/custom_engine/gcu_engine_compiler.cc:120-135 | succeeds exactly when every engine input and output has a tensor |
| GraphCompiler.Compiler.CreateInputs | backends/gcu/custom_engine/gcu_engine_compiler.cc:161-173 | a node for each input, cached under its tensor |
| GraphCompiler.Compiler.MapInnerOutputValues | backends/gcu/custom_engine/gcu_engine_compiler.cc:175-203 | the yielded values are appended in order, or the first error |
| GraphCompiler.Compiler.GatherOperands | backends/gcu/custom_engine/gcu_engine_compiler.cc:271-306 | the cached nodes of all operands' tensors, or the first error |
| GraphCompiler.Compiler.RecordTupleResults | backends/gcu/custom_engine/gcu_engine_compiler.cc:323-344 | a projection for each result, cached under its tensor |
| GraphCompiler.Compiler.Step | backends/gcu/custom_engine/gcu_engine_compiler.cc:256-363 | one operation converted: yields, tuples, single results and every error |
| GraphCompiler.Compiler.SetGraphOutputs | backends/gcu/custom_engine/gcu_engine_compiler.cc:205-241 | the outputs are the cached nodes of the yielded values, and their tensors are resized |
| GraphCompiler.Compiler.ConvertGraph | backends/gcu/custom_engine/gcu_engine_compiler.cc:243-370 | the whole conversion, with its outputs and first error; every tensor ends with the shape of the node of the last output that sets it, or with its own |
| GraphCompiler.ResizedMeans | backends/gcu/custom_engine/gcu_engine_compiler.cc:231-234 | an output's node gives its shape to its value's tensor and to the engine output's, the last such output deciding |
| GraphSteps.InputNodes | backends/gcu/custom_engine/gcu_engine_compiler.cc:161-173 | node i is input i with its tensor's shape |
| GraphSteps.InputsCached | backends/gcu/custom_engine/gcu_engine_compiler.cc:161-173 | a tensor's node is that of the last input to live in it |
| GraphSteps.KeyMeans | backends/gcu/custom_engine/gcu_engine_compiler.cc:258-268 | the translator is looked up under the op_name attribute if there is one, else the name, with dots turned into underscores |
| GraphSteps.OperandsMean | backends/gcu/custom_engine/gcu_engine_compiler.cc:271-306 | the translator is given the cached nodes of every tensor of every operand, or the conversion fails |
| GraphSteps.YieldMeans | backends/gcu/custom_engine/gcu_engine_compiler.cc:175-203 | a yield is accepted exactly when it has a value for every engine output, each with tensors and names |
| GraphSteps.ComputeMeans | backends/gcu/custom_engine/gcu_engine_compiler.cc:256-363 | an operation is converted exactly when its translator is registered and accepts the operands' nodes, a tuple has an element for every result, and the results recorded have one tensor; then its node, or its projections in order, are cached |
| GraphSteps.OutputsMean | backends/gcu/custom_engine/gcu_engine_compiler.cc:205-228 | the outputs exist exactly when every yielded value has one tensor that a node produced and the names exist, and are these nodes |
| GraphMeaning.GraphComputesStore | backends/gcu/custom_engine/gcu_engine_compiler.cc:243-370 | with sound translators the graph always computes what the block computes when values live in their tensors |
| GraphLookups.LookupsSucceedIff | backends/gcu/custom_engine/gcu_engine_compiler.cc:275-306 | where translators return a tuple for several results: if every tensor looked up was written by an earlier operation or is an engine input's first, no lookup fails, and any block that converts is such a block |
| GraphLookups.NoLookupFails | backends/gcu/custom_engine/gcu_engine_compiler.cc:275-306 | so no lookup fails in a topologically sorted block whose engine inputs have at most one tensor each, however its values share tensors |
| GraphSsa.ConversionPreservesMeaning | backends/gcu/custom_engine/gcu_engine_compiler.cc:243-370 | and its SSA meaning, output by output, over any data, when every yielded value's tensor holds it at the end |
| GraphSsa.UnsharedIsFresh | backends/gcu/custom_engine/gcu_engine_compiler.cc:254-256 | in a topologically sorted block whose values have a tensor each, no read is stale |
| GraphTagging.TagsSound | backends/gcu/custom_engine/gcu_engine_compiler.cc:309-341 | translators that carry every value's number into the graph, and spoil it on a wrong operand, are sound |
| GraphTagging.UncleanIsLost | backends/gcu/custom_engine/gcu_engine_compiler.cc:243-370 | with them, a block whose yielded tensors do not all hold their values gets another meaning |
| GraphTagging.KeptIffClean | backends/gcu/custom_engine/gcu_engine_compiler.cc:243-370 | a topologically sorted block that converts, with at most one tensor for each input and one for each result, keeps its meaning for all operations, sound translators and inputs exactly when every yielded value's tensor holds it at the end |
| GraphSharing.TranslatorsSound | backends/gcu/custom_engine/gcu_engine_compiler.cc:309-341 | the translators of the counterexample are sound |
| GraphSharing.SharingMisreads | backends/gcu/custom_engine/gcu_engine_compiler.cc:345-357 | a block with an in-place operation converts, and its graph computes something else |
| GraphSharing.HarmlessStaleRead | backends/gcu/custom_engine/gcu_engine_compiler.cc:345-357 | a stale read whose result is not yielded leaves the block's meaning alone |
| ConvShape.DuplicatePaddings | backends/gcu/custom_op/conv_bias_activate_op.cc:35-39 | inserting copies gives every padding twice |
| ConvShape.UpdatePaddingAndDilation | backends/gcu/custom_op/conv_bias_activate_op.cc:26-76 | two paddings an axis under each algorithm, or the error on their number |
| ConvShape.OutExtentIsWindowCount | backends/gcu/custom_op/conv_bias_activate_op.cc:211-218 | with a window whose last tap lies dilation (k - 1) past its first, the extent is the greatest number of windows that fit, exactly when the input is long enough or short by one stride but not two |
| ConvShape.PhantomWindow | backends/gcu/custom_op/conv_bias_activate_op.cc:211-218 | an input short of one window by less than a stride is given one |
| ConvShape.SameExtent | backends/gcu/custom_op/conv_bias_activate_op.cc:56-69 | SAME gives the input's extent over the stride rounded up, whatever the kernel, with paddings that differ by at most one |
| ConvShape.SameExtents | backends/gcu/custom_op/conv_bias_activate_op.cc:205-218 | so for every known spatial axis of the shape |
| ConvShape.SameIsLeast | backends/gcu/custom_op/conv_bias_activate_op.cc:56-62 | the padding of SAME is the least with which that many windows fit |
| ConvShape.ConvBiasOpInferShape | backends/gcu/custom_op/conv_bias_activate_op.cc:78-223 | axis by axis the batch, the filters (last for NHWC and NDHWC, else second) and the spatial extents, or an error exactly when a check fails |

## Left out

- Rounding, overflow, infinities and the width of integers: elements are reals and sizes unbounded; floats appear with NaN only in sorting.
- Where input buffers and output buffers might be one tensor: kernel inputs are values here. The fused gradient's in-place case starts from the same contents and is covered by the same loops.
- Allocation, devices, streams, logging, registration of kernels and data-type dispatch.
- MatmulGrad.MatmulGradKernel: two batches, for which the code has no branch and leaves both gradients unset; ranks above 3 in either kernel.
- Gemms.BatchedGemm: the factor `alpha` is fixed at 1, as in every call; the plain product and the two branches of the batched one are a single parametrised loop nest; which operand has the batch is a parameter.
- Tensors of rank 0 in transpose, reduce and softmax: the code reads outside its index vectors there.
- Slice.SliceRawKernel: tensors of rank 1, where the row odometer has no axis to step along and the code reads outside its index vector.
- Slice.GetSliceDims: the branch taken under inference flags, which reports an unknown extent; the kernel passes none.
- Slice.GetDecreasedDims: the check under inference flags that dropped axes have extent one; the kernel passes none.
- Broadcast.DefaultAxisAccepts: the code does not check that shapes fit, so acceptance is what the kernels ask of their callers, not an outcome.
- Broadcast.BroadcastTo: an explicit positive axis for an operand that has full rank and still needs spreading is excluded, because the padded shape then has too many axes.
- Slice.CheckAndUpdateSliceAttrs: inference flags and negative (unknown) extents are not modelled; no kernel of the plug-in passes them.
- `StridedCopyKernel`, which takes its output strides from the input's shape.
- Sorting.UnstableSort: the inside of `std::sort` and `std::stable_sort` is not modelled; insertion stands for both and only the contract is used.
- CrossEntropy.CrossEntropy: probabilities are taken to be non-negative, as below.
- CrossEntropy.CrossEntropyKernel: probabilities are taken to be non-negative, since the logarithm of a negative number is not a number.
- CrossEntropy.CrossEntropyWithSoftmaxKernel: with softmax switched off the logits are probabilities and taken to be non-negative, for the same reason.
- CrossEntropy.CrossEntropyWithSoftmaxGradKernel: without softmax the probabilities it divides by are taken to be other than zero, and labels to be those the forward kernel accepts, since the gradient kernel does not check them.
- The names that the engine compiler looks up only to log, and the bodies of the per-operation translators, which are assumed sound.
- GraphLookups.NoLookupFails: engine inputs of several tensors, of which only the first is cached; `GraphLookups.LookupsSucceedIff` covers them.
- Compiling and running the built graph, and the operation runner's cache.
- What the collectives would transfer: the functions modelled move no data. A semaphore opened twice or left over from another group is not modelled.
- Reshape.ValidateShape: inputs with unknown (negative) extents, which occur at graph-building time only.
- ConvShape.ConvBiasOpInferShape: zero groups, shapes of rank below 2 and too few dilations are excluded, as the code divides by or indexes them unchecked.
- `TopPSampling`, which is a chain of tensor calls into kernels that are not part of this model.
- `FuseConvBnWeights`, the fused transformer operations and all kernels that only fill argument maps for a device library.
