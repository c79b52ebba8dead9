# TinyInfiniTensor planning core, modelled in Dafny

TinyInfiniTensor is a small deep-learning inference framework. A computation
is a graph: tensors (shape, data type, a family id called the fuid, producer,
consumers, data blob) and the operators that connect them (MatMul, Transpose,
Concat, the unary element-wise operators, Clip, Cast). This project models the
planning stage that runs before any kernel executes:

- **Connecting operators** (`addOperatorAndConnect`). A new operator is
  appended. It becomes a consumer of its inputs and the producer of its
  outputs, and it is linked both ways to the producers of its inputs and the
  consumers of its outputs.
- **Topological sort** (`topo_sort`). The sort scans the operator list
  repeatedly. In list order it places every operator whose inputs all have no
  producer or an already placed one. It fails when a scan places nothing.
- **The rewrite pass** (`optimize`). The pass walks the sorted list. A Transpose
  followed by a Transpose is removed together with the operator after it. A
  Transpose followed by a MatMul is folded into that MatMul's `transA` or
  `transB` flag.
- **Shape inference** (`shape_infer`). Each operator's `inferShape` runs in
  turn, and its outputs take the inferred shapes. The per-operator rules are
  modelled separately: broadcast batched MatMul with trans flags, Concat along
  one axis, Transpose by a permutation, shape-keeping Unary, Clip and Cast, and
  Cast's output data type table.
- **Memory placement** (`dataMalloc`). Every listed tensor receives an offset
  from the arena allocator. The backing buffer is then realized once, and each
  tensor is bound to buffer plus offset.
- **The arena allocator** (`Allocator`). This is a simulated linear address
  space `[0, peak)`. Its free blocks are kept in three indices: an ordered set
  keyed by (size, address), and two hash maps from a block's start address and
  end address to its size. Allocation is best fit, splits off the remainder, and
  extends a free tail block or bumps `peak`. `free` coalesces immediately with
  both neighbours. Sizes are padded to 8 bytes, with the wrap-around of the
  source's `size_t` arithmetic; the other counters are unbounded.
- **The graph's helpers** `getTensor`, `addTensor` and `checkValid`.

Files and modules:

- `util.dfy` (`Util`): `Option`, `Result`, `Outcome`, the error kinds, and the
  sequence operations the graph's lists are built from.
- `types.dfy` (`Types`): shapes and data types.
- `allocator.dfy` (`Allocators`): the allocator. It is a class with the
  source's fields. Value-level methods do the index updates, and the class
  methods assign the results to the fields.
- `matmul.dfy`, `concat.dfy`, `transpose.dfy`, `unary.dfy`: per-operator
  inference.
- `graph_core.dfy` (`GraphCore`): the graph as a value, `getTensor` and
  `checkValid`.
- `connect.dfy`, `toposort.dfy`, `optimize.dfy`, `shape_infer.dfy`: the passes.
  Each is written as functions on the graph value, with loop-shaped methods
  proved equal to those functions.
- `graph.dfy` (`Graphs`): the `Graph` class. Its fields `tensors`, `ops`,
  `tensorOf`, `opOf` and `sorted` and its allocator change in place. Its methods
  are proved against the functions above.

The object graph is modelled as a value, `GraphState`. Tensors and operators
are identities (`Tid`, `Oid`). The maps `tensorOf` and `opOf` give the record
each identity currently holds, so a mutation through a shared pointer is a map
update visible to every holder. `Closed` states that every reference a listed
record holds names an object of the maps.

## Model

| member | source | states |
|---|---|---|
| `Allocators.AlignedSize` | src/core/allocator.cc:230-233 | for sizes 1 .. 2^64-8 the result is the least multiple of 8 that is at least the size; size 0 and the seven largest sizes give 0, because `size_t` wraps |
| `Allocators.Emplace` | src/core/allocator.cc:214-216 | `emplace` into a map keeps an existing entry and otherwise adds the new pair |
| `Allocators.Probe` | include/core/allocator.h:83 | the constructor from a size alone gives a block at address 0 of that size |
| `Allocators.Less` | include/core/allocator.h:86-88 | `operator<` on blocks: size first, then address; it has no contract of its own, and `Allocators.LessIsStrictTotalOrder` states that it is a strict total order |
| `Allocators.LessIsStrictTotalOrder` | include/core/allocator.h:86-88 | the block order (size first, then address) is irreflexive, asymmetric, transitive and total on distinct blocks |
| `Allocators.ProbeBoundsSize` | src/core/allocator.cc:119 | a block is not below the probe exactly when its size is at least the requested size |
| `Allocators.LowerBound` | src/core/allocator.cc:119 | `lower_bound` on the ordered set: none exactly when every block is below the probe; otherwise the least block that is not below it |
| `Allocators.BestFitExists` | src/core/allocator.cc:119-124 | when some free block is large enough, a best fit exists: the smallest such block, lowest address on ties |
| `Allocators.BestFitUnique` | src/core/allocator.cc:119-124 | there is at most one best fit |
| `Allocators.LowerBoundIsBestFit` | src/core/allocator.cc:119-124 | what `lower_bound` finds is exactly the best fit, and it finds nothing exactly when no free block is large enough |
| `Allocators.IndicesDescribeFree` | include/core/allocator.h:91-100 | under the allocator's invariant, the start index and the end index are determined by the ordered set of free blocks |
| `Allocators.EmptyIndices` | src/core/allocator.cc:6-16 | with no free blocks, both hash indices are empty |
| `Allocators.SingleIndices` | include/core/allocator.h:94-100 | with one free block, the indices hold exactly its start and its end |
| `Allocators.EndIndexed` | src/core/allocator.cc:149-154 | an entry of the end index names the free block that ends there, read back as (end - size, size) |
| `Allocators.RemoveBlock` | src/core/allocator.cc:127-129 | erasing a free block from the set and both indices keeps the invariant |
| `Allocators.InsertBlock` | src/core/allocator.cc:135-137 | inserting a block separated from every free block, below peak, into the set and both indices keeps the invariant; its keys are new to both indices |
| `Allocators.SplitBlock` | src/core/allocator.cc:127-138 | taking `s` bytes from the front of a free block keeps the invariant, with the remainder indexed when there is one |
| `Allocators.SplitCovers` | src/core/allocator.cc:132-138 | after a split, the free addresses are the old ones minus the handed-out range, and the range lies below peak |
| `Allocators.ExtendTail` | src/core/allocator.cc:149-163 | removing the free tail block that ends at peak and raising peak by the shortfall keeps the invariant |
| `Allocators.TailCovers` | src/core/allocator.cc:149-166 | extending the tail hands out a range clear of the free blocks; that range plus the free blocks is the old free space plus the growth |
| `Allocators.NeighborFacts` | src/core/allocator.cc:191-212 | the left neighbour is the free block ending at the freed address; the right neighbour is the free block starting at the end of the freed range; the merged block spans both neighbours and the range |
| `Allocators.MergedCovers` | src/core/allocator.cc:188-216 | the free addresses after coalescing are the old free addresses plus the freed range |
| `Allocators.MergeBlocks` | src/core/allocator.cc:188-216 | the erase/merge/emplace sequence of `free` keeps the invariant, and the merged block's keys are new to both indices |
| `Allocators.FreeMerges` | src/core/allocator.cc:188-216 | the steps of `free` as written (read `blockEndToSize`, erase left, read `blockStartToSize`, erase right, emplace) give the merged block and keep the invariant |
| `Allocators.AllocIndices` | src/core/allocator.cc:118-176 | alloc's three branches on the indices: best fit with split, tail extension by the shortfall, or bump; the range is clear of the free blocks and the free space is preserved |
| `Allocators.FreeIndices` | src/core/allocator.cc:188-216 | free's index updates: the neighbours are replaced by the merged block, and the invariant is kept |
| `Allocators.Allocator.constructor` | src/core/allocator.cc:6-16 | `used`, `peak` and the indices start empty, no buffer is realized, and the alignment is 8 |
| `Allocators.Allocator.Alloc` | src/core/allocator.cc:108-177 | misuse after realization fails and changes nothing; otherwise it returns the best fit's address, the tail block's address or the old peak, with `used` and `peak` as the source updates them, and keeps the invariant |
| `Allocators.Allocator.Free` | src/core/allocator.cc:179-217 | misuse after realization fails and changes nothing; otherwise the freed range coalesces with its neighbours, the free addresses gain exactly that range, and the invariant is kept |
| `Allocators.Allocator.GetPtr` | src/core/allocator.cc:220-228 | the first call realizes `peak` bytes at the given base; later calls return the same pointer and change nothing |
| `Allocators.ReuseScenario` | src/core/allocator.cc:119-145 | allocating 64 bytes, freeing them and allocating 64 again reuses address 0 |
| `Allocators.SplitScenario` | src/core/allocator.cc:132-138 | allocating 100 bytes (104 aligned) and freeing them, then allocating 40 and 60 (64 aligned), gives addresses 0, 0 and 40; the remainder is reused exactly and peak stays 104 |
| `Allocators.TwoNeighbors` | src/core/allocator.cc:167-174 | two bumps of 32 bytes give addresses 0 and 32 and peak 64 |
| `Allocators.CoalesceLeftFirst` | src/core/allocator.cc:191-216 | freeing two neighbours left first merges them, and a 64-byte request reuses address 0 |
| `Allocators.CoalesceRightFirst` | src/core/allocator.cc:191-216 | freeing two neighbours right first merges them too, and a 64-byte request reuses address 0 |
| `Concat.FirstNonConforming` | src/operators/concat.cc:43-51 | the first input that differs from input 0 in rank or off the axis, or none exactly when every remaining input conforms |
| `Concat.ConcatShape` | src/operators/concat.cc:12-54 | the value Concat infers; it has no contract of its own, and `Concat.ConcatMeaning` and `Concat.ConcatFailureKind` state its success condition, result and failure kinds |
| `Concat.InferShape` | src/operators/concat.cc:12-54 | the accumulating loop of `inferShape` computes `ConcatShape` |
| `Concat.ConcatMeaning` | src/operators/concat.cc:12-54 | success exactly when every input conforms to input 0; the result has input 0's rank, the sum of the axis extents, and every input's extent on every other axis |
| `Concat.ConcatFailureKind` | src/operators/concat.cc:44-49 | the first non-conforming input decides the failure: RankMismatch for a different rank, ShapeMismatch for a different extent |
| `Concat.ConcatSingle` | src/operators/concat.cc:13-53 | one input gives that input's shape |
| `Concat.ConcatAppend` | src/operators/concat.cc:43-51 | one more conforming input adds its extent on the axis and changes nothing else |
| `Concat.ConcatExamples` | src/operators/concat.cc:12-54 | `[2,3] ++ [2,5]` on axis 1 is `[2,8]`; `[3,3]` against `[2,3]` is a ShapeMismatch; a rank-3 input against a rank-2 one is a RankMismatch |
| `MatMul.SwapLastTwo` | src/operators/matmul.cc:38-43 | the last two axes are exchanged and every other axis is kept |
| `MatMul.Oriented` | src/operators/matmul.cc:38-43 | orienting by a trans flag keeps the rank |
| `MatMul.ProductShape` | src/operators/matmul.cc:45-59 | the reference result shape has the larger operand rank |
| `MatMul.MatMulShape` | src/operators/matmul.cc:24-62 | the value MatMul infers; it has no contract of its own, and `MatMul.MatMulShapeMeaning` states exactly when it fails and what it yields |
| `MatMul.InferShape` | src/operators/matmul.cc:24-62 | `inferShape` (rank check, swaps, inner check, the last two axes, the broadcast loop) computes `MatMulShape` |
| `MatMul.FillBatch` | src/operators/matmul.cc:53-59 | the broadcast loop succeeds exactly when every batch axis broadcasts, and then yields the reference product shape |
| `MatMul.MatMulShapeMeaning` | src/operators/matmul.cc:24-62 | inference fails exactly when an operand has rank below 2 (RankMismatch), the inner extents differ, or a batch axis does not broadcast (ShapeMismatch); the result's last two axes are A's rows and B's columns |
| `MatMul.BatchAxesBroadcast` | src/operators/matmul.cc:53-59 | each batch axis of the result is a common broadcast of the operands' extents, and a missing axis reads as 1 |
| `MatMul.TransFlagIsSwap` | src/operators/matmul.cc:38-43 | toggling a trans flag is the same as swapping that operand's last two axes |
| `MatMul.SwapTwice` | src/operators/matmul.cc:38-43 | swapping the last two axes twice is the identity |
| `MatMul.SwapKeepsBatch` | src/operators/matmul.cc:54-55 | swapping the last two axes leaves every batch axis in place |
| `MatMul.ProductTransposed` | src/operators/matmul.cc:45-59 | the product of the swapped operands in reverse order is the swapped product |
| `MatMul.ProductOfTransposes` | src/operators/matmul.cc:24-62 | exchanging the operands and toggling both flags transposes the inferred shape (`(AB)^T = B^T A^T`) |
| `MatMul.BroadcastExample` | src/operators/matmul.cc:53-59 | `[1,4,3] x [5,3,2]` gives `[5,4,2]` |
| `MatMul.InnerMismatchExample` | src/operators/matmul.cc:47-48 | `[2,3] x [2,5]` is a ShapeMismatch; with `transA` it gives `[3,5]` |
| `Transpose.Identity` | src/operators/transpose.cc:10-16 | the identity permutation maps every axis to itself |
| `Transpose.MakePermute` | src/operators/transpose.cc:5-23 | an empty request gives the identity of the input's rank; a request of another length is a RankMismatch; otherwise the request is kept |
| `Transpose.Permuted` | src/operators/transpose.cc:47-48 | output axis i has input axis `perm[i]`'s extent, and the rank is kept |
| `Transpose.InferShape` | src/operators/transpose.cc:25-51 | the copy-then-overwrite loop of `inferShape` computes `Permuted` |
| `Transpose.Compose` | src/operators/transpose.cc:47-48 | composing two index maps gives an index map of the same rank that applies the first, then the second |
| `Transpose.IdentityKeepsShape` | src/operators/transpose.cc:10-16 | the default (identity) transpose keeps the shape |
| `Transpose.PermutedTwice` | src/operators/transpose.cc:47-48 | two transposes in a row are one transpose by the composed permutation |
| `Transpose.UndoRestoresShape` | src/operators/transpose.cc:47-48 | a transpose followed by one that undoes it restores the shape |
| `Transpose.InverseUndoes` | src/operators/transpose.cc:47-48 | the inverse of a permutation also undoes it in the other order |
| `Transpose.InverseRestoresShape` | src/operators/transpose.cc:47-48 | a transpose followed by its inverse restores the shape |
| `Transpose.SwapLastPermute` | src/operators/matmul.cc:38-43 | the permutation swapping the last two axes is a permutation |
| `Transpose.SwapLastSelfInverse` | src/operators/matmul.cc:38-43 | swapping the last two axes is its own inverse |
| `Unary.UnaryShape` | src/operators/unary.cc:11-15 | Unary's `inferShape`; it has no contract of its own, and `Unary.ElementwiseKeepShape` states that it is input 0's shape alone |
| `Unary.ClipShape` | src/operators/unary.cc:36-59 | Clip's `inferShape`; it has no contract of its own, and `Unary.ElementwiseKeepShape` states that it is input 0's shape alone, whatever bound inputs follow |
| `Unary.CastShape` | src/operators/unary.cc:114-123 | Cast's `inferShape`; it has no contract of its own, and `Unary.ElementwiseKeepShape` states that it is input 0's shape alone |
| `Unary.OutputDataType` | src/operators/unary.cc:134-191 | `getOutputDataType` halts (UnsupportedCast) exactly on a conversion the table does not list |
| `Unary.CastDataTypes` | src/operators/unary.cc:78-112 | `inferDataType` yields a single data type, and fails exactly on a conversion the table does not list |
| `Unary.TableMatchesNames` | src/operators/unary.cc:134-191 | every listed conversion yields the target type its name spells; only an unlisted one fails (`IT_TODO_HALT`) |
| `Unary.ToFloatGivesFloat32` | src/operators/unary.cc:134-191 | every conversion into `Float` gives Float32, and `Int642Uint32` gives UInt32 |
| `Unary.CastDataTypesSingle` | src/operators/unary.cc:78-112 | Cast infers exactly one output data type, the table's, and fails exactly when the table does |
| `Unary.ElementwiseKeepShape` | src/operators/unary.cc:11-15 | Unary, Clip and Cast infer exactly one shape, input 0's, and Clip ignores its bound inputs |
| `GraphCore.Fresh` | src/core/graph.cc:390-393 | a newly made object's identity differs from every existing one |
| `GraphCore.FindFuid` | src/core/graph.cc:279-289 | the scan finds the first listed tensor with the fuid, or none exactly when no listed tensor has it |
| `GraphCore.GetTensor` | src/core/graph.cc:279-289 | the result is a listed tensor with that fuid, and none exactly when no listed tensor has it |
| `GraphCore.GetTensorExact` | src/core/graph.cc:279-289 | when fuids are distinct, looking a listed tensor's fuid up gives that tensor |
| `GraphCore.CheckTensorsFrom` | src/core/graph.cc:418-428 | the tensor loop of `checkValid` can only pass or report a dangling link; `GraphCore.CheckTensorsMeaning` states exactly when it passes |
| `GraphCore.CheckOpsFrom` | src/core/graph.cc:429-449 | the operator loop of `checkValid` can only pass or report a dangling link; `GraphCore.CheckOpsMeaning` states exactly when it passes |
| `GraphCore.CheckFuidsFrom` | src/core/graph.cc:450-457 | the family-id loop of `checkValid` can only pass or report a duplicate; `GraphCore.CheckFuidsMeaning` states exactly when it passes |
| `GraphCore.CheckValid` | src/core/graph.cc:416-459 | `checkValid` passes, reports a dangling link or reports a duplicate family id, and nothing else; `GraphCore.CheckValidMeaning` states which |
| `GraphCore.CheckTensorsMeaning` | src/core/graph.cc:418-428 | the tensor loop passes exactly when every listed tensor has a producer or a consumer, and all of them are listed operators; otherwise it reports DanglingReference |
| `GraphCore.CheckOpsMeaning` | src/core/graph.cc:429-449 | the operator loop passes exactly when every input, output, predecessor and successor of every listed operator is listed; otherwise it reports DanglingReference |
| `GraphCore.CheckFuidsMeaning` | src/core/graph.cc:450-457 | the fuid loop passes exactly when no two listed tensors share a fuid, and none repeats an earlier one; otherwise it reports DuplicateIdentity |
| `GraphCore.CheckValidMeaning` | src/core/graph.cc:416-459 | `checkValid` passes exactly on a well-formed graph; DuplicateIdentity exactly when the wiring is valid but fuids repeat; no other outcome |
| `Graphs.UnlinkedTensorRejected` | src/core/graph.cc:420-421 | a listed tensor with neither producer nor consumer makes `checkValid` fail with DanglingReference |
| `Connect.AddTarget` | src/core/graph.cc:19 | `addTarget` changes only the tensor's consumer list |
| `Connect.Link` | src/core/graph.cc:22-23 | linking two operators changes only operator records |
| `Connect.LinkEffect` | src/core/graph.cc:22-23 | after linking, `q` is a successor of `p` and `p` is a predecessor of `q`, and no operator loses a link |
| `Connect.LinkInput` | src/core/graph.cc:17-25 | one input step keeps the lists and the object sets |
| `Connect.ConnectInputs` | src/core/graph.cc:15-26 | the input loop keeps the lists and the object sets |
| `Connect.LinkTargets` | src/core/graph.cc:32-36 | the consumer loop changes only operator records |
| `Connect.SetSource` | src/core/graph.cc:31 | `setSource` changes only tensor records |
| `Connect.LinkOutput` | src/core/graph.cc:29-37 | one output step keeps the lists and the object sets |
| `Connect.ConnectOutputs` | src/core/graph.cc:27-38 | the output loop keeps the lists and the object sets |
| `Connect.ConnectOp` | src/core/graph.cc:11-39 | `addOperatorAndConnect` appends the operator to the list, adds its object, and keeps the tensor list |
| `Connect.ConnectClosed` | src/core/graph.cc:11-39 | connecting an operator whose tensors exist keeps the graph closed |
| `Connect.ConnectOnlyLinks` | src/core/graph.cc:11-39 | the new operator keeps its kind, inputs and outputs; old operators only gain links; no tensor changes kind, shape, fuid or data |
| `Connect.ConnectTensors` | src/core/graph.cc:15-38 | a tensor gains exactly the new operator as a consumer when it is an input, and takes it as its producer exactly when it is an output |
| `Connect.ConnectLinksProducers` | src/core/graph.cc:20-24 | the producer of every input becomes a predecessor of the new operator, which becomes its successor |
| `Connect.ConnectLinksConsumer` | src/core/graph.cc:32-36 | every earlier consumer of an output becomes a successor of the new operator, which becomes its predecessor |
| `Connect.ConnectSelfLoop` | src/core/graph.cc:15-38 | an operator whose output is also its input becomes its own predecessor and successor |
| `Connect.ConnectLinksExact` | src/core/graph.cc:15-38 | an operator already in the graph gains exactly one possible neighbour, the new operator: as a successor exactly when it produces one of the new operator's inputs, as a predecessor exactly when it consumes one of its outputs |
| `Connect.ConnectNewLinksExact` | src/core/graph.cc:15-38 | the new operator's predecessors are exactly the producers of its inputs and its successors exactly the consumers of its outputs, plus itself exactly when it reads a tensor it writes |
| `Connect.ConnectKeepsSymmetric` | src/core/graph.cc:15-38 | when every link of the graph runs both ways, it still does after connecting |
| `Connect.InputsTensor` | src/core/graph.cc:15-26 | the input loop only adds the new operator to the consumer lists of its inputs; other tensors and every producer are untouched |
| `Connect.InputConsumed` | src/core/graph.cc:19 | every input lists the new operator as a consumer |
| `Connect.InputLinked` | src/core/graph.cc:20-24 | each input's producer and the new operator are linked both ways |
| `Connect.TargetLinked` | src/core/graph.cc:32-36 | each consumer in the list and the new operator are linked both ways |
| `Connect.OutputsTensor` | src/core/graph.cc:27-38 | the output loop sets the new operator as the producer of exactly its outputs and changes nothing else in any tensor |
| `Connect.OutputLinked` | src/core/graph.cc:32-36 | each consumer of an output and the new operator are linked both ways |
| `Graphs.LinkEitherOrder` | src/core/graph.cc:22-23 | adding the successor first or the predecessor first gives the same graph |
| `TopoSort.ReadyMeaning` | src/core/graph.cc:80-87 | an operator is placed in a scan exactly when it is not placed yet and every operator it depends on is placed |
| `TopoSort.PlacedDistinct` | src/core/graph.cc:89-91 | the placed list has no repeats and holds exactly the flagged operators |
| `TopoSort.Scan` | src/core/graph.cc:77-88 | one pass of the inner `for` loop; it has no contract of its own, and `TopoSort.ScanFacts` states what a scan does |
| `TopoSort.ScanFacts` | src/core/graph.cc:77-93 | one scan extends the placed list, keeps it ordered, and either places a new operator or leaves everything unchanged with no operator ready |
| `TopoSort.Rounds` | src/core/graph.cc:74-94 | the outer `while` loop; it has no contract of its own, and `TopoSort.RoundsSuccess`, `TopoSort.RoundsBlocked` and `TopoSort.RoundsStuck` state when it succeeds and what it yields |
| `TopoSort.TopoOrder` | src/core/graph.cc:64-101 | the order `topo_sort` installs; it has no contract of its own, and `TopoSort.TopoSucceeds` and `TopoSort.TopoFails` state exactly when it succeeds and what it yields |
| `TopoSort.TopoOrderLoop` | src/core/graph.cc:64-101 | the nested loops of `topo_sort` compute `TopoOrder` |
| `TopoSort.ScanLoop` | src/core/graph.cc:77-93 | the inner loop computes one scan, and `modified` is set exactly when it placed something |
| `TopoSort.RoundsSuccess` | src/core/graph.cc:74-98 | a successful run of scans lists distinct listed operators, at least as many as the list holds, in dependency order |
| `TopoSort.FillsOps` | src/core/graph.cc:74 | a repeat-free result of at least the list's length drawn from the list forces the list to be repeat-free, with the same elements |
| `TopoSort.TopoSucceeds` | src/core/graph.cc:64-101 | a successful sort is a permutation of a repeat-free operator list in which every operator follows the producers of its inputs |
| `TopoSort.RoundsBlocked` | src/core/graph.cc:94-97 | a knot (operators each reading from the knot or from an unlisted producer) makes the sort fail |
| `TopoSort.RoundsStuck` | src/core/graph.cc:94-97 | when the sort fails on a repeat-free list, a knot exists |
| `TopoSort.TopoFails` | src/core/graph.cc:64-101 | the sort fails exactly when the list repeats an operator or holds a knot |
| `TopoSort.CycleFails` | src/core/graph.cc:94-97 | a dependency cycle among listed operators makes the sort fail |
| `Graphs.Sorted` | src/core/graph.cc:64-101 | an already sorted graph is returned as it is; otherwise exactly the operator list changes, into a repeat-free dependency order with the same multiset, and failure is exactly a repeat or a knot |
| `Optimize.DropSuccessor` | src/core/graph.cc:227-229 | each listed predecessor forgets every occurrence of the operator as a successor; every other record is untouched |
| `Optimize.DropPredecessor` | src/core/graph.cc:230-232 | each listed successor forgets every occurrence of the operator as a predecessor; every other record is untouched |
| `Optimize.Consumer` | src/core/graph.cc:200-201 | the Transpose's first successor is an operator of the graph |
| `Optimize.Fold` | src/core/graph.cc:245-251 | folding fails exactly when the MatMul has no input, or has one input that is not the transpose's output (a read of `inputs[1]` past the end); a fold keeps the kind MatMul, the outputs and the links |
| `Optimize.FoldMeaning` | src/core/graph.cc:245-251 | folding toggles exactly the flag of the operand slot that reads the transpose's output and redirects the read; neither slot reading it leaves the MatMul unchanged |
| `Optimize.Retarget` | src/core/graph.cc:210-213 | redirecting a consumer changes only tensor records |
| `Optimize.SetOp` | src/core/graph.cc:216-219 | overwriting an operator record changes only operator records |
| `Optimize.DropTensor` | src/core/graph.cc:222-223 | `removeTensor` removes every occurrence from the tensor list and changes no object |
| `Optimize.EraseOps` | src/core/graph.cc:234-235 | erasing changes only the operator list, which loses exactly the erased positions |
| `Optimize.FoldKeepsLinks` | src/core/graph.cc:245-251 | the folded MatMul refers only to existing tensors and operators |
| `Optimize.EliminatePair` | src/core/graph.cc:200-236 | the T→T rewrite keeps the graph closed, erases positions i and i+1, drops both transposes' outputs from the tensor list, and fails exactly when the second transpose has no successor or output |
| `Optimize.FuseMatMul` | src/core/graph.cc:237-269 | the T→MatMul rewrite keeps the graph closed, erases position i, drops the transpose's output, and fails exactly when the fold reads past the MatMul's inputs |
| `Optimize.OptimizeAt` | src/core/graph.cc:193-275 | one loop visit keeps the graph closed, only shrinks the operator list, and advances; a visit that only advances changes nothing |
| `Optimize.OptimizeFrom` | src/core/graph.cc:193-276 | the pass from position i; it has no contract of its own, and `Optimize.OptimizeKeepsClosed` and `Optimize.NoTransposeUnchanged` state what it keeps |
| `Optimize.OptimizeLoop` | src/core/graph.cc:193-276 | the iterator loop over the shrinking list computes `OptimizeFrom` |
| `Optimize.OptimizeKeepsClosed` | src/core/graph.cc:193-276 | the pass keeps the graph closed, keeps every object, and only removes operators from the list |
| `Optimize.NoTransposeUnchanged` | src/core/graph.cc:193-276 | with no Transpose before the last position, the pass changes nothing |
| `Optimize.FusionRemovesTranspose` | src/core/graph.cc:258-268 | fusion removes exactly the transpose from the operator list and exactly its output from the tensor list |
| `Optimize.FusionRewires` | src/core/graph.cc:245-267 | after fusion the MatMul is the folded record minus the transpose as a predecessor, and the transpose's input lists the MatMul in the transpose's place |
| `Optimize.EliminationRemovesPair` | src/core/graph.cc:222-235 | when the second transpose directly follows in the list, elimination removes exactly the two transposes and their two outputs |
| `Optimize.EliminationRewires` | src/core/graph.cc:210-219 | after elimination the operator after the pair reads the first transpose's input in place of the second's output, and that input lists it in place of the first transpose |
| `Optimize.EliminationErasesNeighbour` | src/core/graph.cc:234-235 | when the second transpose is not next in the list, elimination keeps it and erases the unrelated operator at position i+1 |
| `Optimize.FusionExactForSwap` | src/core/graph.cc:245-247 | a transpose of A that swaps its last two axes gives the same MatMul shape as toggling `transA` |
| `Optimize.FusionExactForSwapB` | src/core/graph.cc:248-250 | a transpose of B that swaps its last two axes gives the same MatMul shape as toggling `transB` |
| `Optimize.FusionIgnoresPermutation` | src/core/graph.cc:245-247 | a transpose of batch axes followed by MatMul infers `[3,2,4]`; the fused MatMul infers `[2,3,4]` |
| `Optimize.EliminationExactForInverse` | src/core/graph.cc:200-235 | when the second permutation inverts the first, removing the pair keeps the shape the consumer sees |
| `Optimize.EliminationIgnoresPermutations` | src/core/graph.cc:200-235 | two non-inverse transposes of `[2,3,4]` give `[3,4,2]` and not the input, yet the pass removes them |
| `ShapeInfer.InputShapes` | src/core/graph.cc:295 | the shapes passed to `inferShape` are those of the operator's inputs, in order |
| `ShapeInfer.InferOp` | src/core/graph.cc:295-296 | every supported operator infers exactly one output shape |
| `ShapeInfer.InferOpMeaning` | src/core/graph.cc:295-296 | by kind: a missing input fails; Transpose succeeds exactly on an in-range permutation and permutes; element-wise operators keep input 0's shape; MatMul and Concat follow their rules |
| `ShapeInfer.InferOpShapes` | src/core/graph.cc:295 | dispatching to each operator's `inferShape` method computes `InferOp` |
| `ShapeInfer.SetShape` | src/core/graph.cc:308 | `setShape` changes only tensor records |
| `ShapeInfer.SetShapeKeeps` | src/core/graph.cc:308 | `setShape` keeps the graph closed and changes only a shape |
| `ShapeInfer.ApplyShapesOnlyShapes` | src/core/graph.cc:300-310 | the output loop keeps the graph closed and changes only shapes |
| `ShapeInfer.ShapeInferFrom` | src/core/graph.cc:291-312 | a successful pass keeps the graph closed and changes only shapes |
| `ShapeInfer.ShapeInferLoop` | src/core/graph.cc:291-312 | the nested loops of `shape_infer` compute `ShapeInferFrom` |
| `ShapeInfer.ApplyShapes` | src/core/graph.cc:300-310 | the output loop of `shape_infer`; it has no contract of its own, and `ShapeInfer.ApplyShapesEffect` states the exact new shapes |
| `ShapeInfer.ApplyShapesLoop` | src/core/graph.cc:300-310 | the inner loop (compare, `getTensor` by fuid, `setShape`) computes `ApplyShapes` |
| `ShapeInfer.ApplyShapesEffect` | src/core/graph.cc:300-310 | with listed, distinct outputs and distinct fuids, every output takes its inferred shape and every other tensor is unchanged |
| `ShapeInfer.ApplyShapesSucceeds` | src/core/graph.cc:304-308 | when the outputs are listed and fuids are distinct, `getTensor` always finds the tensor |
| `ShapeInfer.ApplyShapesSets` | src/core/graph.cc:302-308 | output m takes shape m |
| `ShapeInfer.ApplyShapesKeeps` | src/core/graph.cc:300-310 | a tensor that is not a remaining output keeps its record |
| `ShapeInfer.SetShapeFuids` | src/core/graph.cc:308 | `setShape` keeps fuids distinct |
| `ShapeInfer.ShapeInferFixedPoint` | src/core/graph.cc:291-312 | on a graph whose shapes already agree with inference, the pass changes nothing |
| `ShapeInfer.ApplyUnchanged` | src/core/graph.cc:305 | outputs whose shapes already agree are not touched |
| `ShapeInfer.ShapeInferHalts` | src/core/graph.cc:296 | an operator whose inference fails stops the pass with that error |
| `ShapeInfer.ShapeInferCountMismatch` | src/core/graph.cc:298 | an operator with a number of outputs other than one stops the pass with ShapeMismatch |
| `Graphs.Graph.constructor` | src/core/allocator.cc:6-16 | an empty, unsorted graph owning a fresh allocator with nothing allocated |
| `Graphs.Graph.AddTensor` | src/core/graph.cc:390-393 | a new tensor object, with no producer, consumer or data, is appended to the list |
| `Graphs.Graph.AddExistingTensor` | src/core/graph.cc:395-403 | an existing tensor is appended to the list |
| `Graphs.Graph.AddTensors` | src/core/graph.cc:405-410 | the given tensors are appended in order |
| `Graphs.Graph.AddOperatorAndConnect` | src/core/graph.cc:11-39 | the graph becomes `ConnectOp` of the old one with a fresh operator and is marked unsorted |
| `Graphs.Graph.ConnectInputsLoop` | src/core/graph.cc:15-26 | the input loop on the fields computes `ConnectInputs` |
| `Graphs.Graph.LinkInputStep` | src/core/graph.cc:17-25 | one input step on the fields computes `LinkInput` |
| `Graphs.Graph.ConnectOutputsLoop` | src/core/graph.cc:27-38 | the output loop on the fields computes `ConnectOutputs` |
| `Graphs.Graph.LinkOutputStep` | src/core/graph.cc:29-37 | one output step on the fields computes `LinkOutput` |
| `Graphs.Graph.LinkTargetsLoop` | src/core/graph.cc:32-36 | the consumer loop on the fields computes `LinkTargets` |
| `Graphs.Graph.TopoSort` | src/core/graph.cc:64-101 | the result is true exactly when `Sorted` succeeds; then the graph is that result and marked sorted; on failure the list and the flag are unchanged |
| `Graphs.Graph.Optimize` | src/core/graph.cc:180-277 | a failed sort is CycleDetected and changes nothing; otherwise the graph is sorted and becomes `OptimizeFrom` of the sorted graph, or the pass's error is reported |
| `Graphs.Graph.ShapeInfer` | src/core/graph.cc:291-312 | the graph becomes `ShapeInferFrom` of the old one, or the error is reported and the graph is unchanged |
| `Graphs.Graph.DataMalloc` | src/core/graph.cc:314-388 | a failed sort is CycleDetected; a realized allocator with tensors to place is AllocatorMisuse; success exactly otherwise, with the graph sorted, lists and operators unchanged, and every listed tensor bound inside the arena, clear of the free blocks, without overlap |
| `Graphs.Graph.PlaceTensors` | src/core/graph.cc:371-385 | the allocation loop, `getPtr` and the binding loop fail exactly on a realized allocator with tensors to place, and otherwise place every listed tensor |
| `Graphs.Place` | src/core/graph.cc:371-385 | the same on a graph value: the new tensor map keeps the graph closed and satisfies the placement |
| `Graphs.Reserve` | src/core/graph.cc:373-378 | offsets for every listed tensor, then the buffer at the old pointer or at the base, with peak not decreasing |
| `Graphs.PlanOffsets` | src/core/graph.cc:373-376 | one offset per listed tensor, each inside the arena, clear of the free blocks, no two overlapping; misuse exactly when realized with tensors to place |
| `Graphs.BindLoop` | src/core/graph.cc:380-385 | every tensor with an offset is bound to buffer plus offset; the others are untouched |
| `Graphs.FreshRangeApart` | src/core/graph.cc:373-376 | a range handed out earlier stays clear of the free blocks and is disjoint from the next range handed out |
| `Graphs.PlannedStep` | src/core/graph.cc:373-376 | one more allocation extends the plan, keeping the earlier offsets valid |

## Left out

- Printing and reporting are not modelled: `toString`, `info` and the `printf` in `getPtr`.
- The runtime is not modelled: `runtime->alloc`, `dealloc`, the allocator's destructor and `BlobObj`. The realized pointer is the parameter `base` of `DataMalloc` and `GetPtr`, and a blob is the number `base + offset`.
- `getBytes` is not modelled; it is the parameter `bytes` of `DataMalloc`.
- Identity and fuid assignment happen inside the tensor and operator constructors, which are not part of this model. A new identity is any value outside the existing ones (`Fresh`), and `AddTensor` takes the fuid as a parameter.
- Null tensor entries are not represented, so the `if (input)` and `if (output)` guards (graph.cc:17, 29) always pass.
- `graph.h`, the tensor and operator classes and `operator_utils.h` are not part of this model. Their list operations are modelled as sequence operations: `addTarget`, `addPredecessors` and `addSuccessors` append; `removeTarget`, `removeTensor`, `removeSuccessors` and `removePredecessors` erase every occurrence; `replaceInput` replaces every occurrence.
- `getOutput` is modelled as a Transpose having exactly one output.
- Concat's constructor normalizes a negative axis with `get_real_axis`, which is not part of this model. The axis reaching inference is taken to lie in `[0, rank)`.
- `Concat.InferShape`: requires `0 <= dim < rank`, the normalized axis. The shape pass fails with AxisOutOfRange otherwise. The in-code no-op checks (concat.cc:35-39) are not modelled.
- `Transpose.InferShape`: requires every permutation entry to name an axis, because the source reads out of range otherwise. The shape pass fails with AxisOutOfRange otherwise.
- `Transpose.MakePermute`: the empty-request branch assumes the member vector holds the identity; its declaration is in `transpose.h`, which is not part of this model.
- The operators' `checkValid` calls in their constructors are not modelled.
- Clip's optional float bounds are not modelled, because no inferred shape depends on them.
- Every `IT_ASSERT` and `IT_TODO_HALT` that aborts the process becomes a `Failure`. The state after an abort cannot be observed, so `ShapeInfer` leaves the graph unchanged on failure and `Optimize` makes no claim about the state after a failed rewrite.
- An index read past the end of a list is undefined behaviour in the source, such as `getInputs()[0]`, `getSuccessors()[0]` or `inputs[1]`; the model fails with DanglingReference.
- The passes' loops run on value copies of the graph that are written back to the fields. Aliasing between records is modelled through the identity maps.
- `dataMalloc` binds through an `unordered_map`, so its iteration order is unspecified; the model binds in any order with the same result. When a tensor is listed twice, the map keeps its last offset. The model's plan is keyed by tensor in the same way.
- `Allocators.Allocator.Free`: requires that the freed range lies below `peak` and meets no free block. The source checks neither. Without these the three indices can disagree after `emplace`.
- `Allocators.Allocator.Alloc`: in the tail branch `used` grows by the shortfall only (allocator.cc:162), and `free` never decreases `used`. The model follows the code, and no bound relating `used` to `peak` is claimed.
- `Allocators.Allocator.Alloc`: `used`, `peak` and the addresses handed out are unbounded integers, while the source's are `size_t` (allocator.h:17-19). The wrap past 2^64 is not modelled. For example, after two allocations of 2^63 bytes the source's `peak` wraps to 0, and a third allocation of 8 bytes returns address 0 again, overlapping the first block; the model returns 2^64 and `peak` becomes 2^64 + 8.
- The default rewrite pass (graph.cc:103-178) is commented out and not modelled.
- Quirks of `optimize` that the model keeps as written:
  - the T→T rewrite erases positions i and i+1 whatever operator sits at i+1;
  - neither rewrite checks that the permutations are inverse or that they swap the last two axes;
  - the consumers of the removed transposes' outputs are not relinked as successors;
  - the last operator is never examined.
  These are stated as lemmas: `EliminationErasesNeighbour`, `FusionIgnoresPermutation` and `EliminationIgnoresPermutations`.
