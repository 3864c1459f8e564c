# BLAKE3, packed workloads, trace simulator and device handles: a Dafny model

This project models four parts of the repository and proves their main properties.

1. **The BLAKE3 hasher** (`thirdparty/blake3`). The specification is the recursive tree of
   sections 2.1, 2.4, 2.5 and 2.6 of the BLAKE3 specification (`Tree.dfy`), for any
   compression function. The code is a stateful hasher: a partial chunk (`Chunk.dfy`), a
   recursive subtree compressor as wide as the SIMD degree (`Subtree.dfy`), and a lazily
   merged stack driven by the population count, with seekable output (`Hasher.dfy`). The
   hasher is proved to be the tree hash for every way of cutting the input. The portable
   compression (`Compression.dfy`), the row-vector compression (`RowCompress.dfy`), the
   transposition networks (`Transpose.dfy`), batched hashing (`Batch.dfy`) and batched output
   (`XofBatch.dfy`) are proved equal to the same specification. What its words mean as
   numbers and bytes is in `Digits.dfy`, and the digests that the repository's tests expect
   are derived from it in `KnownAnswers.dfy`.
2. **The packed workloads**. A ciphertext is its ideal vector of real slots (`Packed.dfy`).
   Training on packed slots (`Logistic.dfy`) is plain gradient descent, on the CPU with
   doubling trees and on the GPU prototype with base-4 cascades (`Cascade.dfy`); the
   network (`Inference.dfy`) is computed by diagonals.
3. **The trace simulator** (`simulate/simulator`). Costs and stages (`Pipeline.dfy`), what an
   event's stages add up to (`Expansion.dfy`), resources (`Resources.dfy`), the schedule of any
   run with its safety, monotonicity, bounds and conservation (`Schedule.dfy`), the proof that it
   is the only schedule without idle waiting (`Eager.dfy`), and the event loop that computes and
   reports it (`Engine.dfy`).
4. **FIDESlib's sums and device handles**. Tree sums of many ciphertexts (`TreeSums.dfy`) and the
   registry that gives mutable ciphertext objects value semantics (`Handles.dfy`).

`Bits.dfy` holds powers of two, alignment, population counts and masks on unbounded numbers.

`dafny verify dfyconfig.toml` checks the whole project.

Where the code departs from what one would expect, the code is modelled and the exact
condition is proved: the base-4 cascade sums terms beyond the size unless its last step
divides the size (`Cascade.CascadeExactIff`), the device's number minus ciphertext has the
wrong sign (`Handles.ScalarMinusAgreesIff`), and device handles repeat after 2^32
registrations (`Handles.HandlesAreGoodIff`), and the in-place sum of many ciphertexts is
wrong for vectors that share an object in any but two ways (`TreeSums.InPlaceSumIff`).

## Model

| member | source | states |
|---|---|---|
| `Hasher.Hasher.Update` | thirdparty/blake3/blake3.c:462-569 | Feeding any input to any reachable hasher keeps the invariant and makes the bytes hashed exactly the old ones followed by the input |
| `Hasher.Hasher.FinalizeSeek` | thirdparty/blake3/blake3.c:576-618 | Fills the buffer with bytes `seek` onwards of the root output stream of the recursive tree over all bytes fed so far, and changes nothing else, so feeding can go on afterwards |
| `Hasher.HashPieces` | thirdparty/blake3/blake3.c:462-618 | Main theorem: for every way of cutting a message into updates, every power-of-two SIMD degree, seek and length, and with outputs read in between, the result is the tree hash of the whole message |
| `Hasher.Blake3Hash` | gpucc-vfhe/src/common/hashing.cpp:9-18 | `blake3_hash` is the 32-byte BLAKE3 tree hash of its input, empty input included |
| `KnownAnswers.EmptyAnswer` | gpucc-vfhe/tests/test_hashing.cpp:10-15 | The BLAKE3 digest of the empty message is the one that the tests expect, derived from the definitions through all seven rounds |
| `KnownAnswers.TestAnswer` | gpucc-vfhe/tests/test_hashing.cpp:17-22 | So is the digest of the four letters "test" |
| `Hasher.Hasher.StackInvariant` | thirdparty/blake3/blake3.c:399-460 | In every reachable state the stack holds the nodes of consecutive aligned power-of-two chunk ranges that cover exactly the finished chunks; none covers all input; the length is the population count while a chunk is in progress, at least 2 otherwise, and at most 55 |
| `Hasher.SpansTile` | thirdparty/blake3/blake3.c:399-410 | The merged stack, by lowest binary digits, is a tiling of the chunks by aligned powers of two |
| `Hasher.StackDepth` | thirdparty/blake3/blake3.c:399-420 | The merged stack has one entry per one digit of the chunk count |
| `Hasher.MergeStep` | thirdparty/blake3/blake3.c:411-420 | A lazily merged stack is longer than the population count exactly when its two top nodes are siblings, and merging them is one step towards the merged stack |
| `Hasher.SiblingsMerge` | thirdparty/blake3/blake3.c:411-420 | The parent of two adjacent equal power-of-two nodes is the tree node of their union |
| `Hasher.Hasher.MergeCvStack` | thirdparty/blake3/blake3.c:411-420 | The population-count loop turns any lazy stack into the merged stack, and is safe in its array |
| `Hasher.Hasher.PushCv` | thirdparty/blake3/blake3.c:454-460 | Merges what was there, leaves the new chaining value unmerged on top, and never overflows the 55 slots for inputs below 2^64 bytes |
| `Hasher.PickSubtreeLen` | thirdparty/blake3/blake3.c:511-533 | The mask loop ends with the largest power of two of chunks that fits in the input and divides the chunks so far; if that is one chunk, more input follows |
| `Hasher.MaskTest` | thirdparty/blake3/blake3.c:528-530 | The bit mask test is divisibility of the byte count so far |
| `Hasher.Hasher.FinishChunk` | thirdparty/blake3/blake3.c:476-495 | The chunk in progress is filled first and pushed only when more input follows, so that it can still be the root |
| `Hasher.Hasher.PushSubtree` | thirdparty/blake3/blake3.c:510-557 | One round of the update loop puts a whole subtree on the stack as one chunk or as two unmerged halves, with strictly less input left |
| `Hasher.Hasher.FinishInput` | thirdparty/blake3/blake3.c:559-568 | What is left goes into the chunk state, and the stack is merged |
| `Hasher.Hasher.RootOutput` | thirdparty/blake3/blake3.c:586-616 | The chunk in progress, or the two top halves, rolled up with the stack, is the root node of the tree over all bytes |
| `Hasher.Hasher.RollUpStack` | thirdparty/blake3/blake3.c:610-616 | Each step of the roll-up loop extends the rightmost node by the stack entry to its left until it is the root |
| `Hasher.OutputRootBytes` | thirdparty/blake3/blake3.c:89-116 | A partial first block, whole blocks and a partial last block are exactly the requested bytes of the unbounded output stream |
| `Hasher.XofMany` | thirdparty/blake3/blake3.c:106-108 | Writes whole blocks of the output stream and nothing outside them |
| `Hasher.Hasher.constructor` | thirdparty/blake3/blake3.c:369-376 | A new hasher satisfies the invariant with no bytes fed |
| `Hasher.Hasher.Reset` | thirdparty/blake3/blake3.c:620-623 | A reset hasher is as good as a new one |
| `Tree.RootBytesConcat` | thirdparty/blake3/blake3.c:89-116 | Adjacent reads of the output stream concatenate to one longer read |
| `Tree.LeftLenSpec` | thirdparty/blake3/blake3.c:158-167 | The left subtree has a power of two of chunks, leaves at least one byte, and is at least half |
| `Tree.LeftLenUnique` | thirdparty/blake3/blake3.c:158-160 | That description determines the split |
| `Tree.TreeSplit` | thirdparty/blake3/blake3.c:158-167 | A node over at most twice a power of two of chunks, and more than one, is the parent of the parts split there |
| `Tree.OneBlockNode` | thirdparty/blake3/blake3.c:146-151 | A message of one block is one open compression from the key with both chunk flags |
| `Tree.TwoBlockNode` | thirdparty/blake3/blake3.c:118-151 | A message of two blocks chains the first, with the start flag only, and keeps the second open with the end flag only |
| `Tree.TwoChunkNode` | thirdparty/blake3/blake3.c:153-156 | A message of two chunks is the open parent of the two chunk values, left before right, with counter zero and the parent flag |
| `Chunk.ChunkState.Update` | thirdparty/blake3/blake3.c:118-144 | Fed at most 1024 bytes in any pieces, the buffer, block count and running chaining value depend only on the concatenated bytes, with the last block held back |
| `Chunk.ChunkState.FillBuf` | thirdparty/blake3/blake3.c:34-44 | Takes as much as fits behind the buffered bytes |
| `Chunk.ChunkState.GetOutput` | thirdparty/blake3/blake3.c:146-151 | The open last block of the chunk over exactly the bytes fed |
| `Chunk.ChunkState.Reset` | thirdparty/blake3/blake3.c:20-27 | An empty chunk state for the given counter |
| `Subtree.HashOne` | thirdparty/blake3/blake3_portable.c:125-143 | Chains the compressions over all blocks of one input, with start and end flags on the first and last |
| `Subtree.HashOneIsChunk` | thirdparty/blake3/blake3_portable.c:125-143 | Hashing a full chunk in one call gives the chaining value of the chunk state fed with it |
| `Subtree.HashMany` | thirdparty/blake3/blake3_portable.c:145-160 | Writes for each input what hashing it alone writes, with the counter running along or fixed, and nothing else |
| `Subtree.CompressChunksParallel` | thirdparty/blake3/blake3.c:172-209 | One chaining value per chunk, the partial last one included, each for its own counter |
| `Subtree.HashLastChunk` | thirdparty/blake3/blake3.c:194-205 | A partial chunk hashed by its own chunk state gives its chunk value |
| `Subtree.CompressParentsParallel` | thirdparty/blake3/blake3.c:216-249 | The row of parents of adjacent pairs, an odd last value carried over |
| `Subtree.PairUpFold` | thirdparty/blake3/blake3.c:358-364 | Condensing a row pairwise keeps the root of the left-full tree over it, and for three or more values even its two top children |
| `Subtree.ChunkFold` | thirdparty/blake3/blake3.c:172-209 | The chunk values of an input, folded as a left-full tree, are the tree node of the input, split where `left_len` splits |
| `Subtree.WideLength` | thirdparty/blake3/blake3.c:251-263 | The row has between 1 and max(degree, 2) values, one only for a single chunk, and full width for a full subtree |
| `Subtree.WideFold` | thirdparty/blake3/blake3.c:251-325 | For every degree the row folds to the tree node of the input, with its two top children those of the specification's split |
| `Subtree.CompressSubtreeWide` | thirdparty/blake3/blake3.c:268-325 | Computes that row within the bounds of both arrays, the special case for degree 1 included |
| `Subtree.CondenseRows` | thirdparty/blake3/blake3.c:309-325 | Two chunks stay unmerged so that the root is never compressed here; otherwise the row of parents |
| `Subtree.ComputeLeftLen` | thirdparty/blake3/blake3.c:161-167 | Computes the split of the specification |
| `Subtree.CompressSubtreeToParentNode` | thirdparty/blake3/blake3.c:337-367 | Returns exactly the two child chaining values of the tree node, for every degree |
| `Bits.RoundDownToPowerOf2` | thirdparty/blake3/blake3_impl.h:135-139 | The largest power of two not above a non-zero 64-bit number, and 1 for zero |
| `Bits.HighestOne` | thirdparty/blake3/blake3_impl.h:109-119 | The narrowing shifts find the index of the top bit |
| `Bits.PopCnt` | thirdparty/blake3/blake3_impl.h:121-133 | Clearing the lowest bit until nothing is left counts the one digits |
| `Digits.AndOrDigits` | thirdparty/blake3/blake3_impl.h:109-139 | The bitwise operations that these helpers use work digit by digit on numbers |
| `Compression.LoadStoreWords` | thirdparty/blake3/blake3_impl.h:147-189 | Loading stored words gives them back |
| `Digits.BlockBytes` | thirdparty/blake3/blake3_impl.h:147-170 | Byte k of message word i is byte 4i + k of the block, the least significant first |
| `Digits.StoredBytes` | thirdparty/blake3/blake3_impl.h:172-189 | Stored bytes are the bytes of the words, the least significant first |
| `Digits.WordDoubles` | thirdparty/blake3/blake3_impl.h:141-145 | The word of a number: zero for zero, shifted to the left for the double, with the last digit set for the double and one |
| `Digits.WordDigits` | thirdparty/blake3/blake3_portable.c:72-73 | Digit i of a length's word is binary digit i of the length |
| `Digits.CounterDigits` | thirdparty/blake3/blake3_impl.h:141-145 | The two counter words hold the binary digits 0 to 31 and 32 to 63 of the counter |
| `Digits.CountersDiffer` | thirdparty/blake3/blake3_impl.h:141-145 | Two counters below 2^64 have the same pair of words if and only if they are equal |
| `Digits.WordSum` | thirdparty/blake3/blake3_portable.c:8-18 | Word addition is addition of numbers with wrap-around |
| `Digits.IvIsSquareRoots` | thirdparty/blake3/blake3_impl.h:76-78 | Each word of IV is the first 32 fractional bits of the square root of one of the first eight primes |
| `Digits.FlagDigits` | thirdparty/blake3/blake3_impl.h:13-21 | The four node flags are the four lowest binary digits |
| `Digits.StartWords` | thirdparty/blake3/blake3_portable.c:57-72 | Each of the sixteen words of the starting state: chaining value, four constants, both counter halves digit by digit, length and flags |
| `Compression.G` | thirdparty/blake3/blake3_portable.c:8-18 | The in-place quarter-round changes four words as one column of the specification's quarter-round and no other word |
| `Compression.RoundFn` | thirdparty/blake3/blake3_portable.c:20-35 | One in-place round with the schedule's message words is the specification's round |
| `Compression.CompressInPlacePortable` | thirdparty/blake3/blake3_portable.c:84-98 | Leaves the first eight output words of the BLAKE3 compression |
| `Compression.CompressXofPortable` | thirdparty/blake3/blake3_portable.c:100-123 | Writes all sixteen output words of the BLAKE3 compression |
| `RowCompress.RowRoundIsRound` | thirdparty/blake3/blake3_sse41.c:71-81 | Rotating rows 0, 2 and 3 instead of 1, 2 and 3 gives the same round, up to the order of message words |
| `RowCompress.ShufflesPermute` | thirdparty/blake3/blake3_sse41.c:112-145 | The shuffles and blends between rounds permute the message words to the next row of the schedule |
| `RowCompress.ScheduleStep` | thirdparty/blake3/blake3_impl.h:80-88 | Every row of the schedule is the fixed permutation, row 1, of the row before |
| `RowCompress.Rows.G1` | thirdparty/blake3/blake3_sse41.c:48-56 | The first half of four quarter-rounds on rows |
| `RowCompress.Rows.G2` | thirdparty/blake3/blake3_sse41.c:58-68 | The second half of four quarter-rounds on rows |
| `RowCompress.CompressPre` | thirdparty/blake3/blake3_sse41.c:83-252 | Seven shuffled row rounds equal the seven scheduled rounds for every chaining value, block, counter, length and flags |
| `RowCompress.CompressInPlaceSse41` | thirdparty/blake3/blake3_sse41.c:254-262 | The row-vector compression leaves the same chaining value as the portable one |
| `RowCompress.CompressXofSse41` | thirdparty/blake3/blake3_sse41.c:264-274 | The row-vector compression writes the same output block as the portable one |
| `Transposition.TransposeVecs128` | thirdparty/blake3/blake3_avx512.c:435-454 | The unpack network of four registers is a transposition |
| `Transposition.TransposeVecs256` | thirdparty/blake3/blake3_avx512.c:727-759 | The unpack and permute network of eight registers is a transposition |
| `Transposition.TransposeVecs512` | thirdparty/blake3/blake3_avx512.c:1037-1117 | The unpack and two-level shuffle network of sixteen registers is a transposition |
| `Batches.RoundBySteps` | thirdparty/blake3/blake3_avx512.c:319-433 | A round on whole columns, stage by stage, is the round of quarter-rounds |
| `Batches.RoundFn` | thirdparty/blake3/blake3_avx512.c:319-433 | One batched round is a round of every lane with that lane's message words |
| `Batches.CarryTrick` | thirdparty/blake3/blake3_avx512.c:1143-1166 | The 32-bit carry trick splits the 64-bit sum of counter and lane number exactly |
| `Batches.CompareTrick` | thirdparty/blake3/blake3_sse41.c:440-451 | The signed comparison with flipped top bits finds the same carry |
| `Batches.WideSum` | thirdparty/blake3/blake3_avx512.c:483-493 | Truncating the wrapping 64-bit sum and its shifted upper half gives both words |
| `Batches.LoadCounters` | thirdparty/blake3/blake3_avx512.c:1143-1166 | By each instruction set's own computation, every lane gets the low and high word of its own counter, or of the common one |
| `Batches.TransposeMsgVecs` | thirdparty/blake3/blake3_avx512.c:456-481 | Register k holds word k of every input's block |
| `Batches.StoreHash` | thirdparty/blake3/blake3_avx512.c:1217-1242 | The transposed stores write each lane's chaining value, the padded sixteen-lane case included |
| `Batches.HashLanes` | thirdparty/blake3/blake3_avx512.c:496-555 | Hashing 4, 8 or 16 inputs at once gives each the chaining value of hashing it alone with its own counter |
| `Batches.HashManyBatched` | thirdparty/blake3/blake3_avx512.c:1313-1358 | Batches of 16, 8, 4 and 1 meet the contract of the portable loop, for every number of inputs and every mode with the BLAKE3 compression |
| `Batches.HashManySse41` | thirdparty/blake3/blake3_sse41.c:535-561 | So do batches of 4 and 1 with the SSE4.1 counters |
| `Batches.SameCvs` | thirdparty/blake3/blake3_avx512.c:1313-1358 | Which mode a batch is hashed in matters only by its compression and its key |
| `XofBatches.XofLanes` | thirdparty/blake3/blake3_avx512.c:1246-1285 | 4, 8 or 16 output blocks at once are the blocks for consecutive counters |
| `XofBatches.XofManyBatched` | thirdparty/blake3/blake3_avx512.c:1360-1389 | Batches of 16, 8, 4 and 1 write the same part of the output stream as block by block |
| `Resources.Resource.Acquire` | simulate/simulator/resources.py:24-28 | The start is the given time while there is room, and not before the earliest finish otherwise |
| `Resources.Resource.Release` | simulate/simulator/resources.py:30-33 | The finish joins the others, and the busy time grows by the interval if a start is given |
| `Resources.CountAfter` | simulate/simulator/resources.py:24-33 | How many finish times lie beyond any instant after an acquire and a release: one more if the new one does, but never more than the capacity |
| `Resources.StartsAfter` | simulate/simulator/resources.py:24-28 | An acquire starts after an instant if and only if it was asked to or the resource is full at that instant |
| `Schedule.CapacityIsKept` | simulate/simulator/engine.py:39-43 | In every run, at every instant, no more stages hold a resource than its capacity |
| `Schedule.CoversEnds` | simulate/simulator/engine.py:40-43 | A stage holds its resource from its start on, and a stage that starts at its finish takes over |
| `Schedule.StreamsStayInOrder` | simulate/simulator/engine.py:38-46 | In every run the stages of an event run in order, and the events of a stream never overlap |
| `Schedule.MakespanBounds` | simulate/simulator/engine.py:39-50 | The makespan is at least every stream's total duration and every resource's busy time over its capacity, and at most the sum of all durations; busy time is the work given to the resource |
| `Schedule.UtilizationBound` | simulate/simulator/engine.py:49-50 | No utilization exceeds the capacity |
| `Schedule.TimeIsConserved` | simulate/simulator/engine.py:44-52 | Total busy time, communication plus computation time, and the sum of all durations are equal |
| `Schedule.JobsTakeTheirTime` | simulate/simulator/engine.py:39-45 | Every stage is scheduled once and takes its own duration, in any selection by resource, stream or category |
| `Schedule.RunMonotone` | simulate/simulator/engine.py:28-47 | If one run has no longer stages, no smaller capacities and at most more streams than another, none of its stages starts or finishes later and its makespan is no longer |
| `Schedule.RunIsGood` | simulate/simulator/engine.py:28-47 | The invariant behind these results holds after every run |
| `Eager.RunIff` | simulate/simulator/engine.py:28-47 | Main theorem: a list of slots is the run of the events if and only if it does every stage in order, each for its duration, and each slot starts at the first instant at which its stream is free and a unit of its resource is not promised to earlier slots |
| `Eager.NoIdleWaiting` | simulate/simulator/engine.py:38-43 | Between the finish of its stream's previous stage and its own start, at least as many earlier slots as the configured capacity, or one without one, have yet to finish on its resource |
| `Eager.PlanIsDone` | simulate/simulator/engine.py:36-46 | The slots of a run are the stages of the events, one by one, on their resource, in their category and for their duration |
| `Eager.EndIsLatest` | simulate/simulator/engine.py:47-47 | The makespan is the latest finish of all stages, or zero without one |
| `Eager.ConfiguredCapacity` | simulate/simulator/resources.py:36-42 | No more stages hold a resource at once than its configured capacity, or than one without a configured one |
| `Engine.NoSecurityIsNeverSlower` | simulate/simulator/cost_model.py:32-60 | For every trace, mode "none" with the same or more capacity is never slower, stage by stage, than any mode |
| `Engine.CheaperIsNeverSlower` | simulate/simulator/cost_model.py:25-63 | In a mode whose costs are no higher for the events of a trace, with the same or more capacity and the same or more streams, no stage is later |
| `Engine.MoreStreamsAreNeverSlower` | simulate/tests/test_engine.py:46-60 | Distributing the events of any trace over more streams makes no stage and no makespan later |
| `Engine.SortIgnoresStreams` | simulate/simulator/engine.py:28-28 | Joining streams does not change the order of the events |
| `Engine.GmacIsNeverSlower` | simulate/tests/test_engine.py:22-28 | If GMAC's latency, throughput at the events' sizes and GPU rate are at least as good as AES-GCM's, its run is never slower, stage by stage |
| `Engine.SortEventsSpec` | simulate/simulator/engine.py:28-28 | The events are ordered by start and identifier, none is lost, and equal keys keep their order |
| `Engine.SimulateTrace` | simulate/simulator/engine.py:20-64 | The loop over heaps and dictionaries reports exactly the times of the schedule, for events of known types, and fails for others |
| `Engine.ReportBusy` | simulate/simulator/engine.py:49-50 | The reported busy times are the work on each resource, and each utilization times the makespan is the busy time |
| `Engine.ReportTimes` | simulate/simulator/engine.py:44-53 | The reported breakdown is the work in each category, communication and computation make up all work, and the ratio times the computation is the communication |
| `Engine.SortKeepsTotals` | simulate/simulator/engine.py:28-36 | Byte and kernel totals are those of the trace as given |
| `Pipeline.InterpWithin` | simulate/simulator/cost_model.py:6-16 | An interpolated throughput lies between the bounds of its curve, in whatever order the points are given |
| `Pipeline.InterpIsLinear` | simulate/simulator/cost_model.py:6-16 | The interpolated throughput is constant outside the curve and linear between any two neighbouring points |
| `Pipeline.InterpAtPoint` | simulate/simulator/cost_model.py:6-16 | At the size of a single measurement it is the measured throughput, in whatever order the points are given |
| `Pipeline.SortPointsStable` | simulate/simulator/cost_model.py:7-7 | Measurements at the same size keep their order |
| `Pipeline.CostsNonNegative` | simulate/simulator/cost_model.py:32-63 | Every cost is non-negative, and mode "none" costs no more than the others |
| `Pipeline.ExpandNonNegative` | simulate/simulator/pipeline.py:17-35 | An event's stages use the same resources in the same order in every mode, with durations no longer in mode "none" |
| `Expansion.TransferTimes` | simulate/simulator/pipeline.py:20-34 | A transfer pays the cost of its own direction once in each category and on each resource, and nothing for the other direction or for computing |
| `Expansion.KernelTimes` | simulate/simulator/pipeline.py:17-18 | A kernel pays its own time, on the GPU and in that category only |
| `Expansion.ExpandRoute` | simulate/simulator/pipeline.py:17-35 | Exactly the known kinds expand; what goes to the device passes CPU crypto, copy, link and GPU crypto in that order |
| `Expansion.DirectionsMirror` | simulate/simulator/pipeline.py:20-34 | The stages of a transfer are those of the same transfer in the other direction backwards, with the directions exchanged in stages and parameters |
| `Expansion.CpuCryptoCost` | simulate/simulator/cost_model.py:32-37 | Beyond its own latency, each mode moves the bytes at its own measured throughput; mode "none" costs nothing |
| `Expansion.SwiotlbCost` | simulate/simulator/cost_model.py:39-44 | Beyond the fixed mapping cost, each direction is copied at its own throughput; mode "none" costs nothing |
| `Expansion.PcieCost` | simulate/simulator/cost_model.py:46-48 | Beyond its own latency, each direction moves the bytes at its own measured bandwidth |
| `Expansion.GpuCryptoCost` | simulate/simulator/cost_model.py:50-60 | A mode's own rate if one other than zero is given, else the link's time in that direction if so configured, else nothing; mode "none" costs nothing |
| `Packed.DoublingTree` | thirdparty/FIDESlib/api/CryptoContext.cpp:1859-1872 | With keys for its rotations, the rotate-and-add loop leaves in every slot the sum of the window that starts there |
| `Packed.DoubledSpec` | thirdparty/FIDESlib/api/CryptoContext.cpp:1864-1868 | The window has the least power of two of terms that reaches the size |
| `Packed.TreeIsExact` | tee-vfhe/workloads/logistic_regression.cpp:104-126 | For a power of two of terms that is exactly the window asked for |
| `Packed.WindowTurns` | tee-vfhe/workloads/logistic_regression.cpp:119-126 | A window around the whole vector does not depend on where it starts |
| `Packed.WindowBackwards` | gpucc-vfhe/workloads/logistic_regression.cpp:310-314 | Stride n - 1 walks backwards |
| `Logistic.Activation` | tee-vfhe/workloads/logistic_regression.cpp:130-140 | The masks leave 0.5 + 0.15 z - 0.0015 z^3 in slot 0 of each row and zero elsewhere |
| `Logistic.RowSum` | tee-vfhe/workloads/logistic_regression.cpp:103-109 | Row accumulation puts the dot product of each row with the weights into its first slot |
| `Logistic.RowSpread` | tee-vfhe/workloads/logistic_regression.cpp:111-117 | Row propagation carries the first slot to its own row and leaks nothing into others |
| `Logistic.ColumnTotal` | tee-vfhe/workloads/logistic_regression.cpp:119-126 | Column accumulation leaves the sum of each column in every row |
| `Logistic.Iterate` | tee-vfhe/workloads/logistic_regression.cpp:164-188 | One iteration keeps the weights replicated and is one step of plain gradient descent, for all data and all labels in column 0, with no rotation that lacks a key |
| `Logistic.StepByHand` | tee-vfhe/workloads/logistic_regression.cpp:164-188 | One step on two rows of two features, worked out by hand |
| `Logistic.LogisticEval` | tee-vfhe/workloads/logistic_regression.cpp:142-191 | Any number of iterations is that many steps of plain gradient descent, left in the caller's last input and in no other; a wrong number of inputs is refused |
| `Logistic.LearningRateSpec` | tee-vfhe/workloads/logistic_regression.cpp:177-177 | The rate times the number of the step is 10 for the first 2000 steps, and it is 0.005 from then on and never less |
| `Logistic.TwoSteps` | tee-vfhe/workloads/logistic_regression.cpp:164-188 | Two iterations are a step on the first batch at rate 10 and then one on the second at rate 5 |
| `Logistic.GenRotationKeys` | tee-vfhe/workloads/logistic_regression.cpp:80-93 | The client makes a key for every rotation of an iteration |
| `Logistic.DeviceSums` | gpucc-vfhe/workloads/logistic_regression.cpp:303-320 | The three cascades, with strides 1, n - 1 and 1 from the column count on, sum the same windows as the three trees |
| `Logistic.IterateDevice` | gpucc-vfhe/workloads/logistic_regression.cpp:376-399 | The GPU prototype's iteration is the same step of plain gradient descent, with no rotation that lacks a key |
| `Logistic.LogisticEvalDevice` | gpucc-vfhe/workloads/logistic_regression.cpp:338-399 | Any number of the GPU prototype's iterations is that many steps of plain gradient descent; a wrong number of inputs is refused |
| `Logistic.TrainOnBoth` | gpucc-vfhe/workloads/logistic_regression.cpp:376-399 | On the same inputs both prototypes refuse, or end with equal ciphertexts |
| `Logistic.ReplicatedOnce` | tee-vfhe/workloads/logistic_regression.cpp:187-190 | Weights replicated in every row determine the whole vector |
| `Logistic.DeviceRotationKeys` | gpucc-vfhe/workloads/logistic_regression.cpp:161-184 | Ascending and without duplicates, exactly the indices of the three cascades and those for bootstrapping |
| `Logistic.BootIndicesAre` | gpucc-vfhe/workloads/logistic_regression.cpp:173-178 | The indices for bootstrapping are the numbers from 3 to 15 that are not powers of two, and 257 |
| `Cascade.ReducedRange` | gpucc-vfhe/workloads/logistic_regression.cpp:123-131 | The reduced amount lies in (-n/2, n/2] and is congruent to the given one, negative amounts included |
| `Cascade.ReducedRotates` | gpucc-vfhe/workloads/logistic_regression.cpp:123-131 | Rotating by the reduced amount is rotating by the given one |
| `Cascade.EmitIndices` | gpucc-vfhe/workloads/logistic_regression.cpp:134-154 | The nested loops emit the stages of the base-4 cascade in order |
| `Cascade.ChoiceRotates` | gpucc-vfhe/workloads/logistic_regression.cpp:144-154 | Choosing one index or none in each stage acts as one rotation by the stride times the chosen sum |
| `Cascade.EachMultipleIsReached` | gpucc-vfhe/workloads/logistic_regression.cpp:144-154 | For a power of two of terms every multiple of the start below the size is reached by a choice |
| `Cascade.OnlyMultiplesAreReached` | gpucc-vfhe/workloads/logistic_regression.cpp:144-154 | Nothing else is reached |
| `Cascade.EachMultipleOnce` | gpucc-vfhe/workloads/logistic_regression.cpp:144-154 | No multiple is reached by two choices |
| `Cascade.CascadeSumsWindow` | gpucc-vfhe/workloads/logistic_regression.cpp:144-154 | The cascade leaves one window sum in every slot, for every size, start and stride |
| `Cascade.CascadeExactIff` | gpucc-vfhe/workloads/logistic_regression.cpp:144-154 | For every size it misses no term, and sums none beyond the size if and only if the last step divides the size |
| `Cascade.CascadeOvershoots` | gpucc-vfhe/workloads/logistic_regression.cpp:144-154 | Five terms overshoot: eight are summed |
| `Cascade.Accumulate` | gpucc-vfhe/workloads/logistic_regression.cpp:144-154 | With keys for the emitted indices the stages can be run one rotation after the other |
| `Cascade.CascadeIsTree` | gpucc-vfhe/workloads/logistic_regression.cpp:144-154 | For a power of two of terms cascade and doubling tree leave equal slots |
| `Inference.DiagonalMatvec` | tee-vfhe/workloads/app_inference.cpp:72-93 | The matrix-vector product in the first slots and zero behind them, for every rectangular matrix that fits; slots behind the columns do not matter |
| `Inference.GenRotationKeys` | tee-vfhe/workloads/app_inference.cpp:135-139 | The client makes a key for every rotation of the products |
| `Inference.DiagonalTerm` | tee-vfhe/workloads/app_inference.cpp:78-85 | Rotation d times diagonal d holds the term of column i + d in slot i |
| `Inference.AppInferenceEval` | tee-vfhe/workloads/app_inference.cpp:95-133 | The first slots are W2 f(W1 x + b1) + b2 with f(t) = 0.5 t (1 + t), zero behind; a wrong number of inputs is refused |
| `Inference.NetworkByHand` | tee-vfhe/workloads/app_inference.cpp:95-133 | The network on two inputs, one hidden value and two outputs, worked out by hand |
| `TreeSums.PendingStep` | thirdparty/FIDESlib/api/CryptoContext.cpp:953-956 | Replacing two entries of the queue by their sum keeps the sum still to be consumed |
| `TreeSums.EvalAddMany` | thirdparty/FIDESlib/api/CryptoContext.cpp:917-960 | Returns the plain sum of all inputs, for every length but one, without reading an unset sum; no inputs are refused |
| `TreeSums.BlockGrows` | thirdparty/FIDESlib/api/CryptoContext.cpp:988-993 | In the round of j exactly the entries at multiples of 2j take over the next block |
| `TreeSums.EvalAddManyInPlace` | thirdparty/FIDESlib/api/CryptoContext.cpp:962-999 | For any vector of ciphertext objects, shared or not, the loops leave what the rounds of additions leave on values, and the total in entry 0 whenever sharing is harmless |
| `TreeSums.InPlaceSumIff` | thirdparty/FIDESlib/api/CryptoContext.cpp:988-999 | Entry 0 ends as the plain sum for all inputs if and only if every object that is at two entries p < q has p odd or q = p + 1 |
| `TreeSums.HarmlessIsSum` | thirdparty/FIDESlib/api/CryptoContext.cpp:988-999 | With harmless sharing entry 0 is the plain sum, for any kind of object and any inputs |
| `TreeSums.HarmfulIsWrong` | thirdparty/FIDESlib/api/CryptoContext.cpp:988-999 | With any other sharing ones do not add up to their number |
| `TreeSums.SharedObjectGoesWrong` | thirdparty/FIDESlib/api/CryptoContext.cpp:988-999 | The vector a, b, a gives four for three ones |
| `TreeSums.DistinctBlocks` | thirdparty/FIDESlib/api/CryptoContext.cpp:988-999 | With distinct objects every entry ends with the sum of the block of its lowest digit, for every length |
| `Handles.Context.Run` | thirdparty/FIDESlib/api/CryptoContext.cpp:1953-2023 | For every program of load, clone, evaluate, in-place update, plaintext load and destroy, the objects hold exactly what the program computes on values, no entry is lost or left behind, and exactly the handles it needs are drawn, as long as those last |
| `Handles.Context.Execute` | thirdparty/FIDESlib/api/CryptoContext.cpp:735-890 | One command changes the value behind the name it assigns and no other |
| `Handles.Context.DistinctHandles` | thirdparty/FIDESlib/api/CryptoContext.cpp:1981-1991 | Live loaded ciphertexts have distinct non-zero registered handles below the next one, and every entry has an owner |
| `Handles.HandlesAreGoodIff` | thirdparty/FIDESlib/api/CryptoContext.cpp:1981-1991 | The first n handles are distinct and non-zero if and only if n < 2^32: after that the 32-bit counter wraps around to the null handle |
| `Handles.Context.RegisterDeviceCiphertext` | thirdparty/FIDESlib/api/CryptoContext.cpp:1981-1991 | `emplace` stores the entry if and only if its handle is free, and the counter moves on with wrap-around |
| `Handles.Context.LoadCiphertext` | thirdparty/FIDESlib/api/CryptoContext.cpp:273-291 | Loading, also twice, changes no value |
| `Handles.Context.Clone` | thirdparty/FIDESlib/api/Ciphertext.cpp:23-52 | A copy has the same value and an entry of its own |
| `Handles.Context.Destroy` | thirdparty/FIDESlib/api/Ciphertext.cpp:10-15 | Destroying a ciphertext gives its entry back and changes no other value |
| `Handles.Context.EvalBinary` | thirdparty/FIDESlib/api/CryptoContext.cpp:735-760 | The result is new and both operands keep their values, also when they are the same object |
| `Handles.Context.EvalBinaryInPlace` | thirdparty/FIDESlib/api/CryptoContext.cpp:821-842 | Only the first operand changes, also when both are the same object |
| `Handles.Context.EvalWithScalarInPlace` | thirdparty/FIDESlib/api/CryptoContext.cpp:872-890 | Only the operand changes |
| `Handles.Context.EvalSubFromScalar` | thirdparty/FIDESlib/api/CryptoContext.cpp:1107-1131 | The three device steps give ciphertext minus number |
| `Handles.SubThenAddInPlace` | thirdparty/FIDESlib/api/CryptoContext.cpp:1133-1153 | Subtracting a ciphertext in place and adding it again restores the whole store, and leaves zeros when the two are one object |
| `Handles.SubThenAdd` | thirdparty/FIDESlib/api/CryptoContext.cpp:1001-1025 | Into new names, adding what was subtracted gives the value that it was subtracted from, and every other name keeps its value |
| `Handles.SubThenAddScalar` | thirdparty/FIDESlib/api/CryptoContext.cpp:1083-1105 | The same holds with numbers, in place and into new names |
| `Handles.ScalarMinusGoesWrong` | thirdparty/FIDESlib/api/CryptoContext.cpp:1107-1131 | With 1 in a slot, 0 minus the ciphertext comes out as 1 |
| `Handles.ScalarMinusAgreesIff` | thirdparty/FIDESlib/api/CryptoContext.cpp:1107-1131 | So the device agrees with the CPU's number minus ciphertext if and only if every slot holds that number |

## Left out

- One array cell stands for the 32 bytes of a chaining value in `cv_stack`, `cv_array` and `out`; byte offsets within them are not modelled.
- Counters and lengths are unbounded numbers; inputs below 2^64 bytes are required where the code's 64-bit arithmetic needs it, and words, bytes and the split of counters into words are exact.
- The alternatives of `highest_one` and `popcnt` by compiler intrinsics; the loops are modelled.
- Keyed hashing and key derivation: the key words and mode flags of the tree are parameters, and how a context string becomes a key is not modelled.
- CPU feature detection: the SIMD degree is any power of two up to a maximal one, and the dispatch to an instruction set is not modelled. SSE2, AVX2 and NEON repeat the same algorithms.
- The seven written-out calls of the round function in the row-vector and batched code are loops; two additions in a row into the same register are one three-operand addition of 32-bit words; prefetching is left out.
- Floating-point rounding: the simulator and the workloads use real numbers.
- Homomorphic encryption itself: noise, levels, rescaling, relinearization and bootstrapping; ciphertexts have ideal slot semantics, and a plaintext of `kCols` slots is repeated in every row.
- FIDESlib's `Accumulate` is not part of this model; the cascade is the one that the emitted rotation indices describe.
- Logistic.LogisticEval: covers inputs that are separate objects; the in-place subtraction would change any other input that is the weights object itself.
- Sorting and removal of duplicates by the C++ library is modelled by insertion; the contract is that of the result.
- The heap of finish times is its ascending sequence; `heapq` itself is not modelled.
- Simulator capacity 0 and negative parameters: capacities are at least 1 and parameters non-negative. Reading traces and parameters from files is left out.
- TreeSums.EvalAddMany: excludes a single input, for which the device code reads the last element of an empty vector; that each entry is read exactly once is a loop invariant and not part of the contract.
- TreeSums.EvalAddManyInPlace: leaves out the branches for null entries, which are dead once all inputs are loaded, and the error for ciphertexts of different sizes.
- Handles.Context.Run: covers contexts that are loaded to at least one device; the failure of loading into a context that is on no device is not modelled.
- Ciphertexts that stay on the CPU share their CPU value lazily after a copy, and only the copy is marked for detaching; value semantics are claimed for operations on the device only.
- Plaintext operands of device operations: plaintexts take handles from the same counter, and the arithmetic with them is left out.
- Sockets, attestation, tokens, JSON, zero-knowledge proofs, benchmarks and plots: input, output and foreign calls.
