# Two parallel samplesorts

The repository holds two samplesorts. `ips4o/` partitions in place: elements are classified into
per-bucket buffers that are flushed over the input block by block, empty blocks are moved behind full ones,
blocks are permuted by all threads at once with a pair of atomic pointers per bucket, and the margins of the
buckets are filled from the buffers. `include/ps4o/` partitions from one array to another by a bucket
oracle, alternates between both arrays from level to level, and lets groups of threads and single threads
take tasks from each other.

This project models both and proves that they sort. Block size, number of threads, number of buckets,
element type and configuration are parameters; the comparator is any strict weak order. What the source runs
on arrays in place is a method on arrays, proved against its specification; what several threads do at once
is a transition system whose steps are the source's atomic actions, proved for every interleaving.

How the modules build on each other:

- `Order`, `Bags`, `Powers`, `Buckets`, `Schedules`: sortedness, multisets and counting, block arithmetic, bucket
  boundaries, fair runs.
- `Config`, `Sampling`, `Classifier`, `BaseCase`, `Recursion`: splitters, the search tree, the base case, and why
  the recursion shrinks and adds up to a sorted range. Both sorters share them, as the code is the same in both.
- `Buffers`, `LocalClassification`, `BlockProtocol`, `BlockInvariant`, `BlockResults`, `BlockSequential`,
  `BlockPermutation`, `InPlaceLayout`, `PermutedBlocks`, `Margins`, `InPlacePartition`, `InPlaceSort`: the in-place
  sorter. The block permutation is a protocol for any number of threads; the sequential method on the array is
  proved to run it with one thread, and takes its result from there.
- `ParallelClassification`, `EmptyBlocks`, `EmptyBlocksAll`, `ParallelBlocks`, `ParallelMargins`, `ParallelInPlace`: what
  several threads do in place: classification in stripes, empty-block movement by one thread and by all threads in
  any order, the link to the permutation, the cleanup, and the whole step from phase to phase.
- `Scatter`, `Oracle`, `PingPong`: the out-of-place sorter. `EqualityCleanup`, `ParallelCleanup`,
  `ParallelPartition`: its parallel partition.
- `Scheduler`, `TaskRun`, `SmallTasks`, `ThreadGroups`, `ParallelRun`: work sharing, termination detection, thread
  groups, and the run as a whole. `Barrier`: the reusable barrier with `single`.

Three observations about the code:

- The recursion shrinks only if repeated splitters switch equality buckets on. `Sampling.ShrinksIff` gives the
  exact condition on the number of candidates, and `Config.ShrinksExactly` and `Recursion.DescendsIff` the exact
  condition on the configuration, `Config.Shrinks`. The default constants meet it. A configuration that does not
  passes the static assertions, but equal input then never gets smaller.
- The comment before the clean-up of a thread's last bucket (include/ps4o/partitioning.hpp:264-274) says that a
  last bucket that is no equality bucket is taken out of the loop over pairs. The parity test at line 282 does so
  only if the number of the past-the-last bucket is even, so for an odd one the loop may move an equality bucket
  that another thread moves, too. The model follows the code: sorting is claimed to happen exactly once, moving
  at least once, and `ParallelCleanup.EqualityResult` shows that moving again changes nothing.
- With several threads a thread may start small tasks while groups still partition, as there is no barrier between
  the two phases (include/ps4o/parallel.hpp:385-387). `ParallelRun` covers these interleavings.

## Model

| member | source | states |
|---|---|---|
| BlockResults.Placement | ips4o/block_permutation.hpp:60-147 | In every interleaving of any number of threads that are all finished: the placed blocks are a rearrangement of the flushed blocks, every write pointer has advanced by exactly the number of its bucket's blocks, every slot before it holds a block of the owning bucket (the slot past the last whole block: the overflow buffer), every slot behind it none |
| BlockResults.NoConflict | ips4o/bucket_pointers.hpp:83-132 | In every reachable state, while a thread copies out of a slot the slot keeps the block it claimed, no other thread copies out of it and none writes or swaps it; no two threads hold one slot for writing |
| BlockResults.PointersStayInside | ips4o/block_permutation.hpp:94-103 | In every reachable state every write pointer stays within the bucket's start plus the number of its blocks, which is within the aligned bucket end |
| BlockResults.OneOverflow | ips4o/block_permutation.hpp:94-103 | In every reachable state at most one thread has filled its overflow buffer, with a block of the bucket that owns the slot past the last whole block, whose write pointer then is at the end |
| BlockResults.StepWorks | ips4o/block_permutation.hpp:60-147 | An atomic action changes nothing exactly for a finished thread and for a spin test that found a reader; every other action lowers a bound on the remaining work |
| BlockResults.NoDeadlock | ips4o/bucket_pointers.hpp:121-132 | As long as some thread is not finished, some thread has an action that lowers that bound: the spin loop cannot block all threads |
| BlockResults.FairFinishes | ips4o/bucket_pointers.hpp:121-132 | Every endless schedule in which each thread that is not finished gets to act again finishes all threads after finitely many actions, from every state on |
| BlockInvariant.StepKeeps | ips4o/block_permutation.hpp:60-147 | Every atomic action of every thread keeps the invariant: conservation ledger, slot ownership, worker state, exclusion, reader counts, drained buckets, overflow |
| BlockInvariant.InitInv | ips4o/block_permutation.hpp:126-147 | Full blocks first in every bucket and no bucket with too many blocks is enough for the invariant to hold at the start |
| BlockProtocol.ReadBound | ips4o/block_permutation.hpp:65-82 | A fetch-and-subtract that yields a block yields an unread block of that bucket in the array |
| BlockProtocol.WriteBound | ips4o/block_permutation.hpp:89-119 | A thread that is about to place a block finds a slot of the right bucket that nobody has taken yet |
| BlockSequential.ReadMacro | ips4o/block_permutation.hpp:65-82 | With one thread, four atomic actions amount to classifyAndReadBlock: a block of the bucket or a refusal |
| BlockSequential.PlaceMacro | ips4o/block_permutation.hpp:89-119 | With one thread, the atomic actions of one turn amount to swapBlock: overflow, write to an empty slot, skip, or exchange |
| BlockPermutation.BucketPointers.IncWrite | ips4o/bucket_pointers.hpp:84-99 | Yields both pointers of a bucket and advances only its write pointer |
| BlockPermutation.BucketPointers.DecRead | ips4o/bucket_pointers.hpp:101-119 | Yields both pointers of a bucket and lowers only its read pointer |
| BlockPermutation.Permuter.ClassifyAndReadBlock | ips4o/block_permutation.hpp:65-82 | Refines the protocol: afterwards array, pointers and buffers are those of a reachable one-thread state, and the block held is classified right, or the bucket is exhausted |
| BlockPermutation.Permuter.SwapBlock | ips4o/block_permutation.hpp:89-119 | Refines the protocol: the held block is placed, and either an empty slot or the overflow buffer took it, or the displaced block is held in the other swap buffer |
| BlockPermutation.Permuter.PermuteBlocks | ips4o/block_permutation.hpp:126-147 | On the array itself: the state reached is a finished state of the protocol, and nothing outside the whole blocks changes |
| LocalClassification.Consume | ips4o/local_classification.hpp:58-66 | The callback: a buffer with room gets the element; a full one is first written over the array as one block, emptied and counted |
| LocalClassification.Room | ips4o/local_classification.hpp:56-66 | A full buffer always fits between the flushed blocks and the elements still to be read |
| LocalClassification.FlushStep | ips4o/local_classification.hpp:60-64 | A flush overwrites consumed positions only and keeps the invariant: flushed blocks and buffers hold exactly the consumed elements, each flushed block belongs to one bucket, and a bucket that was flushed has a non-empty buffer |
| LocalClassification.ClassifyLocally | ips4o/local_classification.hpp:51-73 | In place: afterwards flushed blocks plus buffers are the input, each block is pure, and the bucket sizes are the true class counts |
| Buffers.Buffers.Push | ips4o/buffers.hpp:187-194 | Appends to one buffer and leaves the others alone |
| Buffers.Buffers.WriteTo | ips4o/buffers.hpp:199-210 | Writes one block to the array, empties that buffer, and changes nothing else |
| InPlaceLayout.BlocksFit | ips4o/block_permutation.hpp:52-58 | If not all elements of a bucket were flushed, its blocks fit between its aligned boundaries |
| InPlacePartition.FindBoundaries | ips4o/local_classification.hpp:84-91 | Bucket boundaries are the running sums of the sizes and end with the input |
| InPlacePartition.SetPointers | ips4o/local_classification.hpp:93-103 | Write pointers at the aligned starts, read pointers at the last full block of every bucket |
| InPlacePartition.CanStart | ips4o/local_classification.hpp:79-104 | What classification leaves meets all that the permutation assumes |
| PermutedBlocks.BucketIsReady | ips4o/cleanup_margins.hpp:94-107 | After the permutation, by any number of threads and in any interleaving, every bucket has its blocks between its aligned start and its write pointer, and written, overflowed and buffered elements add up to its size |
| PermutedBlocks.NothingLost | ips4o/partitioning.hpp:92-111 | For any number of threads: written blocks, overflow block and all threads' buffers together are the original elements |
| PermutedBlocks.OverflowExact | ips4o/block_permutation.hpp:52-58 | For any number of threads: the shared overflow buffer is in use exactly when the computed bucket overflowed, and no other bucket can overflow |
| PermutedBlocks.StoredMoves | ips4o/empty_block_movement.hpp:46-184 | What classification stored of the range does not depend on where its full blocks are |
| Margins.ComputeOverflowBucket | ips4o/block_permutation.hpp:52-58 | The last bucket with more than one block of elements, or -1 |
| Margins.OverflowIsComputed | ips4o/block_permutation.hpp:52-58 | A bucket whose block went to the overflow buffer is the computed one |
| Margins.NothingUnreachable | ips4o/cleanup_margins.hpp:103-148 | In the state that the permutation leaves, for every bucket and any number of threads: the overflow buffer is written only with the pointer at the end of the bucket and enough space for the block; an excess goes with the pointer at the end of the bucket and fits into the head |
| Margins.InBounds | ips4o/cleanup_margins.hpp:103-171 | In no case is anything written outside the array |
| Margins.FillCases | ips4o/cleanup_margins.hpp:103-171 | In each case head, blocks and tail end up as exactly the belongings of the bucket |
| Margins.FillBucket | ips4o/cleanup_margins.hpp:94-171 | On the array: the range of the bucket holds exactly its written blocks, overflow block and buffer, all of its class, and nothing outside the range changes |
| Margins.Untouched | ips4o/cleanup_margins.hpp:94-98 | What a bucket needs is not overwritten by the buckets filled before it |
| Margins.WriteMargins | ips4o/cleanup_margins.hpp:88-177 | All buckets are filled as above and small ones sorted, nothing outside is touched, all buffers are empty |
| InPlacePartition.Distribute | ips4o/partitioning.hpp:59-138 | The sequential partition on the array: a permutation of the range, bucket boundaries such that every element between two of them has that class, small buckets (on the last level all) sorted, the rest of the array unchanged |
| InPlaceSort.Sequential | ips4o/sequential.hpp:52-84 | Sorts the range in place: a sorted permutation, nothing else changed; the mutual recursion with partition and sampling terminates |
| InPlaceSort.Sort | ips4o/sequential.hpp:106-117 | The sorter's call operator, with the optional check for sorted or reversed input |
| ParallelMargins.SaveMargins | ips4o/cleanup_margins.hpp:52-82 | In the state that the permutation leaves: finds the one bucket, if any, whose last written block reaches beyond the thread's last bucket, and saves exactly its excess; no other bucket crosses that boundary |
| ParallelMargins.WriteBuffers | ips4o/cleanup_margins.hpp:151-171 | The buffers of all threads, written one after the other, first to the head and then behind the last block, are written as if they were one |
| ParallelMargins.FillShared | ips4o/cleanup_margins.hpp:94-171 | On the array: overflow block, saved excess or excess in place, then all buffers; the range holds exactly what belongs to the bucket even if the place of the excess was overwritten |
| ParallelMargins.WriteSharedBucket | ips4o/cleanup_margins.hpp:94-176 | One turn of a thread's loop: if the bucket's blocks and its excess, in place or saved, are still there, the bucket is done after it, and no other range changes, whatever other threads have done so far |
| ParallelMargins.AvailableNow | ips4o/partitioning.hpp:113-132 | In every reachable state the next bucket of a thread finds its blocks and its excess as they were before the cleanup, in place or saved, and the overflow buffer is used for the bucket that spilled: all that a turn of the loop relies on |
| ParallelMargins.StepKeeps | ips4o/cleanup_margins.hpp:94-176 | A turn, of which nothing is known unless the bucket's data was still there, fills the thread's next bucket, and does not disturb the buckets that others have filled or have yet to fill |
| ParallelMargins.AnyInterleaving | ips4o/partitioning.hpp:107-132 | In every interleaving of the threads' cleanup loops, in which a turn is known to fill its bucket only if what it relies on is still there, all buckets end up filled as the sequential cleanup fills them |
| ParallelMargins.TurnsEnd | ips4o/cleanup_margins.hpp:94-176 | No interleaving has more turns than there are buckets, and it has as many if and only if all threads are through with theirs |
| ParallelMargins.RangePartitioned | ips4o/partitioning.hpp:107-132 | So the range ends up partitioned by class, small buckets sorted, with all elements of blocks, overflow buffer and buffers |
| EmptyBlocks.FindRange | ips4o/empty_block_movement.hpp:54-87 | The first and the past-the-last bucket that start in a stripe, for buckets of any size |
| EmptyBlocks.CountUpToHere | ips4o/empty_block_movement.hpp:105-128 | The walk to the left counts the full blocks of the bucket so far and the blocks reserved for threads on the left |
| EmptyBlocks.CountRight | ips4o/empty_block_movement.hpp:133-150 | The walk to the right counts the full blocks of the rest of the bucket and finds the stripe in which it ends |
| EmptyBlocks.FillHoles | ips4o/empty_block_movement.hpp:156-177 | The loop fills all holes of the stripe, each with a full block of the bucket from beyond its goal that no thread on the left takes, and never runs out of blocks |
| EmptyBlocks.MoveEmptyBlocks | ips4o/empty_block_movement.hpp:51-184 | One thread: its moves are as described, and it sets write and read pointer of exactly the buckets that start in its stripe, to the start and to the last full block after all moves |
| EmptyBlocksAll.ThreadsApart | ips4o/empty_block_movement.hpp:152-177 | Moves of different threads share neither source nor destination |
| EmptyBlocksAll.HoleFilled | ips4o/empty_block_movement.hpp:152-177 | Every hole left of a bucket's goal is filled by some thread |
| EmptyBlocksAll.AllIndependent | ips4o/empty_block_movement.hpp:152-177 | No move overwrites a full block or reads an empty one, in any order of all threads' moves |
| EmptyBlocksAll.AnyOrder | ips4o/empty_block_movement.hpp:46-184 | All moves in any order: every bucket ends up with full blocks up to its read pointer and empty ones behind it, and the full blocks are a rearrangement of the original ones |
| ParallelClassification.AddSizes | ips4o/local_classification.hpp:130-138 | A thread adds to every common boundary the number of elements of its stripe that are in smaller buckets |
| ParallelClassification.SumsAreBoundaries | ips4o/local_classification.hpp:130-138 | When all threads have added theirs, the boundaries are those of the true class counts of the whole range |
| ParallelClassification.BucketBuffers | ips4o/cleanup_margins.hpp:151-171 | The buffers of a bucket are those of the threads, in the order in which the cleanup writes them |
| ParallelClassification.StripesStored | ips4o/local_classification.hpp:110-148 | The threads' stripes together: every element is in a flushed block of its class or in a buffer of its class, block and buffer sizes add up to the bucket sizes, and a bucket with elements has some of them in a buffer |
| ParallelBlocks.PermutationCanStart | ips4o/empty_block_movement.hpp:46-184 | After the moves of all threads in any order the permutation can start with any number of threads, and the full blocks are the same as before |
| ParallelClassification.AdditionsInAnyOrder | ips4o/local_classification.hpp:130-138 | The threads' single additions to the common boundaries, in any order, leave the bucket boundaries of the whole range |
| ParallelInPlace.PermutationStarts | ips4o/local_classification.hpp:110-148 | From what the threads' classification leaves, through any order of their additions and of their moves, to all that every interleaving of the permutation assumes |
| ParallelInPlace.CleanupStarts | ips4o/partitioning.hpp:92-111 | After that, in any interleaving of any number of threads: all buckets are ready for the cleanup, blocks, overflow block and buffers are the elements of the range, and the overflow buffer is in use exactly if the computed bucket overflowed |
| ParallelInPlace.Partitions | ips4o/partitioning.hpp:59-138 | The whole parallel step: after every interleaving of classification, movement, permutation and cleanup, the range holds its original elements, partitioned by class, with small buckets sorted, and the rest of the array is untouched |
| Classifier.DescendIsSearch | include/ps4o/classifier.hpp:98-111 | For every k and sorted splitters, the descent of the implicit tree yields the number of splitters smaller than the value |
| Classifier.Classifier.Build | include/ps4o/classifier.hpp:86-93 | The recursive construction yields a search tree of the sorted splitters, and closes their array with a duplicate |
| Classifier.Classifier.Classify | include/ps4o/classifier.hpp:99-111 | The branch-free loop yields the bucket that linear search over the splitters defines |
| Classifier.Classifier.ClassifyUnrolled | include/ps4o/classifier.hpp:134-167 | The unrolled batches, level by level, and the remaining elements yield the same buckets in the same order |
| Classifier.BucketBetween | include/ps4o/classifier.hpp:99-111 | Without equality buckets, a value is in bucket i if and only if it lies between splitters i - 1 and i: larger than the one, not larger than the other; the last bucket in use is the one behind all splitters |
| Classifier.BucketStrictlyBetween | include/ps4o/classifier.hpp:99-111 | With equality buckets, a value is in an even bucket if and only if it lies strictly between two neighbouring splitters, and in the last bucket if and only if it is larger than all |
| Classifier.BucketOrder | include/ps4o/classifier.hpp:99-111 | Bucket order respects the comparator |
| Classifier.EqualityBucket | include/ps4o/classifier.hpp:99-111 | An odd bucket other than the last holds exactly the values equivalent to its splitter (none, if the splitter repeats its predecessor) |
| Classifier.EmptyBucket | include/ps4o/classifier.hpp:99-111 | With equality buckets the next to last bucket is always empty; every bucket number is within the number of buckets in use |
| Sampling.ChooseSplitters | include/ps4o/sampling.hpp:85-121 | Distinct candidates in order, padded with the last candidate to a power of two; equality buckets are switched on if and only if at least `threshold` candidates are not larger than the candidate before them; the classifier is built from these |
| Sampling.UseEqualIff | include/ps4o/sampling.hpp:104-121 | For sorted candidates, enough of them were dropped if and only if at least `threshold` of them repeat the one before |
| Sampling.Represented | include/ps4o/sampling.hpp:85-102 | Every candidate is equivalent to a splitter that was kept |
| Sampling.PaddedFits | include/ps4o/sampling.hpp:108-117 | There are at least as many splitters as different candidates, and fewer than twice as many |
| Sampling.CandidateSplits | include/ps4o/sampling.hpp:85-102 | Candidate i stands behind all but the last of the first (i + 1) * step elements of the sorted sample, and before the others |
| Sampling.PaddedSorted | include/ps4o/sampling.hpp:90-117 | The padded splitters are sorted |
| Sampling.SomeCandidateElsewhere | include/ps4o/sampling.hpp:104-121 | With equality buckets, or two different splitters, every bucket that is descended into misses a candidate |
| Sampling.ShrinksIff | include/ps4o/sampling.hpp:104-121 | For samples of m candidates, the recursion shrinks for every sample if and only if m exceeds the equality-bucket threshold |
| Config.SampleFits | include/ps4o/config.hpp:165-184 | The sample is not empty and strictly shorter than the input, for all three branches of the bucket-count computation |
| Config.RecursiveLevel | include/ps4o/config.hpp:173-184 | On every level that recurses, the number of candidates exceeds the equality-bucket threshold, under the stated configuration bound |
| Config.ShrinksExactly | include/ps4o/config.hpp:173-184 | That bound is exact: it holds if and only if all recursive levels have more candidates than the threshold |
| Config.LogBucketsBound | include/ps4o/config.hpp:173-184 | There are never more buckets than the configured maximum |
| Config.BucketSizes | include/ps4o/config.hpp:173-184 | Buckets hold one to two base cases on average on the last level; if two levels are left, both together do; before that there are as many as there can be |
| Config.StepIsFifth | include/ps4o/config.hpp:165-171 | The oversampling step is the fifth of the binary logarithm of the input length, rounded down, but at least 1 |
| Recursion.SampleShape | include/ps4o/sampling.hpp:70-86 | The sample is shorter than the input, and has room for one candidate per splitter, one every step elements, and for no further one |
| Recursion.PieceShrinks | include/ps4o/sequential.hpp:145-182 | A bucket that is descended into has strictly fewer elements than the range |
| Recursion.DescendsIff | include/ps4o/sequential.hpp:145-182 | Strict decrease for all inputs, samples and partitions of recursive levels holds if and only if the configuration meets the bound; otherwise equal input on the first recursive level goes to one bucket as a whole |
| Recursion.AllPiecesSorted | include/ps4o/sequential.hpp:145-182 | Sorted descended buckets and uniform equality buckets make up a sorted range |
| BaseCase.InsertionSort | include/ps4o/base_case.hpp:51-69 | Sorts the range in place, with the short cut to the front; every element ends up behind all those before it that it is not less than, as `BaseCase.InsertionSorted` says |
| BaseCase.SortedByInsertion | include/ps4o/base_case.hpp:51-69 | The function that the base case computes yields a sorted rearrangement of every sequence |
| BaseCase.SortedCaseSort | include/ps4o/base_case.hpp:96-119 | Answers true if and only if no element is less than the one before, or none is less than the one behind; the range then is sorted; otherwise the array is untouched |
| BaseCase.ParallelIsSorted | include/ps4o/base_case.hpp:80-93 | The threads' overlapping stripes are all sorted if and only if the input is |
| Scatter.AnyInterleaving | include/ps4o/partitioning.hpp:58-71 | In every interleaving in which each thread acts at least once for every element of its stripe, the parallel scatter fills every slot with the stable partition by bucket |
| Scatter.StepKeeps | include/ps4o/partitioning.hpp:64-70 | An action moves the thread's next element, if it has one left, to a slot that nobody has written before |
| Scatter.RunMoves | include/ps4o/partitioning.hpp:58-71 | After any order of actions, a thread has moved as many elements as it has acted, or all of its stripe |
| Scatter.EnoughMoves | include/ps4o/partitioning.hpp:58-71 | So all elements are moved once every thread has acted often enough |
| Scatter.DestInjective | include/ps4o/local_classification.hpp:125-136 | No two elements have the same slot |
| Scatter.DestOnto | include/ps4o/local_classification.hpp:125-136 | Every slot is some element's |
| Scatter.StablePiece | include/ps4o/partitioning.hpp:58-71 | Between two boundaries lie the elements of that bucket, in their original order |
| Scatter.StableBag | include/ps4o/partitioning.hpp:58-71 | The stable partition is a rearrangement |
| Oracle.ClassifyLocally | include/ps4o/local_classification.hpp:49-67 | The oracle holds every element's bucket in one byte, the sizes are the class counts |
| Oracle.FindStarts | include/ps4o/local_classification.hpp:86-93 | The exclusive scan yields the first slot of every bucket |
| Oracle.FindOffsets | include/ps4o/local_classification.hpp:125-136 | Thread 0's bucket-major, thread-minor loop gives every thread the offset behind the elements of smaller buckets and of earlier threads |
| Oracle.DistributeElements | include/ps4o/partitioning.hpp:58-71 | The sequential scatter on arrays: the target range becomes the stable partition |
| PingPong.CleanUp | include/ps4o/partitioning.hpp:164-180 | After the cleanup small buckets and equality buckets are sorted where the result belongs and the others wait in the target array; exactly the buckets to descend into are left |
| PingPong.Partition | include/ps4o/partitioning.hpp:78-180 | The sequential out-of-place partition: pure buckets of a rearrangement of the range, finished as above |
| PingPong.Sequential | include/ps4o/sequential.hpp:101-183 | Sorts the range into the source array if the flag says so and into the other one if not, changes both in that range only, and terminates |
| PingPong.Sort | include/ps4o/sequential.hpp:200-223 | The sorter's call operator |
| EqualityCleanup.FindBuckets | include/ps4o/partitioning.hpp:202-210 | The two searches yield the buckets of the first and of the last element of the stripe |
| EqualityCleanup.CleanUpStripe | include/ps4o/partitioning.hpp:212-299 | For any boundaries with an empty next to last bucket, a thread sorts exactly the non-empty buckets that start in its stripe, equality buckets excepted, each once, and moves at least the equality elements in its stripe and nothing else |
| EqualityCleanup.SortedByOneThread | include/ps4o/partitioning.hpp:200-299 | Every non-empty bucket that is no equality bucket is sorted by exactly one thread |
| EqualityCleanup.MovedBySomeThread | include/ps4o/partitioning.hpp:200-299 | Every position of an equality bucket is moved by at least one thread |
| ParallelCleanup.SortBlock | include/ps4o/partitioning.hpp:184-198 | Without equality buckets a thread sorts exactly the buckets of its block of bucket numbers |
| ParallelCleanup.BlockOf | include/ps4o/partitioning.hpp:184-198 | These blocks give every bucket to exactly one thread |
| ParallelCleanup.AnyOrder | include/ps4o/partitioning.hpp:182-301 | The actions of all threads, in any order, with copies back only if the result belongs into the input array: every bucket ends up as the sequential cleanup leaves it |
| ParallelCleanup.BaseCaseSortsAll | include/ps4o/base_case.hpp:74-78 | The base case meets what the cleanup asks of its sorter |
| ParallelPartition.Step | include/ps4o/partitioning.hpp:78-308 | Every interleaving of the scatter, then every order of the cleanup, does to the range what the sequential step does |
| ParallelPartition.TaskIsSplit | include/ps4o/parallel.hpp:293-331 | The same for the range of a big task, within both whole arrays; on recursive levels all buckets left over are strictly smaller than the range |
| Scheduler.PrivateQueue.PopBack | include/ps4o/scheduler.hpp:81-92 | Removes the last element and no other |
| Scheduler.PrivateQueue.PopFront | include/ps4o/scheduler.hpp:94-105 | Removes the first element and no other |
| Scheduler.StepKeeps | include/ps4o/scheduler.hpp:125-161 | Every atomic step of getJob and offerJob keeps: the counter is the number of counted threads, a job in the global queue has an active thread, idle threads have empty queues |
| Scheduler.DetectionIsSafe | include/ps4o/scheduler.hpp:125-153 | Once any getJob has returned false, all queues are empty and nobody holds a job, in every continuation |
| Scheduler.CounterIsExact | include/ps4o/scheduler.hpp:125-161 | In every reachable state the idle counter is exact, and a non-empty global queue has an active thread |
| Scheduler.StepJobs | include/ps4o/scheduler.hpp:125-161 | No step loses or doubles a job; only finishing a job changes the jobs, by what it found |
| Scheduler.GetAlone | include/ps4o/scheduler.hpp:125-136 | getJob undisturbed: the newest job of the own queue, else the oldest one of the global queue, else the thread is counted idle |
| Scheduler.WakeAlone | include/ps4o/scheduler.hpp:138-148 | An idle thread that sees a job in the global queue, undisturbed, is no longer counted and takes it |
| Scheduler.OfferAlone | include/ps4o/scheduler.hpp:155-161 | offerJob undisturbed: the oldest job of the own queue goes to the global queue if and only if another one is left, some thread is idle and the global queue is empty; then the thread works on its job |
| Scheduler.SomeHelps | include/ps4o/scheduler.hpp:125-161 | In every state in which not all threads have been told that there is no job, the next action of some thread brings the run closer to its end |
| Scheduler.HelpBrings | include/ps4o/scheduler.hpp:125-161 | Such an action lowers a bound, or else how far the threads are from being counted idle or from being told |
| Scheduler.HelpStays | include/ps4o/scheduler.hpp:125-161 | Until something is lowered, it stays so whatever the other threads do |
| Scheduler.FairRunEnds | include/ps4o/scheduler.hpp:125-161 | Every endless run in which each thread that has not been told gets to act again reaches a state in which all have been told |
| Scheduler.QuietProgress | include/ps4o/scheduler.hpp:138-153 | Once nothing is left, some thread comes closer to being told so, until all have been |
| SmallTasks.QueueBuckets | include/ps4o/sequential.hpp:74-94 | Queues exactly the large buckets that are no equality buckets, the last one first |
| SmallTasks.ProcessTask | include/ps4o/sequential.hpp:54-95 | Partitioning a task's range and queueing its buckets is a step of the whole run: only the range changes, found tasks are disjoint, strictly smaller than the range and in the array their flag names, all else in the range is final in the input array |
| TaskRun.ProcessedKeeps | include/ps4o/parallel.hpp:61-78 | Such a step keeps: outstanding tasks are disjoint, all other positions are final, and any two positions are in order or share a task |
| TaskRun.AlwaysOk | include/ps4o/parallel.hpp:61-78 | This holds in every reachable state of small-task processing |
| TaskRun.RunSorts | include/ps4o/parallel.hpp:61-78 | As soon as any thread is told that no task is left, the input array is a sorted permutation of the input, whatever the order |
| TaskRun.WorkShrinks | include/ps4o/sequential.hpp:54-95 | The tasks found in a range weigh less than its own task: twice the length minus one |
| TaskRun.RunIsBounded | include/ps4o/parallel.hpp:61-78 | No run finishes more tasks than the work it starts with, which is 2n - 1 for n elements |
| TaskRun.CanAct | include/ps4o/parallel.hpp:70-77 | Every thread can act at any time, and the one that works on a task by what processing it does |
| TaskRun.FairRunSorts | include/ps4o/parallel.hpp:61-78 | Every fair run of small-task processing ends with all threads told that no task is left and the input array a sorted permutation of the input |
| ThreadGroups.PlaceInside | include/ps4o/parallel.hpp:93-105 | A bucket's threads are a non-empty part of the parent's group, and a group of two or more fits for its own subtasks |
| ThreadGroups.PlacesDisjoint | include/ps4o/parallel.hpp:106-121 | Groups of different buckets are disjoint, and each has at least two threads of the parent |
| ThreadGroups.NearestRoot | include/ps4o/parallel.hpp:368-377 | The whole input is rounded to the threads there are |
| ThreadGroups.NearestIs | include/ps4o/parallel.hpp:95-96 | The rounding yields the one stripe boundary within half a stripe of the position, the upper one of two |
| ThreadGroups.ThreadOfMiddle | include/ps4o/parallel.hpp:100-103 | A small task goes to the one thread whose stripe of the parent holds the task's middle |
| ThreadGroups.QueueTasks | include/ps4o/parallel.hpp:81-151 | Every large bucket that is no equality bucket gets exactly one place: the threads between the stripe boundaries nearest to its ends, or, if these are at most one apart, the thread whose stripe of the parent holds its middle; the records of all threads and their queues hold exactly these places, and threads outside the group are not touched |
| ParallelRun.BigTasks | include/ps4o/parallel.hpp:194-260 | The tasks that a group places replace its task among the outstanding ones: none is lost and none is doubled |
| ParallelRun.GroupStep | include/ps4o/parallel.hpp:194-260 | Partitioning by a group, as `ParallelPartition` proves it, and queueing its buckets, as `ThreadGroups.QueueTasks` guarantees it, together are a step of the run |
| ParallelRun.BigKeeps | include/ps4o/parallel.hpp:194-260 | A group's step keeps the invariant of the whole run and the groups apart, and takes work away |
| ParallelRun.SmallKeeps | include/ps4o/parallel.hpp:61-78 | So does a step of a thread that belongs to no group, while others still do |
| ParallelRun.NoGroupLeft | include/ps4o/parallel.hpp:156-170 | No thread is told that there is no job before the last group has split up |
| ParallelRun.StartOk | include/ps4o/parallel.hpp:359-388 | One group of all threads with the whole input meets the invariant |
| ParallelRun.RunSorts | include/ps4o/parallel.hpp:359-388 | In every interleaving of groups and single threads, as soon as any thread is told that no task is left, the input array is a sorted permutation of the input |
| ParallelRun.RunIsBounded | include/ps4o/parallel.hpp:359-388 | In every interleaving of groups and single threads, at most as many tasks are finished as the work at the start, 2n - 1 for n elements |
| ParallelRun.FairRunSorts | include/ps4o/parallel.hpp:359-388 | Every fair run of groups and single threads ends: no group is left, all threads have been told that no task is left, and the input array is a sorted permutation of the input |
| Barrier.StepKeeps | include/ps4o/synchronization.hpp:92-127 | Every critical section keeps the invariant of counter, flag and generations |
| Barrier.NobodyLeavesEarly | include/ps4o/synchronization.hpp:92-98 | In every run over any number of generations, no thread is through with an operation before all threads have entered it; a thread that is behind is free to go on, not stranded by another flip |
| Barrier.SingleOnce | include/ps4o/synchronization.hpp:103-116 | single begins its function at most once per generation and has completed it before any thread leaves |
| Barrier.NoDeadlock | include/ps4o/synchronization.hpp:92-127 | Unless all threads are through, some thread can go on |
| Barrier.FairFinishes | include/ps4o/synchronization.hpp:92-127 | In every endless run in which each thread that is not through gets to act again, all threads get through all operations |

## Left out

- ParallelMargins.WriteSharedBucket: filling one bucket is one step, as it writes the range of the bucket only and reads what no other thread writes.
- ParallelInPlace.Partitions: the phases follow each other, as the barriers between them make sure; the threads' stripes enter as `LocalClassification.ClassifyLocally` leaves them.
- The task loop of ips4o/parallel.hpp and both thread pools: their scheduling is simpler than that of include/ps4o/, which is modelled.
- ParallelRun.BigKeeps: one partitioning step of a group is one step of the run; that groups and threads may work at the same time is justified by disjoint ranges and threads, which the invariant states, not by interleaving their memory accesses.
- TaskRun.RunSorts: the same holds for processing one small task.
- ParallelPartition.Step: scatter and cleanup are separated by the barrier; sampling and building the classifier, which one thread does within `single`, enter as the candidates they choose.
- EmptyBlocks.MoveEmptyBlocks: works on whole blocks; stripes are not empty, as the source assumes where it divides the input.
- EqualityCleanup.CleanUpStripe: stripes are not empty, and its lists of moves do not depend on whether the result belongs into the input array; `ParallelCleanup.AnyOrder` makes these copies only if it does.
- LocalClassification.ClassifyLocally: classifies element by element; the source classifies a batch before it hands its elements to the buffers, and `Classifier.Classifier.ClassifyUnrolled` is proved to yield the same buckets.
- BlockPermutation.Permuter.PermuteBlocks: blocks in swap buffers are values.
- Scheduler.DetectionIsSafe: the global queue is linearizable; its internals are those of a library.
- Barrier.StepKeeps: mutex and condition variable are atomic critical sections; spurious wake-ups are the flag test.
- BlockResults.FairFinishes: that a thread which is not finished gets to act again is up to the operating system; the same is assumed of the other fair runs.
- ParallelRun.FairRunSorts: a group acts as one, whenever one of its threads is due; that its phases end is proved for the scatter in `Scatter.EnoughMoves` and for the barriers in `Barrier.FairFinishes`.
- Moves of elements are copies; placement new, destructors and moved-from states are not modelled, nor is allocation. Data that is reset and used again on the next level is created anew.
- Memory ordering, and the packing of both pointers into one 128-bit word: a pointer pair is read and updated in one step, under sequential consistency.
- Random numbers: a sample is any choice of in-range positions. Floating point: oversampling is the truncated fifth of the logarithm, at least 1.
- Configurations without equality buckets, with more than 256 buckets for the byte oracle, or outside `Config.Shrinks`, where the sorters do not terminate on all inputs.
- Inputs of the parallel sorters too short for one element, or one unrolled batch, per stripe.
- `ParallelSorter` set-up, the public `sort` functions, `make_sorter`, the example program and the build files: wiring only.
