# OpenCL in Action host programs, modelled in Dafny

This project models the host-side logic of the example programs of
*OpenCL in Action*: the part of each C or C++ `main` that decides
something rather than merely calling the API. The model covers:

- **MatrixMarket post-processing.** Conversion of 1-based coordinates, the
  expansion of symmetric files by mirrored entries, and the in-place row
  sort of the (row, column, value) triples.
- **Launch configuration and kernel schedules.**
  - Power-of-two rounding of work-group sizes.
  - The bitonic-sort stage/merge launch sequence.
  - The FFT stage loop.
  - The reduction's group and partial counts.
  - The transpose's triangular block count.
  - The string search's chunk partition.
  - The packed layout the real-DFT check reads.
- **The checks the programs run on their results.**
  - Sortedness in a direction.
  - The identity permutation after a Fisher-Yates shuffle.
  - The transpose check.
  - The doubled-index check of the completion callback.
- **An abstract buffer store.**
  - Whole writes and reads, and buffer-to-buffer copies.
  - Sub-buffer windows (section 5.2.1 of the OpenCL 1.1 specification).
  - The 3-D rectangular read (section 5.2.2).
  - Map/unmap pairing.
- **A sequential model of events.**
  - User events, wait lists, completion callbacks, reference counts and
    profiling timestamps (sections 5.9, 5.10 and 5.12).
  - The three event examples and the two profiling loops built on it.
- **Small selection rules.**
  - The GPU-to-CPU device fallback.
  - The `err |= ...` idiom.
  - Extension-substring tests.
  - Kernel lookup by name.
  - `argc` dispatch.
  - Decoding of the floating-point configuration bitfield.

Kernels (`.cl` sources) are not part of this model. A kernel's effect is
an input to the host model: the buffer contents it leaves. Device
timestamps, enqueue return codes and random numbers are inputs as well.
Every module is a flat `.dfy` file; modules import each other and
nothing else.

## Model

| member | source | states |
|---|---|---|
| Text.Find | Ch4/double_test/double_test.c:138-141 | `strstr`: -1 exactly when the pattern occurs nowhere, otherwise the first position where it occurs |
| Text.ContainsInContext | Ch4/double_test/double_test.c:138 | a match survives any text added before or after it, so the test is a substring test, not a token test |
| Selection.CreateDevice | Ch2/kernel_search/kernel_search.c:33-47 | the device is found iff the platform query succeeds and either the GPU query succeeds or it answers "device not found" and the CPU query succeeds; the GPU is preferred |
| Selection.CreateGpuDevice | Ch13/steep_desc/steep_desc.c:124-135 | the GPU-only lookup succeeds iff both queries succeed |
| Selection.FallbackOnlyOnNotFound | Ch2/kernel_search/kernel_search.c:40-47 | any GPU answer other than "device not found" gives the same outcome with or without the fallback |
| Selection.FallbackFindsCpu | Ch2/kernel_search/kernel_search.c:40-47 | with no GPU present, the fallback yields the CPU while the GPU-only lookup fails |
| Selection.SelectBuildOptions | Ch4/double_test/double_test.c:111-147 | the options are `"-DFP_64 "` iff the extension string contains `cl_khr_fp64`, and `""` otherwise; either fits `options[20]` with its NUL |
| Selection.SubstringSelectsOption | Ch4/double_test/double_test.c:138 | any text containing `cl_khr_fp64`, even inside a longer name, selects the option |
| Selection.CString | Ch4/double_test/double_test.c:134-137 | the string a C function sees is the longest NUL-free prefix, ended by a NUL when shorter than the array |
| Selection.TerminatedBufferBoundsText | Ch4/double_test/double_test.c:134-137 | an array of ext_size+1 characters whose last one is NUL holds a string of at most ext_size characters |
| Selection.FindIcdPlatform | Ch2/platform_ext_test/platform_ext_test.c:16-66 | the index is the first platform whose extensions contain `cl_khr_icd`, or -1 iff none does; a failed size query aborts at that platform; the extension buffers allocated are exactly those of the platforms scanned, up to the match, the end or the failing platform, and each is freed once, in the same order |
| Selection.SearchKernels | Ch2/kernel_search/kernel_search.c:97-120 | one kernel handle is created per kernel counted; the result is the first one named exactly `mult`, or none iff no name matches; the handles released are exactly the handles created, each once, in creation order |
| Selection.DispatchArgs | Ch10/wg_test/wg_test.c:109-122 | argc 1 runs the defaults, argc 3 runs argv[1] and argv[2], any other count prints the usage and exits |
| Selection.ExplicitDefaults | Ch10/wg_test/wg_test.c:109-122 | naming blank.cl and blank explicitly runs what no arguments run, and an argument count other than one or three never runs anything |
| Selection.WorkGroupQueriesAbort | Ch10/wg_test/wg_test.c:160-172 | the OR-combined check of the four work-group queries aborts iff one of them failed |
| Selection.DeviceQueriesAbort | Ch10/wg_test/wg_test.c:126-133 | the OR-combined check of the device-name and local-memory queries aborts iff one failed |
| Status.OrCodeSign | Ch11/bsort/bsort.c:183-191 | `a \| b` on two `cl_int` codes is negative iff one of them is, and zero iff both are |
| Status.CombineCodes | Ch11/bsort/bsort.c:183-191 | after `err = c0; err \|= c1; ...` the value is negative iff some code is negative, and zero iff all are zero |
| FloatConfig.Printed | Ch4/float_config/float_config.c:42-59 | the lines printed are exactly the features whose bit is set (the soft-float line only without MAC), in program order |
| FloatConfig.Report | Ch4/float_config/float_config.c:36-59 | a failed flag query prints nothing; otherwise a feature line appears iff its bit is set, in program order |
| FloatConfig.InPrintOrder | Ch4/float_config/float_config.c:43-58 | every feature has its own test in the program |
| FloatConfig.NoFlagNoLines | Ch4/float_config/float_config.c:42-58 | a zero bitfield prints no line |
| FloatConfig.NonePrinted | Ch4/float_config/float_config.c:42-58 | when no checked bit qualifies, nothing is printed |
| FloatConfig.AllPrinted | Ch4/float_config/float_config.c:42-58 | when every checked bit qualifies, every line is printed in program order |
| FloatConfig.AllFlagsAllLines | Ch4/float_config/float_config.c:43-59 | all seven bits set and MAC undefined print all seven lines, INF/NaN first and soft-float last |
| Launch.FloorPow2 | Ch11/bsort/bsort.c:171 | `(int)pow(2, trunc(log2(n)))` is a power of two p with p <= n < 2p, and 0 for 0 |
| Launch.FloorPow2Unique | Ch11/bsort/bsort.c:171 | no other power of two lies in that window, so the rounding is the largest power of two not above n |
| Launch.FloorPow2OfPow2 | Ch14/fft/fft.c:177 | a size that is already a power of two is kept |
| Launch.CheckRange | Ch10/reduction/reduction.c:125-133 | a launch with an explicit local size is accepted iff global and local are nonzero, local divides global and local is within the kernel limit |
| Launch.RangeSplitsIntoGroups | Ch10/reduction/reduction.c:133 | an accepted range is global/local whole work-groups |
| Bsort.ConfigFor | Ch11/bsort/bsort.c:164-224 | the reservation uses the rounded maximum r (a power of two with r <= max < 2r); global is NUM_FLOATS/8; local is r clamped to global; numStages*local = global with numStages a power of two |
| Bsort.GlobalIsPow2 | Ch11/bsort/bsort.c:212 | the global size 2^20/8 is a power of two, so the clamped local size divides it |
| Bsort.RunStageN | Ch11/bsort/bsort.c:234-248 | the inner loop launches stage_n with stage = h, h/2, ..., 2, re-binding argument 2 before each launch and keeping every other binding |
| Bsort.RunHighStages | Ch11/bsort/bsort.c:225-256 | for high_stage = 2, 4, ... below the stage count, both high-stage arguments are set, the stage_n runs are issued, then one stage_0 launch |
| Bsort.RunMerges | Ch11/bsort/bsort.c:268-282 | the merge loop launches merge with stage = numStages, numStages/2, ..., 2, argument 2 re-bound each time |
| Bsort.BsortHost | Ch11/bsort/bsort.c:164-288 | the program's enqueues are exactly the schedule for the configuration it computes: init, the high stages, the merges, and merge_last |
| Bsort.StageNRunsShape | Ch11/bsort/bsort.c:234-248 | the i-th stage_n launch of a high stage h sees stage h/2^i, and there are log2 h of them, so the loop ends by halving |
| Bsort.MergesShape | Ch11/bsort/bsort.c:268-282 | the i-th merge launch sees stage numStages/2^i, and there are log2 numStages of them |
| Bsort.StageNRunsWellFormed | Ch11/bsort/bsort.c:227-248 | every stage_n launch has all four of its arguments bound and uses the program's sizes |
| Bsort.MergesWellFormed | Ch11/bsort/bsort.c:259-282 | every merge launch has its arguments bound, the direction among them |
| Bsort.HighStagesWellFormed | Ch11/bsort/bsort.c:225-256 | every launch of the high-stage phase is well formed |
| Bsort.ScheduleWellFormed | Ch11/bsort/bsort.c:183-288 | each kernel has every argument position it reads bound before each of its launches, and all launches share the global and local sizes |
| Bsort.ScheduleEnds | Ch11/bsort/bsort.c:216-288 | the schedule starts with the initial sort and ends with exactly one merge_last, after log2 numStages merges |
| Bsort.ScheduleRangesAccepted | Ch11/bsort/bsort.c:211-288 | with the computed sizes, every enqueue passes the launch's work-size checks |
| Checks.NeighboursSuffice | Ch11/bsort/bsort.c:298-317 | comparing neighbours is equivalent to comparing all pairs, in both directions |
| Checks.CheckDirection | Ch11/bsort/bsort.c:298-317 | `check` is 0 or 1, and 1 iff the data are ascending for direction 0 and descending for direction -1; any other direction checks nothing |
| SortExamples.Bsort8 | Ch11/bsort8/bsort8.c:112-200 | the task is enqueued with the data buffer as argument 0 and ASCENDING as argument 1; with that direction the check passes iff the output read back is ascending; a kernel that sorts its input gives 0..7 and passes |
| SortExamples.BsortInputIsRange | Ch11/bsort8/bsort8.c:112-113 | the fixed input holds each of 0..7 exactly once |
| Shuffle.Partner | Ch11/radix_sort8/radix_sort8.c:45 | `i + rand() % (N - i)` lies in [i, N), and equals i + roll for a roll below N - i |
| Shuffle.Swap | Ch11/radix_sort8/radix_sort8.c:46 | the three-assignment swap exchanges two positions, leaves the rest and keeps the multiset |
| Shuffle.ShuffleFrom | Ch11/radix_sort8/radix_sort8.c:44-47 | the steps from i on keep the length and the multiset, and never touch positions below i |
| Shuffle.ShuffleRange | Ch11/radix_sort8/radix_sort8.c:40-47 | the host's fill-then-swap loop computes the shuffle of 0..N-1 for its rolls, which is a permutation of 0..N-1 |
| Shuffle.RollsFor | Ch11/radix_sort8/radix_sort8.c:44-47 | every rearrangement is produced by some rolls, each below the number of positions left: the shuffle can yield any ordering |
| Shuffle.Settled | Ch11/radix_sort8/radix_sort8.c:44-47 | after step i, position i holds the element from its partner position for good |
| Checks.CheckIdentity | Ch11/radix_sort8/radix_sort8.c:164-170 | `check` is 1 iff data[i] == i at every position |
| Checks.SortedPermutationIsIdentity | Ch11/radix_sort8/radix_sort8.c:164-170 | for a permutation of 0..N-1, being the identity is the same as being sorted |
| SortExamples.RadixSort8 | Ch11/radix_sort8/radix_sort8.c:40-170 | the input is the shuffle of 0..7 and a permutation of it; the check passes iff the output is 0..7, which for a rearrangement of the input means sorted |
| Checks.IndexPattern | Ch12/transpose/transpose.c:112-116 | entry (i, j) of the input holds i*DIM + j |
| Checks.PatternDistinct | Ch12/transpose/transpose.c:112-116 | equal input entries are at equal positions, so the DIM² entries are distinct |
| Checks.CheckTranspose | Ch12/transpose/transpose.c:186-193 | `check` is 1 iff the output is the transpose of the input, although the `break` leaves only the inner loop |
| Checks.PatternTranspose | Ch12/transpose/transpose.c:186-193 | comparing output(i, j) with j*DIM + i is comparing it with the transposed input |
| Checks.CheckData | Ch8/callback/callback.cpp:24-34 | accurate iff element i holds 2*i for every i below 100; the scan stops at the first mismatch |
| Fft.PointsPerGroup | Ch14/fft/fft.c:190-192 | the points per group fit both in local memory (8 bytes a point) and in the input, and are one of the two bounds |
| Fft.PlanFor | Ch14/fft/fft.c:177-213 | the local size is the largest power of two not above the kernel's limit; between 1 and NUM_POINTS points per group; global = groups × local with at least one group; the launch shape passes the work-size checks |
| Fft.Stages | Ch14/fft/fft.c:231 | the stage values start at the initial stage, double each time and stay within the limit |
| Fft.StagesArePowers | Ch14/fft/fft.c:231 | the loop starting at 2 visits a value exactly when it is a power of two between 2 and the limit |
| Fft.StageLaunches | Ch14/fft/fft.c:231-239 | one stage launch per stage value, with that value as argument 1 and the shared global and local sizes |
| Fft.RunStages | Ch14/fft/fft.c:231-239 | the loop appends exactly the stage launches for stage = 2, 4, ... up to groups, in order |
| Fft.FftHost | Ch14/fft/fft.c:170-257 | the program computes the plan of its two device queries and enqueues exactly the schedule for it |
| Fft.ScheduleWellFormed | Ch14/fft/fft.c:195-257 | every launch of the schedule has all its kernel's arguments bound and passes the work-size checks |
| Fft.InitLaunchArgs | Ch14/fft/fft.c:195-199 | the first launch is the init kernel, with argument 1 reserving all of local memory and arguments 2-4 the points per group, the point count and the direction |
| Fft.ScaleIffInverse | Ch14/fft/fft.c:243-257 | a scale launch appears iff direction < 0, and then it is the last launch |
| Fft.StageValues | Ch14/fft/fft.c:222-239 | a stage launch with stage s is scheduled iff s is a power of two with 2 <= s <= NUM_POINTS / points per group |
| Rdft.RectangleInput | Ch14/rdft/rdft.c:42-51 | input i is 1 for i < N/4 and 0 on the rest of the N points |
| Rdft.ExampleSize | Ch14/rdft/rdft.c:142-143 | the program's N is a size the packed layout works for, with N/2 + 1 = 129 work-items |
| Rdft.RdftLaunch | Ch14/rdft/rdft.c:142-145 | one work-group of N/2 + 1 items, with the buffer bound |
| Rdft.Slot | Ch14/rdft/rdft.c:162-172 | every output slot names a bin no higher than N/2, and bins 0 and N/2 only by their real part |
| Rdft.SlotInjective | Ch14/rdft/rdft.c:162-172 | two slots never hold the same component |
| Rdft.SlotsCoverSpectrum | Ch14/rdft/rdft.c:162-172 | a component has a slot iff a real input's spectrum needs it: both parts of bins 1..N/2-1 and the real parts of bins 0 and N/2 |
| Rdft.Packed | Ch14/rdft/rdft.c:162-172 | the correct packed output has N entries, slot i holding the component Slot(N, i) of the spectrum |
| Rdft.CheckPackedAsWritten | Ch14/rdft/rdft.c:160-172 | `check` is 1 iff the first N/2 slots match the packed spectrum, nothing more |
| Rdft.CheckedBins | Ch14/rdft/rdft.c:162-172 | the bins the check as written compares are exactly 0, N/2 and 1..N/4-1 |
| Rdft.UncheckedSlot | Ch14/rdft/rdft.c:166-172 | an output wrong only in slot N/2, the real part of bin N/4, agrees with the correct one on every compared slot yet differs from it |
| Rdft.CheckPacked | Ch14/rdft/rdft.c:160-172 | the corrected check: `check` is 1 iff every slot matches the packed spectrum |
| Reduction.ReferenceSum | Ch10/reduction/reduction.c:119-121 | for an even N, the reference N/2*(N-1) is exactly 0 + 1 + ... + (N-1), the sum of the input data[i] = i |
| Reduction.ExampleReference | Ch10/reduction/reduction.c:119-121 | for the program's ARRAY_SIZE the reference value is the sum of its input |
| Reduction.VectorGroups | Ch10/reduction/reduction.c:133 | (N/4)/L equals (N/L)/4 for every group size L |
| Reduction.Coverage | Ch10/reduction/reduction.c:125-133 | the N/L groups of L items cover all N elements iff L divides N; the size is the device maximum, not rounded |
| Reduction.VectorRangeImpliesScalar | Ch10/reduction/reduction.c:185-192 | a group size that the vector launch accepts also divides the scalar launch's global size |
| Reduction.VectorHostAsWritten | Ch10/reduction/reduction.c:135 | the host array behind the vector partials holds num_groups/4 entries |
| Reduction.VectorSumOverRead | Ch10/reduction/reduction.c:135-159 | for every group size the program can run with, that array is shorter than the num_groups floats the buffer copies from it |
| Reduction.VectorHost | Ch10/reduction/reduction.c:139-141 | the corrected array: num_groups zeros, as long as the buffer |
| Reduction.ScalarLaunch | Ch10/reduction/reduction.c:183-188 | the scalar kernel runs N items in groups of L with three arguments bound, argument 1 reserving L floats |
| Reduction.VectorLaunch | Ch10/reduction/reduction.c:189-193 | the vector kernel runs N/4 items in groups of L with three arguments bound, argument 1 reserving 4L floats |
| Reduction.CreateBuffers | Ch10/reduction/reduction.c:154-163 | the corrected program, whose vector partials come from a host array of num_groups floats: all three creations succeed iff num_groups > 0; the data buffer holds 0..N-1 and the two partial buffers num_groups elements each |
| Reduction.KernelPass | Ch10/reduction/reduction.c:200-238 | after a kernel writes its partials the host reads back the first `count` of them, and no buffer is added or dropped |
| Reduction.ReductionHost | Ch10/reduction/reduction.c:125-238 | the corrected program, built on Reduction.CreateBuffers: the run succeeds iff L divides N/4; then the two launches cover N and N/4 items, the partials read back are num_groups scalar and num_groups/4 vector sums, and each elapsed time is end - start modulo 2^64 |
| Transpose.Flatten | Ch12/transpose/transpose.c:108 | the row-major layout puts (i, j) at i*DIM + j |
| Transpose.RowsOfFlatten | Ch12/transpose/transpose.c:137-139 | reading the rows back from the layout gives the matrix that was laid out |
| Transpose.FlattenOfRows | Ch12/transpose/transpose.c:177-178 | laying the rows out again gives the storage read back |
| Transpose.UpperPairsCount | Ch12/transpose/transpose.c:146 | there are n(n+1)/2 block pairs with bi <= bj < n |
| Transpose.UpperPairsMember | Ch12/transpose/transpose.c:146 | a pair is listed iff it lies on or above the block diagonal |
| Transpose.UpperPairsDistinct | Ch12/transpose/transpose.c:146 | no block pair is listed twice |
| Transpose.CellCovered | Ch12/transpose/transpose.c:146-151 | every cell lies in the block pair of one work-item, its own block or the mirrored one |
| Transpose.GlobalSize | Ch12/transpose/transpose.c:146 | the global size is the number of block pairs for DIM/4 blocks per side, 136 |
| Transpose.TransposeLaunch | Ch12/transpose/transpose.c:150-169 | one item per block pair, no local size, the buffer, all of local memory, and DIM/4 as the three arguments |
| Transpose.TransposeHost | Ch12/transpose/transpose.c:112-193 | the upload is the index pattern, the result is what the kernel left, and `check` is 1 iff that result is the transpose of the input |
| Transpose.CheckSeparates | Ch12/transpose/transpose.c:186-193 | a transposing kernel passes the check and the untouched input fails it |
| StringSearch.Word | Ch11/string_search/string_search.c:35 | word k is four characters and sits at position 4k of the pattern |
| StringSearch.Words | Ch11/string_search/string_search.c:35 | the 16-character pattern splits into "that", "with", "have", "from" |
| StringSearch.GlobalSize | Ch11/string_search/string_search.c:58-62 | the corrected program, which reads the compute units into a `cl_uint`: compute units × local size is a multiple of the local size, and nonzero iff both factors are |
| StringSearch.LaunchAccepted | Ch11/string_search/string_search.c:58-62 | in the corrected program the launch shape always passes the work-size checks |
| StringSearch.QueriedGlobal | Ch11/string_search/string_search.c:32-59 | as written, the compute-unit count fills only the low 32 bits of the 64-bit `global_size`, and the high 32 bits are the uninitialised value |
| StringSearch.GlobalSizeAsWritten | Ch11/string_search/string_search.c:58-62 | as written, `global_size *= local_size` wraps modulo 2^64 and equals compute units × local size when the high half is zero |
| StringSearch.UpperHalfInflatesGlobal | Ch11/string_search/string_search.c:58-96 | as written, any nonzero high half without wrap-around gives at least 2^32 work-items, more than compute units × local size; the work-size checks still accept it and a text under 2^32 characters gets one character per item |
| StringSearch.InflatedExample | Ch11/string_search/string_search.c:58-62 | a high half of 1, 4 compute units and local size 256 give 2^40 + 1024 work-items instead of 1024 |
| StringSearch.CharsPerItem | Ch11/string_search/string_search.c:96 | at least one character per item, and the items together span more than the text |
| StringSearch.ChunksCover | Ch11/string_search/string_search.c:96 | every text position lies in the chunk of exactly one existing work-item |
| StringSearch.TextOf | Ch11/string_search/string_search.c:90-94 | the uploaded text is the file without its last character |
| StringSearch.SearchHost | Ch11/string_search/string_search.c:50-168 | the corrected program, with global_size equal to compute units × local size: the run succeeds iff the GPU query does and the text is nonempty; then the launch binds the pattern, text, chars per item, 4 ints of local memory and the counters, which start at 0 |
| StringSearch.Report | Ch11/string_search/string_search.c:174-178 | result slot k is reported under word k |
| StringSearch.ReportSpellsPattern | Ch11/string_search/string_search.c:174-178 | the reported words, concatenated in order, give the pattern back |
| MatrixMarket.ZeroBased | Ch13/read_mm/read_mm.c:92-93 | row and column each drop by one and the value is kept |
| MatrixMarket.Mirror | Ch13/read_mm/read_mm.c:96-98 | the mirror swaps row and column and copies the value unchanged, not negated even for skew files |
| MatrixMarket.Slots | Ch13/read_mm/read_mm.c:90-100 | one file entry fills one slot with its zero-based form, followed by its mirror when the file is mirrored and the entry is off the diagonal |
| MatrixMarket.ExpandAppend | Ch13/read_mm/read_mm.c:88-101 | reading two parts of a file fills the slots of the first part and then those of the second |
| MatrixMarket.ExpandLength | Ch13/read_mm/read_mm.c:94-100 | a mirrored file fills one slot per entry plus one per off-diagonal entry; other files one slot per entry |
| MatrixMarket.ExpandAt | Ch13/read_mm/read_mm.c:90-100 | entry k lands just after the slots of the entries before it, immediately followed by its mirror when it has one |
| MatrixMarket.AdjustedCountExact | Ch13/read_mm/read_mm.c:76-78 | `2*nnz - num_rows` is the number of slots a mirrored file fills iff the file lists exactly num_rows diagonal entries |
| MatrixMarket.ReadLoop | Ch13/read_mm/read_mm.c:88-101 | the loop as written stops after the first entry that takes the slot index to the count or past it, so it fills the slots of a prefix of the file, at most one more than the count |
| MatrixMarket.ExactCountReadsAll | Ch13/read_mm/read_mm.c:88-101 | with the exact slot count the loop reads every entry and fills exactly the expanded slots |
| MatrixMarket.ShortCountLoses | Ch13/read_mm/read_mm.c:76-101 | a mirrored file with fewer diagonal entries than rows gets a count below its slot count, and then the loop either writes one slot past the arrays or stops before reading every entry |
| MatrixMarket.OverrunExample | Ch13/read_mm/read_mm.c:76-101 | a symmetric 2×2 file listing (1,1) and (1,2) gets 2 slots, and the loop writes a third |
| MatrixMarket.ReadEntries | Ch13/read_mm/read_mm.c:83-101 | with arrays of 2*nnz slots, the loop fills exactly the expanded slots, which always fit |
| MatrixMarket.SortByRow | Ch13/read_mm/read_mm.c:9-39 | the sort permutes whole triples; the entries with row i form the block [starts[i], starts[i+1]); blocks follow in row order, followed by the entries whose row is outside [0, num); an input already row-sorted within [0, num) is left unchanged |
| MatrixMarket.Gather | Ch13/read_mm/read_mm.c:15-36 | pass i moves every remaining entry with row i into a contiguous block at `index`, keeps the entries before `index` and permutes whole triples |
| MatrixMarket.BlocksSorted | Ch13/read_mm/read_mm.c:14-38 | the entries in front of the final index are in nondecreasing row order |
| MatrixMarket.StartsMonotone | Ch13/read_mm/read_mm.c:15-36 | `index` never decreases from one pass to any later one |
| MatrixMarket.InRangeAllPlaced | Ch13/read_mm/read_mm.c:14-38 | when every row lies in [0, num), the sort places every entry in some block |
| MatrixMarket.PermutationKeepsRows | Ch13/read_mm/read_mm.c:22-35 | swapping triples keeps every row in range |
| SteepDesc.ColumnsDetermineEntries | Ch13/steep_desc/steep_desc.c:20-50 | the three arrays swapped together determine the triples, so sorting triples is sorting the arrays |
| SteepDesc.BVecOverRead | Ch13/steep_desc/steep_desc.c:92-203 | for every file with more slots than rows, even one with the exact count, `b_buffer` copies more floats than `b_vec` holds |
| SteepDesc.SortedEntries | Ch13/steep_desc/steep_desc.c:91-114 | the corrected program (2*nnz slots, as MatrixMarket.ReadEntries): the uploaded triples are a permutation of the expanded file entries, empty iff the file is, and in ascending row order whenever every row index is below the number of triples |
| SteepDesc.Arguments | Ch13/steep_desc/steep_desc.c:209-218 | all ten argument positions are bound: the row and entry counts, three local arrays of num_rows floats, and the five buffers in order |
| SteepDesc.SolverLaunch | Ch13/steep_desc/steep_desc.c:209-235 | a single work-group of num_rows items with every argument bound and the buffers in positions 5 to 9 |
| SteepDesc.UploadMatrix | Ch13/steep_desc/steep_desc.c:189-206 | the buffers hold the row, column and value arrays of the sorted triples and the right-hand side |
| SteepDesc.SteepDescHost | Ch13/steep_desc/steep_desc.c:124-252 | the corrected program: any GPU-query error aborts with its code; it succeeds iff the device is found, the file is nonempty and num_rows fits the work-group limit; then the uploaded arrays are a permutation of the expanded entries, in ascending row order when every row index is below their count, `b_buffer` holds b_vec, and the two results read back are the iteration count and the residual |
| Buffers.EmptyValid | Ch3/buffer_check/buffer_check.c:60-62 | a fresh context holds no objects and satisfies the store's shape invariant |
| Buffers.Splice | Ch3/buffer_test/buffer_test.c:162-163 | writing values at a position replaces exactly that window and keeps every other element |
| Buffers.CreateBuffer | Ch3/map_copy/map_copy.c:133-140 | a zero size is refused with CL_INVALID_BUFFER_SIZE; otherwise a new object appears holding the initial data, and every existing object keeps its contents |
| Buffers.CopyFromHost | Ch10/reduction/reduction.c:154-159 | the new buffer of n elements holds the first n host elements; the host array must hold at least n, which is the precondition two call sites break |
| Buffers.Contents | Ch3/buffer_check/buffer_check.c:68-72 | an object shows exactly `count` elements, its window of the root's storage |
| Buffers.SizeBytes | Ch3/buffer_check/buffer_check.c:78-84 | CL_MEM_SIZE of a live object is its element count times its element width; a dead handle is refused |
| Buffers.Read | Ch3/buffer_test/buffer_test.c:170-172 | a read of a live object succeeds iff the window lies inside it, and returns that window; a dead handle gives CL_INVALID_MEM_OBJECT and an out-of-range window CL_INVALID_VALUE |
| Buffers.Write | Ch3/buffer_test/buffer_test.c:161-163 | a write succeeds iff the window fits; it changes no object list or mapping, the window then holds the values, and every element of every object outside the written storage window keeps its value |
| Buffers.ReadAfterWrite | Ch3/buffer_test/buffer_test.c:161-172 | reading back the window just written returns the written values |
| Buffers.WriteFrame | Ch3/buffer_test/buffer_test.c:161-163 | a write leaves every object on other storage unchanged |
| Buffers.WriteThroughSub | Ch8/sub_buffer/sub_buffer.cpp:46-51 | a write through a sub-buffer shows up in the parent at the sub-buffer's origin |
| Buffers.Copy | Ch3/map_copy/map_copy.c:164-166 | a copy succeeds iff both objects are live, both windows fit and they do not overlap on shared storage; the destination window then equals the source window, and every element of every object outside the destination's storage window keeps its value |
| Buffers.CopyKeepsSource | Ch3/map_copy/map_copy.c:164-166 | a copy between different storages leaves the source as it was |
| Buffers.WholeCopy | Ch3/map_copy/map_copy.c:164-166 | copying all of one buffer into another of the same size succeeds and makes them equal, the source unchanged |
| Buffers.AddSub | Ch3/buffer_check/buffer_check.c:68-72 | the new sub-buffer aliases the parent's storage at the origin, and nothing else changes |
| Buffers.SubBuffer | Ch3/buffer_check/buffer_check.c:68-72 | creation succeeds iff the parent is a live non-sub buffer, the region fits and the origin is aligned; an in-range misaligned origin gives CL_MISALIGNED_SUB_BUFFER_OFFSET; the sub-buffer shows the parent's window |
| Buffers.DropHandle | Ch3/buffer_check/buffer_check.c:97-99 | the handle disappears, every other object keeps its contents, and the storage survives iff another object still uses it |
| Buffers.Release | Ch3/buffer_check/buffer_check.c:97-99 | releasing a live object drops one reference; the handle survives iff it had more than one, and the storage survives while any object still uses it |
| Buffers.Map | Ch3/map_copy/map_copy.c:172-181 | a blocking read map succeeds iff the window fits, hands out a new pointer and shows the window's contents, changing no storage |
| Buffers.Unmap | Ch3/map_copy/map_copy.c:180-183 | an unmap succeeds iff the pointer is an outstanding mapping of that buffer, and removes just that mapping |
| Buffers.MapThenUnmap | Ch3/map_copy/map_copy.c:172-183 | mapping and then unmapping the same pointer returns the store to its former state |
| Buffers.UnmapTwiceFails | Ch3/map_copy/map_copy.c:180-183 | unmapping the same pointer a second time is an error |
| Buffers.KernelRoundTrip | Ch11/bsort8/bsort8.c:134-172 | the buffer created from the whole input holds the input, and the blocking read returns what the kernel left |
| Buffers.InputOutputPass | Ch11/string_search/string_search.c:130-168 | an input buffer and a distinct output buffer are uploaded from their host arrays, and the read returns what the kernel left in the output |
| Buffers.WriteThenRead | Ch3/buffer_test/buffer_test.c:161-172 | a whole-buffer write followed by a whole read returns the written data |
| Rect.Resolve | Ch3/buffer_test/buffer_test.c:170-172 | a zero row pitch means region.x and a zero slice pitch means region.y times the row pitch; explicit pitches are kept |
| Rect.CoveredIff | Ch3/buffer_test/buffer_test.c:105-107 | a host cell is covered iff it is the offset of some cell of the box |
| Rect.Fill | Ch3/buffer_test/buffer_test.c:170-172 | every box cell is copied from its buffer offset to its host offset, and every uncovered host cell keeps its value |
| Rect.ReadRect | Ch3/buffer_test/buffer_test.c:170-172 | the read succeeds iff the region is nonempty, explicit pitches are large enough and the box fits in the buffer; any failure is CL_INVALID_VALUE; on success box cells are copied and all other host cells kept |
| BufferExamples.ExampleRead | Ch3/buffer_test/buffer_test.c:105-172 | the example read of an 80-float buffer succeeds, and on a buffer holding 0..79 gives the example's host array |
| BufferExamples.RectExample | Ch3/buffer_test/buffer_test.c:104-172 | host (1+r)*10 + 1 + c receives buffer (3+r)*10 + 5 + c for r, c below 4, so it holds 35-38, 45-48, 55-58, 65-68, and every other host entry stays 0 |
| BufferExamples.RectBounds | Ch3/buffer_test/buffer_test.c:104-107 | the box ends at byte 276 in the buffer and 180 on the host, both within 320; a zero slice pitch with depth 1 gives one slice |
| BufferExamples.BufferTestC | Ch3/buffer_test/buffer_test.c:132-172 | whatever the task leaves, the whole write of full_matrix followed by the rect read gives the example's host array |
| BufferExamples.PushBack | Ch8/buffer_test/buffer_test.cpp:64-72 | a push succeeds iff fewer than three components are present, and appends the value |
| BufferExamples.ThreePushes | Ch8/buffer_test/buffer_test.cpp:64-72 | three pushes give exactly the three components in order, and a fourth fails |
| BufferExamples.BufferTestCpp | Ch8/buffer_test/buffer_test.cpp:50-76 | the buffer starts as zeroMatrix, the task runs first, and the write of fullMatrix followed by the rect read gives the same host array as the C version |
| BufferExamples.SubBufferSizes | Ch3/buffer_check/buffer_check.c:60-84 | the sub-buffer is created iff its byte origin is aligned, else CL_MISALIGNED_SUB_BUFFER_OFFSET; then the reported sizes are n and count floats in bytes, and the sub-buffer shows data[origin..origin+count) of its parent |
| BufferExamples.NotAligned | Ch3/buffer_check/buffer_check.c:69-70 | an origin that is not a multiple of 16 bytes is misaligned for every power-of-two alignment of at least 16 |
| BufferExamples.BufferCheck | Ch3/buffer_check/buffer_check.c:60-84 | as written, the 120-byte origin succeeds iff the alignment divides 120, so with any alignment of 16 bytes or more the program aborts; on success the sizes are 400 and 80 |
| BufferExamples.SubBufferExample | Ch8/sub_buffer/sub_buffer.cpp:41-61 | as written, the 280-byte origin succeeds iff the alignment divides 280, so with any alignment of 16 bytes or more it throws; on success the sizes are 800 and 80 |
| BufferExamples.AlignDown | Ch3/buffer_check/buffer_check.c:68-70 | the corrected origin is the nearest element at or below the intended one whose byte offset is a multiple of the device alignment: aligned, and no element between it and the intended one is |
| BufferExamples.AlignedSubBuffers | Ch3/buffer_check/buffer_check.c:68-84 | with each window moved down to its aligned element, both examples create their sub-buffers on every device, whatever its alignment, and report 400/80 and 800/80 bytes |
| BufferExamples.AlignedOrigins128 | Ch8/sub_buffer/sub_buffer.cpp:47-48 | at 128-byte (1024-bit) alignment the windows of elements 30 and 70 move to elements 0 and 64 |
| BufferExamples.ReleaseParentFirst | Ch3/buffer_check/buffer_check.c:97-99 | releasing the parent first keeps its storage alive for the sub-buffer, and releasing the sub-buffer then frees it |
| BufferExamples.SubBufferArgs | Ch8/sub_buffer/sub_buffer.cpp:41-51 | when the sub-buffer is created, argument 0 is the parent and argument 1 a sub-buffer of it showing data[70..90) |
| BufferExamples.MapCopy | Ch3/map_copy/map_copy.c:110-187 | after task, copy, map, memcpy and unmap in queue order, both buffers and the result array equal buffer one as the kernel left it, no mapping is outstanding, and an unchanged buffer one gives result[i] == i |
| Events.NewQueue | Ch7/user_event/user_event.c:152-154 | a new queue holds no events, callbacks or calls, with the requested ordering and profiling mode |
| Events.NewQueueValid | Ch7/user_event/user_event.c:152-154 | a new queue satisfies the event invariant |
| Events.RegisteredOn | Ch7/user_event/user_event.c:182-184 | lists exactly the callbacks registered on the event, in registration order |
| Events.Fire | Ch7/user_event/user_event.c:182-184 | terminating an event calls every callback registered on it, after those already called |
| Events.FireHonours | Ch7/user_event/user_event.c:182-199 | firing an event that has just terminated keeps "a callback has been called iff its event has terminated, and at most once" |
| Events.CreateUserEvent | Ch7/user_event/user_event.c:160-161 | a user event is added in state CL_SUBMITTED with one reference, nothing else changes, and the invariant is kept |
| Events.Enqueue | Ch7/user_event/user_event.c:167-176 | an enqueue fails with CL_INVALID_EVENT_WAIT_LIST iff some wait-list entry is not an existing event; otherwise a new queued command waiting on that list is added and the invariant is kept |
| Events.EnqueueValid | Ch7/user_event/user_event.c:167-176 | appending a queued command whose waits name earlier events keeps the invariant |
| Events.EnqueueStamps | Ch7/user_event/user_event.c:167-176 | appending a command stamped with the current time keeps the stamps well formed |
| Events.EnqueueWaits | Ch7/user_event/user_event.c:167-176 | appending a queued command keeps waits pointing backwards and keeps the wait-list and queue-order guarantees |
| Events.EnqueueCallbacks | Ch7/user_event/user_event.c:167-176 | appending a command keeps the callback guarantee |
| Events.EnqueueFailures | Ch7/user_event/user_event.c:167-176 | appending a queued command keeps every failure explained by a failed wait |
| Events.SetUserStatus | Ch7/user_event/user_event.c:198-199 | setting a status succeeds iff the event is an unset user event and the status is CL_COMPLETE or negative; the event becomes complete or failed and its callbacks are called; a wrong event gives CL_INVALID_EVENT |
| Events.SetUserStatusValid | Ch7/user_event/user_event.c:198-199 | terminating an unset user event and firing its callbacks keeps the invariant |
| Events.SetCallback | Ch7/user_event/user_event.c:182-184 | registering on an existing event appends the callback, calling it at once when the event has already terminated; an unknown event gives CL_INVALID_EVENT |
| Events.SetCallbackValid | Ch7/user_event/user_event.c:182-184 | registering a callback keeps the invariant |
| Events.SetCallbackHonours | Ch7/user_event/user_event.c:182-184 | registering a callback keeps the callback guarantee |
| Events.SameEvents | Ch7/user_event/user_event.c:182-184 | the event part of the invariant depends only on the events, the clock and the queue mode |
| Events.Release | Ch7/user_event/user_event.c:201-204 | releasing drops one reference of a live event and changes nothing else; the command keeps running; an unknown or already released event gives CL_INVALID_EVENT |
| Events.Profile | Ch7/profile_read/profile_read.c:189-194 | timing is available iff the queue profiles and the command completed, else CL_PROFILING_INFO_NOT_AVAILABLE; the four stamps are in order and no later than now |
| Events.Advance | Ch7/user_event/user_event.c:167-199 | the device moves a command one stage only when it may: its wait list completed, no earlier command is pending on an in-order queue, and a failed wait fails it; callbacks fire when it terminates; nothing else changes |
| Events.AdvanceValid | Ch7/user_event/user_event.c:167-199 | every device step keeps the invariant |
| Events.NextShape | Ch7/user_event/user_event.c:167-199 | a step changes only the moved command, the clock and the callback log |
| Events.NextCallbacks | Ch7/user_event/user_event.c:182-199 | a step keeps the callback guarantee |
| Events.StillRunningHonours | Ch7/user_event/user_event.c:182-199 | a step that does not terminate its command calls no callback |
| Events.MovedStamps | Ch7/user_event/user_event.c:167-199 | the moved command gains one stamp, at the new time, no earlier than its previous ones |
| Events.NextStamps | Ch7/user_event/user_event.c:167-199 | a step keeps the stamps well formed |
| Events.NextWaits | Ch7/user_event/user_event.c:167-176 | after a step every started command still had its waits complete before it started |
| Events.NextOrder | Ch8/callback/callback.cpp:72-77 | after a step, on an in-order queue every started command still started after every earlier command ended |
| Events.NextFailures | Ch7/user_event/user_event.c:167-199 | after a step every failed command still has a failed wait |
| Events.Try | Ch7/user_event/user_event.c:167-199 | a step the device cannot take changes nothing; terminated events and user events stay as they are; the callback log only grows |
| Events.TrySubmits | Ch7/user_event/user_event.c:167-176 | a queued command is submitted by its next step |
| Events.TryStarts | Ch7/user_event/user_event.c:167-176 | a submitted command whose waits completed, and which the queue order allows, starts |
| Events.TryCompletes | Ch7/user_event/user_event.c:182-184 | a running command completes and its callbacks are called |
| Events.RunAll | Ch7/user_event/user_event.c:167-199 | any sequence of device steps keeps the invariant, never reverts a terminated event or touches a user event, and only appends to the callback log |
| Events.Pending | Ch7/user_event/user_event.c:161-199 | a command with an incomplete wait and no failed one has not started, and none of its callbacks has been called |
| Events.NoneFired | Ch7/user_event/user_event.c:182-199 | when no registered callback has been called the log is empty |
| Events.NoDupCount | Ch7/user_event/user_event.c:182-199 | a log without repeats holds each callback at most once |
| Events.CalledAtMostOnce | Ch7/user_event/user_event.c:182-199 | in every valid state, and after any further steps, each callback has been called at most once |
| Events.WithRefs | Ch7/user_event/user_event.c:201-204 | changing a reference count changes nothing else |
| Events.EnabledIgnoresRefs | Ch7/user_event/user_event.c:201-204 | whether the device may move a command does not depend on reference counts |
| Events.NextIgnoresRefs | Ch7/user_event/user_event.c:201-204 | a step commutes with changing a reference count |
| Events.AdvanceIgnoresRefs | Ch7/user_event/user_event.c:201-204 | the device's steps do not look at reference counts |
| Events.ReleaseDoesNotCancel | Ch7/user_event/user_event.c:201-204 | releasing an event does not cancel or change anything the device does: any run commutes with the release |
| EventExamples.HostData | Ch7/user_event/user_event.c:174-176 | the host array is the buffer contents once the non-blocking read has completed, and its initial values before |
| EventExamples.UserEventSetup | Ch7/user_event/user_event.c:153-184 | on an out-of-order queue the program creates an unset user event, a kernel waiting on it, a read waiting on the kernel, and one callback on the read |
| EventExamples.ChainKept | Ch7/user_event/user_event.c:167-184 | device steps keep that chain of waits and leave the user event alone |
| EventExamples.BeforeStatus | Ch7/user_event/user_event.c:161-196 | until the status is set, whatever the device does, neither command terminates, the callback has not been called, and the host array still reads 0, 1, 2, 3 |
| EventExamples.UnsetBlocksRead | Ch7/user_event/user_event.c:161-196 | in any valid state of the chain with the user event unset, neither command has terminated and no callback has been called |
| EventExamples.SetStatusOnChain | Ch7/user_event/user_event.c:198-199 | setting the unset user event to CL_SUCCESS is accepted and completes it |
| EventExamples.AfterStatus | Ch7/user_event/user_event.c:190-199 | any device run, then the status, then any run, leaves a valid chain with the user event complete |
| EventExamples.OrderAfterStatus | Ch7/user_event/user_event.c:167-199 | after the status is set the read starts only after the kernel ended, and when the callback has been called the read is done and the host array holds the buffer contents; the callback is called at most once |
| EventExamples.SetChainOrdered | Ch7/user_event/user_event.c:167-199 | with the user event complete, a started read started after the kernel ended, and a called callback means the read is done |
| EventExamples.CompletionRuns | Ch7/user_event/user_event.c:167-199 | there is a run after the status in which both commands complete and the callback is called exactly once |
| EventExamples.ChainCompletes | Ch7/user_event/user_event.c:167-199 | from the state right after the status, the kernel's and the read's steps complete both and call the callback once |
| EventExamples.KernelPhase | Ch7/user_event/user_event.c:167-168 | three kernel steps complete the kernel and call nothing |
| EventExamples.ReadPhase | Ch7/user_event/user_event.c:174-184 | three read steps after the kernel complete the read and call its callback |
| EventExamples.RunThree | Ch7/user_event/user_event.c:167-199 | a three-step run is the three steps one after another |
| EventExamples.RunAppend | Ch7/user_event/user_event.c:167-199 | a run split in two is the second part run after the first |
| EventExamples.TaskSetup | Ch8/user_event/user_event.cpp:50-57 | an in-order queue with an unset user event, a task waiting on it, and a callback on the task |
| EventExamples.NeverWithoutStatus | Ch8/user_event/user_event.cpp:50-59 | without setStatus, whatever the device does, the task never terminates and the message is never printed |
| EventExamples.UnsetBlocksTask | Ch8/user_event/user_event.cpp:50-59 | in any valid state with the user event unset, the task has not terminated and no callback has been called |
| EventExamples.WithStatusCompletes | Ch8/user_event/user_event.cpp:50-60 | with setStatus(CL_COMPLETE), three steps run the task and call the callback exactly once |
| EventExamples.TaskCompletes | Ch8/user_event/user_event.cpp:54-60 | from the state right after setStatus, three steps complete the task and call its callback once |
| EventExamples.CallbackSetup | Ch8/callback/callback.cpp:72-80 | an in-order queue with a task, then a non-blocking read with a callback on it |
| EventExamples.ArrayData | Ch8/callback/callback.cpp:76-77 | the array is the buffer contents once the read completed, and 0..99 before |
| EventExamples.CallbackSeesKernelOutput | Ch8/callback/callback.cpp:72-80 | whenever the callback has been called, the task ended before the read started and the array holds the buffer contents |
| EventExamples.InOrderReadAfterTask | Ch8/callback/callback.cpp:72-80 | on the in-order queue a started read started after the task ended, and a called callback means the read is done |
| EventExamples.CallbackCheck | Ch8/callback/callback.cpp:17-80 | the callback runs iff the read's callback was called, and then reports accurate iff element i of the buffer holds 2*i for every i below 100 |
| Profiling.Elapsed | Ch7/profile_read/profile_read.c:194 | `time_end - time_start` on cl_ulong is the plain difference when the end is not earlier, and wraps by 2^64 otherwise |
| Profiling.AddWraps | Ch7/profile_read/profile_read.c:194 | adding to a total kept modulo 2^64 gives the exact sum modulo 2^64 |
| Profiling.Accumulate | Ch7/profile_read/profile_read.c:157-194 | `total += d` keeps the running total equal to the sum of the durations so far modulo 2^64 |
| Profiling.SumBounds | Ch7/profile_read/profile_read.c:157-212 | n durations between lo and hi sum to between n*lo and n*hi |
| Profiling.AverageWithin | Ch7/profile_read/profile_read.c:157-212 | when each duration lies in [lo, hi] and 2000*hi stays below 2^64, the total never wraps and the average lies in [lo, hi] |
| Profiling.DivBetween | Ch7/profile_read/profile_read.c:212 | a quotient by n of something between n*lo and n*hi lies between lo and hi |
| Profiling.OrderedDuration | Ch7/profile_read/profile_read.c:190-194 | for stamps in order the duration is end - start, no larger than the end stamp |
| Profiling.MapRoundCode | Ch7/profile_read/profile_read.c:160-185 | a failed round reports the task's code if the task failed, else the map's, and it is negative |
| Profiling.FirstMapFailure | Ch7/profile_read/profile_read.c:158-207 | every round before the index succeeded and the round at the index failed |
| Profiling.Durations | Ch7/profile_read/profile_read.c:190-194 | one value per command, below 2^64, equal to end - start whenever the end does not precede the start |
| Profiling.ReadTask | Ch7/profile_read/profile_read.c:139-161 | each iteration's task is one work-item with the buffer as argument 0 and NUM_BYTES/16 vectors as argument 1 |
| Profiling.ProfileRead | Ch7/profile_read/profile_read.c:157-216 | every round enqueues that task, one per round attempted; the loop reports iff every round succeeds, with total the sum of the map durations modulo 2^64 and average total/2000, no mapping left, and every profiling event leaked except the last; otherwise it exits with the first failing code, leaving one mapping iff that round's map had succeeded |
| Profiling.ItemsLaunch | Ch7/profile_items/profile_items.c:148-169 | each launch has 512 work-items and no local size, with the buffer and 4096 as its two arguments |
| Profiling.FirstLaunchFailure | Ch7/profile_items/profile_items.c:165-182 | every launch before the index succeeded and the launch at the index failed |
| Profiling.ProfileItems | Ch7/profile_items/profile_items.c:164-186 | the corrected loop, with the enqueue's code stored in err: each round enqueues the 512-item launch, up to and including the first that fails; it reports iff every launch succeeds, with total the sum of the durations modulo 2^64 and average total/2000; otherwise it exits with the first failing launch's code |
| Profiling.StaleRead | Ch7/profile_items/profile_items.c:165-181 | after a successful launch the queries read its stamps; after a failed one they read whatever the last successful launch, or the initial values, left |
| Profiling.CountedAsWritten | Ch7/profile_items/profile_items.c:165-181 | iteration i adds the duration of the stamps the queries read, stale or not |
| Profiling.StaleStamped | Ch7/profile_items/profile_items.c:165-181 | the stale stamps are always those of some launch or the initial ones |
| Profiling.Successes | Ch7/profile_items/profile_items.c:165-182 | counts the successful launches, and equals the round count iff every launch succeeded |
| Profiling.ProfileItemsAsWritten | Ch7/profile_items/profile_items.c:164-186 | as written, the loop enqueues the 512-item launch in all 2000 rounds and always reports: failed launches are timed with stale stamps, the total is the sum of those durations modulo 2^64, and one event is leaked per successful launch except the last |
| Profiling.FailedLaunchStillTimed | Ch7/profile_items/profile_items.c:168-181 | a run whose second launch fails with CL_INVALID_WORK_GROUP_SIZE still adds 5 for that iteration, the first launch's duration, where the corrected loop stops |

## Left out

- API plumbing: platform, context, program, build, kernel-object and queue creation, and the release of kernels, programs, queues and contexts, are not modelled. Every program exits when one of them fails; the model assumes they all succeed.
- Failed calls in general: failures are modelled only in the device lookups (Selection, StringSearch, SteepDesc, FloatConfig), the work-size checks of a launch (Launch.CheckRange), the error results of the buffer operations (Buffers, Rect), the enqueue codes of the profiling loops (Profiling), event wait lists and user-event status (Events) and the `err |=` fold (Status.CombineCodes). The other host models assume that every argument binding, enqueue, read and write succeeds, although the C code checks each and exits on failure; the lines below name them.
- SortExamples.Bsort8: assumes the buffer creation, both argument bindings, the task enqueue and the blocking read at bsort8.c:132-176 succeed.
- SortExamples.RadixSort8: assumes the buffer creation, the argument binding, the task enqueue and the blocking read at radix_sort8.c:112-155 succeed.
- BufferExamples.BufferTestC: assumes the task, the write and the rectangular read at buffer_test.c:155-176 succeed.
- BufferExamples.MapCopy: assumes the task, the copy, the map and the unmap at map_copy.c:158-187 succeed.
- Transpose.TransposeHost: assumes the `err |=` argument check and the enqueue at transpose.c:153-171 and the read after them succeed.
- Fft.FftHost: assumes every argument binding, enqueue and the final read at fft.c:200-263 succeed.
- Bsort.BsortHost: assumes every argument binding and enqueue at bsort.c:175-288 succeeds.
- File input: parsing the MatrixMarket banner and size line, reading kernel sources and the search text. The parsed entries, the symmetry kind and the file's characters are inputs.
- Kernels: the `.cl` sources are not part of this model. What a kernel leaves in its buffers is an input to the host model.
- Floating point: values are integers in the model. This covers the `(float)value_double` conversion in the MatrixMarket readers, the 0.001 tolerance of the real-DFT check, the 1% tolerance of the reduction check and the float sums of partials. The reference FFT the real-DFT check computes is an input spectrum.
- Randomness: `rand()` results are inputs. These are the shuffle's rolls, without modulo bias, and the steepest-descent `b_vec` entries.
- Output: `printf`, `sleep` and `getchar` are left out. Where the host pauses, its steps are split into a run before and a run after the pause.
- Concurrency: callbacks run on another thread in the programs; here they are entries of a call log appended when their event terminates. The device is a sequence of steps chosen by the caller.
- Program end: the C programs may return from `main` while commands are still queued. The model only speaks about the states a device run reaches, not about process exit.
- Memory flags: `CL_MEM_READ_ONLY`, `CL_MEM_USE_HOST_PTR` aliasing of host arrays, and the flags passed to `clCreateSubBuffer` are not modelled. `CL_MEM_USE_HOST_PTR` in the FFT is treated as a copy that the blocking read brings back.
- The `PROFILE_READ` variant of profile_read.c (a blocking read instead of map/unmap) is left out; the default map variant is modelled.
- Chapters whose host code is graphics interop or another language (OpenGL, Java, Python) are outside this model.
- Events: when a command's wait list contains a failed event, the command fails with that code. Section 5.9 of the OpenCL 1.1 specification leaves this implementation-defined. Only `CL_COMPLETE` callbacks are modelled, which are the only ones the examples register.
- Profiling: device timestamps are inputs that fit in 64 bits. Their order is not assumed, so a reversed pair wraps as `cl_ulong` does. The stamps of a blocking map, or of a launch after `clFinish`, are those of a completed command; the loops take them as inputs rather than running the event model.
- Profiling.ProfileItemsAsWritten: requires the queue-creation code to be non-negative, because a failed creation has already exited at profile_items.c:159-162.
- Profiling.ProfileItemsAsWritten: `time_start` and `time_end` are uninitialised before the first successful launch; the model reads them as the `init` parameter.
- Fft.PlanFor: requires a kernel work-group limit of at least 1 and at least 8 bytes of local memory, because the program divides by points_per_group and takes `log2` of the limit.
- StringSearch.SearchHost: requires a file of at least one character, because an empty file makes `ftell - 1` wrap in `size_t`. It also requires nonzero compute units and work-group size, which the unchecked device queries report.
- StringSearch.SearchHost: models the corrected program, whose global size is compute units × local size. The program as written leaves the high half of `global_size` uninitialised; that behaviour is StringSearch.GlobalSizeAsWritten, listed under Findings.
- StringSearch.GlobalSize: states the corrected product, as if the high half of `global_size` were zero. The as-written value is StringSearch.GlobalSizeAsWritten.
- StringSearch.LaunchAccepted: holds for the corrected global size. For the as-written value, StringSearch.UpperHalfInflatesGlobal shows the checks still pass without wrap-around; a wrapped product is not analysed.
- StringSearch.CharsPerItem: the result is an `int` in the program; the 32-bit truncation of a text larger than 2^31 characters is not modelled.
- SteepDesc.SortedEntries: models the read loop with one slot per entry plus one per mirrored entry. steep_desc.c:92-112 allocates `2*nnz - num_rows` slots and writes mirrors unchecked, the same short count as read_mm.c, which is MatrixMarket.ReadLoop and MatrixMarket.OverrunExample under Findings.
- SteepDesc.SortedEntries: row order is stated only for files whose row indices are all below the triple count. `sort` in steep_desc.c:20-50 buckets only those indices; MatrixMarket.SortByRow states where the other rows end up, and this contract does not repeat it.
- Bsort.ScheduleRangesAccepted: the work-group limit is queried for the init kernel only (bsort.c:165-166). The model assumes the stage, merge and merge_last kernels accept the same local size, which the program never checks.
- Fft.ScheduleWellFormed: the work-group limit is queried for the init kernel only (fft.c:172-173). The model assumes the stage and scale kernels accept the same local size, which the program never checks.
- BufferExamples.AlignedSubBuffers: the sub-buffer flags are not modelled. buffer_check.c:71-72 and sub_buffer.cpp:48-50 pass CL_MEM_COPY_HOST_PTR, a host-pointer flag that section 5.2.1 of the OpenCL 1.1 specification does not allow for a sub-buffer, so the fix also drops that flag.
- SteepDesc.SteepDescHost: requires num_rows >= 1 and a right-hand side of num_rows values, which is how the program fills `b_vec`.
- Reduction.ReductionHost: requires a work-group size of at least 1, which every device reports.
- Reduction.ReductionHost: checks both launches against the device's CL_DEVICE_MAX_WORK_GROUP_SIZE as if it were each kernel's own limit. A kernel whose CL_KERNEL_WORK_GROUP_SIZE is lower would make the enqueue at reduction.c:200-201 fail, which the model does not cover.
- Rect.ReadRect: requires the host array to hold the box. The call cannot check host memory, and a short host array is undefined behaviour in C.
- Buffers.CopyFromHost: requires the host array to hold as many elements as the buffer copies, because C cannot detect the over-read. The two call sites that break this are listed under Findings.
- Bsort.ConfigFor: requires a reported maximum work-group size of at least 1. The bitonic-sort host model assumes every argument binding and enqueue succeeds; the `err |=` fold that checks the bindings is modelled separately as Status.CombineCodes.
- Integer widths: apart from the `cl_int` status codes and `cl_ulong` timestamps, counts are unbounded naturals. The constants the programs use keep them far below 2^31.

## Findings

| source | as written | input that shows it | evidently intended | confidence | as-written member | corrected member |
|---|---|---|---|---|---|---|
| Ch10/reduction/reduction.c:135-159 | `vector_sum` holds num_groups/4 floats, but `vector_sum_buffer` is created with `CL_MEM_COPY_HOST_PTR` from num_groups floats of it | any device work-group size L, e.g. L = 256: num_groups = 4096, the array holds 1024 floats and the copy reads 4096 | size the host array like the buffer, num_groups floats (or create the buffer with num_groups/4) | high, not executed | Reduction.VectorSumOverRead | Reduction.VectorHost |
| Ch13/steep_desc/steep_desc.c:97-204 | `b_vec` holds num_rows floats, but `b_buffer` copies num_values floats from it | any file with more entries than rows, e.g. a 2×2 general file with 3 entries | copy num_rows floats into `b_buffer` | high, not executed | SteepDesc.BVecOverRead | SteepDesc.SteepDescHost |
| Ch13/read_mm/read_mm.c:76-101 | the arrays get `2*nnz - num_rows` slots, but every off-diagonal entry of a mirrored file fills two | a symmetric 2×2 file listing (1,1) and (1,2): 2 slots, and the mirror is written at index 2 | allocate one slot per entry plus one per off-diagonal entry (at most 2*nnz) | high, not executed | MatrixMarket.OverrunExample | MatrixMarket.ReadEntries |
| Ch14/rdft/rdft.c:166-172 | the pair loop runs while i < N/2, so only slots below N/2 (bins 0, N/2 and 1..N/4-1) are compared | a kernel output correct everywhere but slot N/2, the real part of bin N/4, passes | loop while i < N, comparing every packed slot | medium, not executed | Rdft.UncheckedSlot | Rdft.CheckPacked |
| Ch7/profile_items/profile_items.c:168-173 | the enqueue's code is discarded and `err < 0` tests the queue-creation code, so a failed launch is timed with the previous launch's stamps | 2000 rounds where launch 1 fails with CL_INVALID_WORK_GROUP_SIZE and launch 0 ran 10..15: iteration 1 adds 5 | `err = clEnqueueNDRangeKernel(...)`, exiting on a failed launch | high, not executed | Profiling.FailedLaunchStillTimed | Profiling.ProfileItems |
| Ch3/buffer_check/buffer_check.c:69-72 | the sub-buffer origin is 120 bytes (element 30); section 5.2.1 of the OpenCL 1.1 specification refuses an origin that is not a multiple of the device's base-address alignment, which CL_DEVICE_MEM_BASE_ADDR_ALIGN reports in bits | a device reporting 1024 bits (128 bytes): creation fails with CL_MISALIGNED_SUB_BUFFER_OFFSET and the program exits; sub_buffer.cpp's 280-byte origin (element 70) throws the same way; every power-of-two alignment of 16 bytes or more refuses both | move each window down to the nearest aligned element (elements 0 and 64 at 128 bytes), which is accepted at every alignment, and drop CL_MEM_COPY_HOST_PTR from the sub-buffer flags | medium, not executed | BufferExamples.BufferCheck | BufferExamples.AlignedSubBuffers |
| Ch11/string_search/string_search.c:32-62 | `global_size` is an uninitialised 8-byte `size_t`, but the CL_DEVICE_MAX_COMPUTE_UNITS query writes only a 4-byte `cl_uint` into it, so `global_size *= local_size` multiplies whatever the high half held | a stack whose high half is 1, on a device with 4 compute units and local size 256: 2^40 + 1024 work-items instead of 1024, and chars_per_item is 1 | read the compute units into a `cl_uint` (or zero `global_size` first) and multiply that | medium, not executed | StringSearch.UpperHalfInflatesGlobal | StringSearch.SearchHost |
