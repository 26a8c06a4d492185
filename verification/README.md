# Benchmarks and test patterns: a model with proofs

A Dafny 4.11 model of the algorithmic parts of the bundled benchmarks (lmbench, tinymembench) and of the
DRM test patterns, with proofs of what their measurements and pictures rely on.
`dafny verify dfyconfig.toml` checks all of it.

**Pointer rings** (`Rings`, `Words`, `Layout`, `MemRing`, `LibMem`, `MemTheorems`, `Thrash`, `LineRing`,
`Tlb`, `Cache`, `DramPage`, `DramRing`, `DramInit`). Memory latency is measured by chasing pointers
through a block of memory. A measurement is meaningful only if the chain is one single cycle through
exactly the intended words. Memory is a map from addresses to the pointers stored there, every store has
to be aligned and inside the block, and a ring is a sequence of distinct addresses, each pointing to the
next and the last to the first. The loops that build, shorten, interleave and restore rings are methods
over that memory and over the fields of `MemState`.

**The benchmp protocol** (`Benchmp*`, `Results`). A parent and any number of children talk over four pipes
of any capacity. A step is one pipe operation of one process; `select`, the `read` it guards and the
`write` after it are separate steps. Ready, done and result bytes share a pipe and only counting tells them
apart, so safety is a global invariant over the counts (`BenchmpInv.Inv`), proved for all runs. Progress
(`BenchmpProgress`), the order of what each child does (`BenchmpOrder`), the room for the results
(`BenchmpCapacity`) and what they are, namely the times measured in the run (`BenchmpTimes`), are proved on it.
The code a child runs is the class `ChildState`, and each kind of call is shown to be a path of protocol steps.

**The rest**: the directory tree of lat_fs (`LatFs*`), weighted regression over exact reals
(`Regression`), SMPTE and tile patterns and the planar layouts they are drawn into (`Smpte`, `Planar`,
`PlanarFill`), processor placement (`Sched`), and non-aliased buffers and copy kernels (`Alloc`,
`BlockCopy`).

## What the proofs found

Where the code does less than its comments or callers count on, the exact condition is proved:

- `words_initialize` repeats an offset unless the size is a power of two (`Words.OrderDistinctIff`), which
  breaks the chain of `thrash_initialize` over part of a page (`Thrash.PartialRingIff`).
- `mem_initialize` always builds one cycle, but it has the number of slots the code counts with only for
  whole pages or a single page (`MemTheorems.ExactIff`); its start pointers are not always all set
  (`MemTheorems.AllStartsIff`).
- `dram_page_initialize` visits the words `mem_initialize` visits unless the last page is short and grouped
  with others; then it skips lines of all of these (`DramRing.SameSlotsIff`).
- Spreading processes by bit reversal gives each its own processor only for 2^k or 2^k - 1 processors
  (`Sched.SpreadIff`).
- With no repetition asked for and more than 11 children, `benchmp_parent` merges more values than it has
  allocated (`BenchmpCapacity.FitsIff`).
- `save_median` keeps a value between the two in the middle exactly when halving their sums loses little
  enough (`Results.BetweenIff`, `Results.MedianOutside`). With several children all values merged are for one
  number of iterations, and that is enough (`BenchmpRuns.MergedHasMedian`); with one child they need not be
  (`BenchmpChild.OneChildVaries`).
- `setup_names` needs directories of two entries at least (`LatFs.LoopEndsIff`).
- The SMPTE fills divide by zero for widths 4, 5 and 6 (`Smpte.DrawableIff`); the tile fill of a picture of
  odd height with subsampled chroma writes past its buffer (`Planar.FitsIff`).

## Model

| member | source | states |
|---|---|---|
| `Bits.ReverseBits` | benchmark/lmbench3/src/lib_mem.c:517-524 | the loop moves every bit: the result is the number with its lowest nbits bits in reverse order |
| `Bits.RevInvolution` | benchmark/lmbench3/src/lib_sched.c:116-121 | the reversal loop undoes itself, so it takes different numbers to different numbers |
| `Bits.RevBit` | benchmark/lmbench3/src/lib_mem.c:517-524 | bit k of the result is bit nbits - 1 - k of the number |
| `Words.WordsInitialize` | benchmark/lmbench3/src/lib_mem.c:505-526 | the table filled bit by bit is the bit-reversed order of 0 .. max - 1, scaled |
| `Words.OrderIsPermutation` | benchmark/lmbench3/src/lib_mem.c:505-526 | for a power of two the table holds every multiple of scale once, beginning with 0 |
| `Words.OrderDistinctIff` | benchmark/lmbench3/src/lib_mem.c:514-524 | no offset occurs twice if and only if max is a power of two |
| `Words.OrderPrefix` | benchmark/lmbench3/src/lib_mem.c:587-596 | the first entries of the table for small lines are, in order, the table for larger ones |
| `Permutation.Permute` | benchmark/lmbench3/src/lib_timing.c:1639-1660 | what the loop leaves is the shuffle of the multiples of scale by the draws made; the last entry is the first one drawn |
| `Permutation.OrdersAreDraws` | benchmark/lmbench3/src/lib_timing.c:1653-1660 | draws and orders correspond one to one: every order of the multiples comes from some draws, and from one sequence of draws only |
| `Permutation.PermutedMultiples` | benchmark/lmbench3/src/lib_timing.c:1639-1660 | so each multiple is there once, and pages at these offsets do not overlap |
| `Rings.RingPeriod` | benchmark/lmbench3/src/cache.c:67-85 | on a ring, the chase is back where it began after exactly as many steps as there are slots, and not before |
| `Rings.WalkCovers` | benchmark/lmbench3/src/cache.c:67-85 | a chase of that many steps visits every slot |
| `Rings.Chase` | benchmark/lmbench3/src/cache.c:67-85 | following pointers in a loop is the walk along the ring |
| `Layout.Shape.RingFromLinks` | benchmark/lmbench3/src/lib_mem.c:311-336 | if every line points to the next, every page to the next and the end to the beginning one word on, the chain is one single cycle |
| `Layout.Shape.RingMember` | benchmark/lmbench3/src/lib_mem.c:311-336 | it visits exactly the words of the lines that are in use |
| `Layout.Shape.RingLength` | benchmark/lmbench3/src/lib_mem.c:311-336 | and has (number of words in a line) * (number of lines in use) slots |
| `Layout.Shape.RingAt` | benchmark/lmbench3/src/lib_mem.c:311-336 | in a lap the slots come page by page and line by line, and lap k uses word k of every line |
| `LibMem.Sizes` | benchmark/lmbench3/src/lib_mem.c:142-146 | the counts of words, lines and pages split lines, pages and the length |
| `LibMem.PageAlign` | benchmark/lmbench3/src/lib_mem.c:165-168 | the base is the first page boundary in the block |
| `LibMem.MemState.BaseInitialize` | benchmark/lmbench3/src/lib_mem.c:128-171 | sizes are set, the pages are the order of the multiples of pagesize that was drawn, in the block of maxlen + 2 * pagesize bytes; a failed malloc is reported |
| `LibMem.MemState.MakeOrders` | benchmark/lmbench3/src/lib_mem.c:301-302 | the tables of words and lines cover lines and pages |
| `LibMem.MemState.MemInitialize` | benchmark/lmbench3/src/lib_mem.c:280-343 | builds the links of the ring and the start pointers, inside the block |
| `MemRing.LinkPage` | benchmark/lmbench3/src/lib_mem.c:314-324 | links the lines of a page, and sets a start pointer at every (npointers / width)-th link |
| `MemRing.LinkToPage` | benchmark/lmbench3/src/lib_mem.c:326-330 | links the last line of a page to the next page, and stores nothing else |
| `MemRing.CloseRing` | benchmark/lmbench3/src/lib_mem.c:332-336 | closes the ring one word on, and stores nothing else |
| `MemRing.Link` | benchmark/lmbench3/src/lib_mem.c:311-336 | the three loops together put all links in place |
| `MemTheorems.ThreadedIsRing` | benchmark/lmbench3/src/lib_mem.c:280-343 | the chain is one single cycle of slots in the block, from pages[0] + lines[0] + words[0], and every start pointer is on it |
| `MemTheorems.ExactIff` | benchmark/lmbench3/src/lib_mem.c:297-336 | a lap has the len / line slots that the code counts with if and only if len is whole pages, or one page at most |
| `MemTheorems.LinksCount` | benchmark/lmbench3/src/lib_mem.c:311-324 | the links inside pages are as many as there are pointers, less one, or as fit into the pages |
| `MemTheorems.WholePagesAreCovered` | benchmark/lmbench3/src/lib_mem.c:280-343 | with whole pages the ring visits every word of the pages, and no other |
| `MemTheorems.AllStartsIff` | benchmark/lmbench3/src/lib_mem.c:319-323 | all start pointers a width needs are set if and only if the last falls on a link |
| `MemTheorems.StartIs` | benchmark/lmbench3/src/lib_mem.c:319-323 | start pointer k is at word k % nwords of the line where link k * (npointers / width) begins |
| `MemTheorems.EightStartsNeedMore` | benchmark/lmbench3/src/lib_mem.c:319-323 | one page of eight lines and width 8: only seven of eight start pointers are set |
| `Thrash.Link` | benchmark/lmbench3/src/lib_mem.c:240-259 | the nested loops make a ring of that size; each page leads to the next line of the next page, and the last one to the line of page 0 where the next diagonal begins |
| `Thrash.DiagonalRing` | benchmark/lmbench3/src/lib_mem.c:240-259 | the diagonal links form one single cycle of (number of pages) * (lines in a page) slots |
| `Thrash.RingMember` | benchmark/lmbench3/src/lib_mem.c:240-259 | each first word of a line of a page is visited, and nothing else |
| `Thrash.EveryStepChangesPage` | benchmark/lmbench3/src/lib_mem.c:240-259 | with two pages or more every step, and the one that closes the ring, goes to another page |
| `Thrash.ThrashInitialize` | benchmark/lmbench3/src/lib_mem.c:202-262 | every call, the ones with iterations too: whole pages give that ring, with p[0] on it; a broken page a ring exactly for powers of two |
| `Thrash.PartialRingIff` | benchmark/lmbench3/src/lib_mem.c:231-238 | what the loop stores makes a ring of all its words through the start if and only if their number is a power of two |
| `Thrash.ThreeWordsStick` | benchmark/lmbench3/src/lib_mem.c:231-238 | three words: the loop leaves the first one pointing to itself |
| `LineRing.LineInitialize` | benchmark/lmbench3/src/lib_mem.c:352-395 | builds one ring through the first word of every line, inside the block |
| `LineRing.ShortenedRing` | benchmark/lmbench3/src/lib_mem.c:587-596 | after the rewiring the chain is one single cycle through the first words of the first n lines of each page |
| `LineRing.ShortenedIsCoarse` | benchmark/lmbench3/src/lib_mem.c:587-596 | and these are the lines of the trial size, in the order line_initialize would use |
| `LineRing.LineTest` | benchmark/lmbench3/src/lib_mem.c:574-639 | the timed walk is on the shortened ring, and on return memory is exactly as before |
| `Tlb.Shuffle` | benchmark/lmbench3/src/lib_mem.c:471-479 | for any random values page 0 stays, the pages are permuted, and with three or more no other page stays in place; the order is that of the draws |
| `Tlb.OrdersDiffer` | benchmark/lmbench3/src/lib_mem.c:471-479 | different draws give different orders of the pages |
| `Tlb.Link` | benchmark/lmbench3/src/lib_mem.c:481-487 | the chain is one single cycle with one word on each page, and page i uses line i % nlines |
| `Tlb.NeighboursDiffer` | benchmark/lmbench3/src/lib_mem.c:481-487 | so neighbouring pages use different lines |
| `Tlb.TlbInitialize` | benchmark/lmbench3/src/lib_mem.c:440-494 | both together, for the pages that valloc returned: one cycle with one word on each, and the start is on it |
| `Cache.Rewire` | benchmark/lmbench3/src/cache.c:409-419 | rewires the pages in the order of the list; the links are those of the ring for the size |
| `Cache.Restore` | benchmark/lmbench3/src/cache.c:448-453 | puts the cut line back: memory is exactly as before the cut |
| `Cache.Measure` | benchmark/lmbench3/src/cache.c:385-459 | for any page order and size: one single cycle through every word of the size / line whole lines within the size, and no other, warmed up completely; on return all links inside pages are as before |
| `Cache.SwapChunk` | benchmark/lmbench3/src/cache.c:469-475 | the loop swaps the chunk, back to front, with the end of the list |
| `Cache.SwapTwice` | benchmark/lmbench3/src/cache.c:469-482 | swapping twice restores the list, even where the two ranges overlap |
| `Cache.ChunkIsLast` | benchmark/lmbench3/src/cache.c:462-486 | after the swap the first pages are exactly those that are not in the chunk |
| `Cache.RemoveChunk` | benchmark/lmbench3/src/cache.c:462-486 | what is measured is one ring of the remaining size that stays on the remaining pages and visits each; the page list is as it was |
| `DramPage.PointAtNext` | benchmark/lmbench3/src/lat_dram_page.c:120-128 | every word of a page points to the same word of the next page of the group |
| `DramPage.PointAtFirst` | benchmark/lmbench3/src/lat_dram_page.c:130-148 | pointers of the last page into itself go to the first page, all others stay |
| `DramPage.Regroup` | benchmark/lmbench3/src/lat_dram_page.c:106-149 | one group is interleaved, and no other page has changed |
| `DramPage.RegroupAll` | benchmark/lmbench3/src/lat_dram_page.c:165-171 | after the loop every group is interleaved, the last one too when it is smaller |
| `DramRing.GroupPath` | benchmark/lmbench3/src/lat_dram_page.c:120-149 | in a group the chain visits all pages at one offset before it goes to the next line |
| `DramRing.GroupedRing` | benchmark/lmbench3/src/lat_dram_page.c:154-174 | after all groups the chain is still one single cycle |
| `DramRing.GroupedMember` | benchmark/lmbench3/src/lat_dram_page.c:154-174 | through every word of the lines of each page, but in the last group only of as many lines as the last page has |
| `DramRing.SameSlotsIff` | benchmark/lmbench3/src/lat_dram_page.c:130-171 | these are the slots of the ring it started from if and only if the last page has all its lines or is alone in its group |
| `DramInit.DramPageInitialize` | benchmark/lmbench3/src/lat_dram_page.c:154-174 | the whole operation, for any length: in a group every word leads to the same word of the next page and the last page back to the next line of the first; one single cycle, for whole pages through every word |
| `Sched.ReverseCpu` | benchmark/lmbench3/src/lib_sched.c:106-122 | counts the bits of the largest processor id and reverses them |
| `Sched.Place` | benchmark/lmbench3/src/lib_sched.c:54-97 | the processor each policy computes, which exists |
| `Sched.SpreadIff` | benchmark/lmbench3/src/lib_sched.c:100-122 | spreading gives all ids that fit different processors if and only if there are 2^k or 2^k - 1 of them |
| `Sched.UniquePlacement` | benchmark/lmbench3/src/lib_sched.c:72-86 | there, different processes that fit get different processors; without spreading everywhere |
| `Sched.BalancedPlacement` | benchmark/lmbench3/src/lib_sched.c:54-71 | SINGLE uses processor 0; BALANCED gives different children that fit different processors, BALANCED_SPREAD does where spreading works, and the processes of a child share one |
| `Results.ResultList.InsertSort` | benchmark/lmbench3/src/lib_timing.c:1227-1248 | shifts values up and stores x in front of the first smaller one; a zero time is dropped |
| `Results.InsertedSorted` | benchmark/lmbench3/src/lib_timing.c:1226-1248 | inserting keeps the list sorted, biggest to smallest |
| `Results.InsertedMultiset` | benchmark/lmbench3/src/lib_timing.c:1226-1248 | and adds exactly the value |
| `Results.MergedFacts` | benchmark/lmbench3/src/lib_timing.c:480-483 | merging a list adds exactly its values, and the result is sorted |
| `Results.MergeInto` | benchmark/lmbench3/src/lib_timing.c:480-483 | the loop of the parent merges the list |
| `Results.SaveMinimum` | benchmark/lmbench3/src/lib_timing.c:1266-1276 | the value kept is one of the list and none is smaller |
| `Results.SaveMedian` | benchmark/lmbench3/src/lib_timing.c:1278-1298 | half of the list is above the value kept and half below, if and only if the two in the middle can be averaged |
| `Results.BetweenIff` | benchmark/lmbench3/src/lib_timing.c:1290-1293 | an integer condition by the parity of the two sums: it holds exactly when the average is between the two |
| `Results.SameHasMedian` | benchmark/lmbench3/src/lib_timing.c:1278-1298 | it holds when all values are for one number of iterations |
| `Results.MedianOutside` | benchmark/lmbench3/src/lib_timing.c:1290-1293 | 3 in one iteration and 5 in two: what is kept is above both |
| `BenchmpChild.ChildState.Interval` | benchmark/lmbench3/src/lib_timing.c:659-772 | one call of benchmp_interval: the next stage of the child, the bytes it sends and the length of the next interval |
| `BenchmpChild.ChildState.EndInterval` | benchmark/lmbench3/src/lib_timing.c:712-742 | the end of a timed interval: the time measured, if it counts and is a microsecond or more, is added to the list, and nothing else; adaptation and giving up for a single child |
| `BenchmpChild.NextIsEnough` | benchmark/lmbench3/src/lib_timing.c:721-725 | above 150 microseconds the next interval is expected to take 1.1 * enough, and at most one iteration more |
| `BenchmpChild.Converges` | benchmark/lmbench3/src/lib_timing.c:714-725 | so at a constant rate the next interval counts and its length is left alone |
| `BenchmpChild.ShortGetsLonger` | benchmark/lmbench3/src/lib_timing.c:721-728 | a short interval makes the next one longer, one that is too long does not |
| `BenchmpChild.GivesUpInTime` | benchmark/lmbench3/src/lib_timing.c:726-732 | a child gives up in the tenth interval in a row that takes no time to speak of, if not before |
| `BenchmpChild.FirstCall` | benchmark/lmbench3/src/lib_timing.c:659-694 | the first call of a child is a path of the protocol: look, take an early start byte if there is one, send the ready byte |
| `BenchmpChild.WarmupCall` | benchmark/lmbench3/src/lib_timing.c:695-711 | a call in warm-up is a path too: it takes the start byte it sees, or nothing happens |
| `BenchmpChild.TimedCall` | benchmark/lmbench3/src/lib_timing.c:712-742 | with several children a call at the end of an interval is one enabled step, whatever time was measured |
| `BenchmpChild.ReportCall` | benchmark/lmbench3/src/lib_timing.c:743-765 | with any interleaving and any capacity the steps of a reporting child, and the bytes it sends, are the rest of what its call does |
| `BenchmpChild.WholeReport` | benchmark/lmbench3/src/lib_timing.c:743-765 | from its result byte to its end a child sends its whole message, in order, and nothing else |
| `BenchmpChild.OneChildVaries` | benchmark/lmbench3/src/lib_timing.c:714-732 | a single child can record an interval and still change the number of iterations |
| `BenchmpInv.InitHolds` | benchmark/lmbench3/src/lib_timing.c:361-364 | the invariant of the protocol holds at the start |
| `BenchmpSteps.StepKeeps` | benchmark/lmbench3/src/lib_timing.c:361-490 | every step of any process keeps it, for any number of children and any capacity of the pipes |
| `BenchmpSteps.ReachableHolds` | benchmark/lmbench3/src/lib_timing.c:361-490 | so it holds in every state of every run |
| `BenchmpRuns.Barrier` | benchmark/lmbench3/src/lib_timing.c:361-404 | no child times before all have sent ready and the parent has taken all their bytes |
| `BenchmpRuns.KeepRunning` | benchmark/lmbench3/src/lib_timing.c:743-752 | while any child has yet to finish timing, no other has seen a request for its results |
| `BenchmpRuns.OneWriter` | benchmark/lmbench3/src/lib_timing.c:453-455 | one child writes results at a time, and what the parent has or will get is the beginning of its message |
| `BenchmpRuns.NoMixing` | benchmark/lmbench3/src/lib_timing.c:361-484 | the response pipe holds ready bytes, or done bytes, or one child's results, and only while the parent expects them |
| `BenchmpRuns.WholeLists` | benchmark/lmbench3/src/lib_timing.c:445-484 | a full buffer is the whole list of one child not merged before; exactly that list is merged |
| `BenchmpRuns.MergedAll` | benchmark/lmbench3/src/lib_timing.c:439-493 | in the end the merged list is sorted and the union of the lists of all children |
| `BenchmpTimes.ChildHasItsTimes` | benchmark/lmbench3/src/lib_timing.c:714-720 | in every run the list of a child holds exactly the times it has measured |
| `BenchmpTimes.MergedIsMeasured` | benchmark/lmbench3/src/lib_timing.c:439-493 | and the merged list of a run exactly the times measured in it by all children, sorted |
| `BenchmpTimes.AsManyAsAsked` | benchmark/lmbench3/src/lib_timing.c:714-720 | with several children each has completed as many intervals as repetitions were asked for, or one if none was |
| `BenchmpRuns.MergedHasMedian` | benchmark/lmbench3/src/lib_timing.c:1278-1298 | with several children all values merged are for one number of iterations, so the median kept is one |
| `BenchmpRuns.NothingLeft` | benchmark/lmbench3/src/lib_timing.c:486-493 | when all is over the pipes are empty, and each child has done exactly the intervals it was asked for |
| `BenchmpProgress.NeverStuck` | benchmark/lmbench3/src/lib_timing.c:361-490 | in every reachable state some process can take a step, unless all is over |
| `BenchmpProgress.StepWorks` | benchmark/lmbench3/src/lib_timing.c:659-772 | with several children every step brings the end nearer by one, or by the bytes read |
| `BenchmpProgress.RunsEnd` | benchmark/lmbench3/src/lib_timing.c:659-772 | so a run has at most parallel * (intervals + 2 * message size + 12) steps |
| `BenchmpProgress.Completes` | benchmark/lmbench3/src/lib_timing.c:361-493 | from every state that keeps the invariant a run can be brought to its end, whatever times are measured |
| `BenchmpOrder.RunFollows` | benchmark/lmbench3/src/lib_timing.c:659-772 | in every run what a child has done is the beginning of its plan: ready, start, its intervals, result, its message, exit |
| `BenchmpOrder.EachChildOnce` | benchmark/lmbench3/src/lib_timing.c:659-772 | in a completed run each child has done exactly that, in this order, and has sent one done byte |
| `BenchmpCapacity.ChildFits` | benchmark/lmbench3/src/lib_timing.c:1210-1216 | the list of a child always fits into its allocation |
| `BenchmpCapacity.MergeHasRoom` | benchmark/lmbench3/src/lib_timing.c:476-484 | whenever the parent merges a list there is room for it |
| `BenchmpCapacity.FitsIff` | benchmark/lmbench3/src/lib_timing.c:357-358 | the merged list fits in all runs if and only if at least one repetition is asked for or there are 11 children at most |
| `BenchmpCapacity.FullRun` | benchmark/lmbench3/src/lib_timing.c:357-358 | there is a run that merges as many values as there are timed intervals |
| `LatFs.CountDirs` | benchmark/lmbench3/src/lat_fs.c:163-172 | the loop ends with one directory on the last level, and total is the sum over the levels |
| `LatFs.LoopEndsIff` | benchmark/lmbench3/src/lat_fs.c:168-172 | the loop makes progress for every count if and only if max is at least 2 |
| `LatFsTree.FilesLength` | benchmark/lmbench3/src/lat_fs.c:126-150 | a directory takes as many files as are left and as a full tree can hold |
| `LatFsTree.DirsLength` | benchmark/lmbench3/src/lat_fs.c:126-150 | and makes exactly as many directories as the summed rounded-up divisions predict |
| `LatFsOrder.DirsParentsFirst` | benchmark/lmbench3/src/lat_fs.c:139-143 | no directory is made twice, or before one that contains it |
| `LatFsOrder.FilesUnder` | benchmark/lmbench3/src/lat_fs.c:144-149 | every file is at the lowest level, in a directory of the tree, with a number below max |
| `LatFsOrder.FilesDistinct` | benchmark/lmbench3/src/lat_fs.c:144-149 | no file is named twice |
| `LatFsOrder.FileIsNumber` | benchmark/lmbench3/src/lat_fs.c:144-149 | the entries on the way to file k are the digits of k in base max |
| `LatFsOrder.DirsHoldFiles` | benchmark/lmbench3/src/lat_fs.c:126-150 | no directory is made for nothing: each holds a file, or a directory that does |
| `LatFs.AtMostMax` | benchmark/lmbench3/src/lat_fs.c:126-150 | no directory gets more than max entries |
| `LatFs.GuardHolds` | benchmark/lmbench3/src/lat_fs.c:134-139 | the bound on ndirs in the recursion never ends a loop early |
| `LatFs.State.SetupNamesRecurse` | benchmark/lmbench3/src/lat_fs.c:126-150 | fills the next free slots with exactly the tree below a directory, and changes no others |
| `LatFs.State.SetupNames` | benchmark/lmbench3/src/lat_fs.c:152-201 | foff == iterations and doff == ndirs - 1: every slot is filled, and it finds nothing to complain about |
| `LatFs.State.CleanupNames` | benchmark/lmbench3/src/lat_fs.c:203-225 | removing in reverse order never meets a directory that is not empty: nothing is left |
| `LatFs.State.BenchmarkMk` | benchmark/lmbench3/src/lat_fs.c:245-257 | creates exactly the files named |
| `LatFs.State.BenchmarkRm` | benchmark/lmbench3/src/lat_fs.c:259-271 | removes exactly these |
| `LatFs.State.SetupRm` | benchmark/lmbench3/src/lat_fs.c:227-234 | leaves directories and files of the tree |
| `LatFs.State.CleanupMk` | benchmark/lmbench3/src/lat_fs.c:236-243 | undoes setup and creation: the file system is as before |
| `Regression.Fit` | benchmark/lmbench3/src/lib_stats.c:550-597 | the line returned satisfies both normal equations, and chi2 is its merit |
| `Regression.BestFit` | benchmark/lmbench3/src/lib_stats.c:540-597 | such a line fits better than every other one |
| `Regression.SttZeroIff` | benchmark/lmbench3/src/lib_stats.c:567-587 | the division by Stt is possible if and only if not all x are equal |
| `Smpte.DrawableIff` | drm/util/pattern.c:628-638 | the fills divide by zero for widths 4, 5 and 6 and for no others |
| `Smpte.BarsValid` | drm/util/pattern.c:608-638 | all palette indices are in range |
| `Smpte.BarsAreEqual` | drm/util/pattern.c:608-627 | the top takes two thirds of the rows, the middle a ninth, and bar i the columns from i to i + 1 sevenths of the width |
| `Smpte.BottomBars` | drm/util/pattern.c:628-638 | at the bottom four bars share five sevenths of the width, the next ones a seventh, and the last takes the rest |
| `Smpte.FillC8` | drm/util/pattern.c:608-638 | every pixel gets the index of its bar once, and no other byte changes |
| `Smpte.FillRgb32` | drm/util/pattern.c:486-545 | every pixel gets the colour of its bar, and nothing else changes |
| `Smpte.Gamma` | drm/util/pattern.c:640-679 | fills the 22 entries and clears the rest, or leaves a table that is too small alone |
| `Smpte.SamePicture` | drm/util/pattern.c:608-679 | looked up in the palette, the indexed picture is the coloured one, pixel by pixel |
| `Planar.BoCreate` | drm/modetest/buffers.c:209-284 | virtual height, offsets and pitches of the planes for the six planar formats |
| `Planar.FirstSamples` | drm/util/pattern.c:697-711 | where the first U and the first V of each format are |
| `Planar.NextSamples` | drm/util/pattern.c:198-230 | and how far apart neighbouring samples are |
| `Planar.InBuffer` | drm/modetest/buffers.c:209-284 | all samples are in the buffer of pitch * virtual_height bytes |
| `Planar.Apart` | drm/modetest/buffers.c:251-284 | no two samples of Y, U and V share a byte |
| `Planar.FitsIff` | drm/modetest/buffers.c:209-222 | a picture fits if and only if its height is even or chroma is not subsampled vertically |
| `PlanarFill.YuvInRange` | drm/util/pattern.c:53-65 | converted colours are in the ranges of BT.601, so a byte holds them |
| `PlanarFill.Components` | drm/util/pattern.c:51-56 | luma grows with all components; U grows with blue and falls with the others, V grows with red and falls with the others |
| `PlanarFill.Grey` | drm/util/pattern.c:51-56 | grey has U and V 128, and gets brighter |
| `PlanarFill.PureColours` | drm/util/pattern.c:51-56 | black and white are at the ends of luma, pure blue and yellow at those of U, pure red and cyan at those of V |
| `PlanarFill.FillSmpte` | drm/util/pattern.c:159-261 | every sample of every plane gets the colour of its bar, and no other byte changes |
| `PlanarFill.TopOfPicture` | drm/util/pattern.c:198-230 | where the bars at the top are, in the luma plane and in the chroma planes |
| `PlanarFill.TopBars` | drm/util/pattern.c:164-172 | what their values are |
| `PlanarFill.FillTiles` | drm/util/pattern.c:842-873 | every sample is written, chroma ends with the colour of the last pixel that shares it, and no other byte changes |
| `PlanarFill.TileColour` | drm/util/pattern.c:856-861 | the colour of tile t of a band, and how red, green and blue grow from tile to tile |
| `PlanarFill.FirstTiles` | drm/util/pattern.c:856-861 | the corner is black, and the first tile ends where x + y reaches 64 |
| `PlanarFill.LastSetsIt` | drm/util/pattern.c:863-865 | a chroma sample has the colour of the pixel that sets it after all others that do |
| `Alloc.AlignUp` | benchmark/tinymembench/util.c:314-317 | the first multiple from the pointer on |
| `Alloc.FourNonaliased` | benchmark/tinymembench/util.c:319-364 | the buffers asked for are in the block, do not overlap, and no two addresses are equal modulo ALIGN_PADDING |
| `BlockCopy.Copy` | benchmark/tinymembench/util.c:31-56 | the whole blocks are copied, and nothing else changes |
| `BlockCopy.CopyBackwards` | benchmark/tinymembench/util.c:58-85 | so are they from the end |
| `BlockCopy.CopyBackwardsBs32` | benchmark/tinymembench/util.c:91-120 | and with 32-byte blocks forwards |
| `BlockCopy.CopyBackwardsBs64` | benchmark/tinymembench/util.c:126-155 | and with 64-byte blocks forwards |
| `BlockCopy.WholeIff` | benchmark/tinymembench/util.c:58-85 | the directions copy the same words if and only if the size is a multiple of 64 |
| `BlockCopy.Fill` | benchmark/tinymembench/util.c:214-231 | the whole blocks hold the value, and nothing else changes |
| `BlockCopy.FillShuffle16` | benchmark/tinymembench/util.c:239-257 | the same in shuffled order |
| `BlockCopy.FillShuffle32` | benchmark/tinymembench/util.c:259-277 | the same in another order |
| `BlockCopy.FillShuffle64` | benchmark/tinymembench/util.c:279-297 | the same in a third |

## Left out

- Integer widths: numbers are unbounded. Overflow of `int`, `long` and `size_t`, and the `int n` that holds a page offset while `remove_chunk` swaps, are not modelled.
- Time: clocks, overheads, calibration and the statistics over timed walks. The time of an interval is an arbitrary parameter.
- Random numbers are an arbitrary function, and nothing is assumed about them: how random they are is not modelled.
- `benchmp_parent` is a state machine over its pipe operations and has no class of its own: between them it only counts bytes.
- Signals, alarms, dying processes and failing system calls in benchmp, and what an unsuccessful `malloc` leads to beyond an uninitialised state.
- benchmp with one child: safety and the absence of deadlock are proved, but its number of intervals depends on the clock, so that runs end is proved for several children only.
- Polling: a call of `benchmp_interval` that finds no byte runs the benchmark once more and changes nothing, so it is not a step.
- The bytes of a result message are not decoded: a full buffer that is the message of a child stands for its list, and that it always is one is proved.
- Results.MergeInto: asks for the room, which the source does not check. BenchmpCapacity.MergeHasRoom shows that every merge of every run has it under the condition of BenchmpCapacity.FitsIff; without the condition the source writes past the list.
- LibMem.MemState.MemInitialize: the walk at line 340 that warms the cache stores nothing and is not modelled; it reads start pointers that need not be set. npointers / width has to be positive when there are links, because the source divides by it.
- Thrash.ThrashInitialize: at least one line has to fit; for less the source indexes an empty table.
- LineRing.LineInitialize: the walk over the chain at the end warms the cache, stores nothing and is not modelled.
- DramInit.DramPageInitialize: after a failed malloc the model returns, while the source goes on to regroup pages at an address that was never set. Words of a short page that were never written are read by the source; the model gives them no value, and they are never on the chain.
- Cache.Measure: sizes whose last page is not empty but holds less than a line are excluded, because the source then uses lines[-1].
- `benchmark_loads` of lat_dram_page walks len / line steps only; how much of the ring that visits is not stated.
- `fixup_chunk`, `test_chunk`, `pagesort`, `collect_data`, `line_find` and `check_memory` decide by measured latencies or only sort by them.
- `stride_initialize` is a single loop over equal steps and would add only easy members.
- Tlb.TlbInitialize: the pages valloc returns are a parameter, aligned and apart, and the colouring of pages before line 440 and the walk at the end that warms the TLB are not modelled.
- Sched.Place: custom processor lists and the system calls that pin a process.
- LatFs.State.SetupNames: names are lists of entry numbers instead of strings, and the name of the temporary directory and its length limit are not modelled.
- Regression.Fit: doubles are exact reals; the standard errors sig_a and sig_b need square roots.
- Smpte.FillRgb32: a pixel is a colour with its components; packing them into 32 bits, and strides that are not a number of pixels, are not modelled. The other RGB depths, and the YUV fills that interleave all components, are like it.
- Planar.BoCreate: the buffer object, its mapping and the single-plane formats.
- Alloc.FourNonaliased: filling the block with 0xCC.
- The prefetching copy kernels store what `aligned_block_copy` stores, in the same order.
