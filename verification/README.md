# Verified models of the benchmark collection

The repository bundles several benchmark programs. This project models the parts of them that have to be right for
their figures to mean anything, and proves what those parts promise: for every input, every interleaving and every
fragmentation, not for examples.

| Program | Files | What is modelled |
|---|---|---|
| netperf | `RequestResponse.dfy`, `StreamTest.dfy` | client and server of the request/response and stream tests, as two processes over byte channels |
| netperf | `ControlMessage.dfy` | the control messages: byte order, doubles, reassembly from a byte stream |
| netperf | `BufferRing.dfy` | the ring of aligned send buffers and its width |
| netperf | `Confidence.dfy` | the running statistics and the loop that repeats a test |
| memtester | `Words.dfy`, `MemoryFaults.dfy`, `PatternTests.dfy`, `StuckAddress.dfy`, `Memtester.dfy` | the tests against a model of faulty memory, and the run of all of them |
| bonnie++ | `Tickets.dfy`, `Timers.dfy` | the seek test's ticket pipe and the merging of the children's reports |
| bonnie++ | `Semaphores.dfy`, `Barrier.dfy` | the semaphore barrier that synchronises several copies |
| bonnie++ | `Geometry.dfy`, `FileOp.dfy`, `DevicePasses.dfy` | many files as one linear device of chunks, and the passes over it |
| bonnie++ | `Names.dfy`, `Shuffling.dfy`, `FileSystem.dfy`, `TestWorld.dfy`, `OpenTest.dfy` | generated file names, and creating, looking at and deleting the files |
| Dhrystone | `Dhrystone.dfy` | the whole program, with its aliased records |

`Arithmetic.dfy` and `Pigeonhole.dfy` hold the facts about division and counting that several models share,
`TestNumber.dfy` the numbering of bonnie++'s tests.
`dafny verify dfyconfig.toml` checks everything.

## How the models are made

- The concurrent programs are step relations. A module has `Step`, `Enabled` and `Apply`; `Executable` and `After`
  speak of whole runs; an invariant `Inv` is kept by every step. Termination is a rank that every step lowers. A step is
  one kernel operation of one process, so a run is an interleaving, and the amount that a `recv` returns is part of the
  step. The alarm of a netperf test goes off at most once, between two calls or in one.
- The sequential programs are classes and methods with the loops of the source. A method is proved against a function of
  its inputs or of the state before, and lemmas say what the function means.
- A machine word of memtester is the set of the positions of its 1 bits, so the results hold for any width. A read
  returns `(stored | high) & ~low`, or the wired-and or wired-or of two bits; the addresses of the Stuck Address test go
  through an arbitrary map.
- Whatever comes from outside is a parameter: random numbers, the addresses that malloc returns, the measurements of a
  run, the order in which a directory is listed, the time at which a timer fires. A shift of memtester's Bit Spread test
  by the word width or more, which C leaves undefined, gives whatever the parameter `over` says.
- The pipes of bonnie++'s seek test have any positive capacities, and writers wait for room.
- netperf's statistics are over real numbers. `sqrt` is a parameter with the property of a root, and a division by zero
  yields an unspecified number.
- In `OpenTest.dfy` files are pointers into the buffer of names, as in the source; a name is what the C string at the
  pointer reads.

## What came out

Most promises hold. Those below do not hold of all inputs; each entry names the exact condition, and the lemma with a
concrete input that shows the failure.

- The request/response client and server stay in lockstep exactly if neither the request nor the response is empty, or
  the test has one transaction and only the request is empty, or it has none (`LockstepExactly`; `ClientRunsAhead`,
  `ServerRunsAhead`). A counted test ends in agreement with empty messages too.
- The synchronised copies of bonnie++ get through without a refused decrement exactly if they run one round: `-x 2`
  uses up the semaphores (`SynchronisedRounds`; `SecondUseFails`).
- A report with no measurable CPU time that arrives while the sum is still zero is overwritten. The merged elapsed time
  is right exactly if such reports lie inside the span of the others (`ElapsedExactly`; `ZeroCpuReportIsLost`).
- The names of the small files are certain to differ exactly if there are at most 10^7 files, or fewer than 10^7 for each
  directory, rounded down (`DistinctExactly`; `NumeralsCollide`). They are certain to fit their buffer exactly up to 10^7
  files (`FitsExactly`; `LongNamesLayout`). `TestDirOps` admits up to 34952 times 1024, so with four directories the
  names always differ, but need not fit.
- Symbolic links are made with the name of the first file as it is seen from the test directory, so from a numbered
  directory they lead nowhere. `TestDirOps` fails with them exactly if there are several directories (`TestDirOps`;
  `LinksInTwoDirectories`).
- The alignment mask aligns every address exactly if the alignment is a power of two (`AlignsExactly`;
  `SixDoesNotAlign`). The ring covers the socket buffer, and a buffer is not used again too early, exactly if the socket
  buffer is smaller than one send or a multiple of it (`CoversExactly`, `SafeReuse`; `FiveNotCoveredByThrees`).
- A test that does not become confident is run one time fewer than the maximum, unless the minimum is as large
  (`RunCount`; `StopsAtNine`). `netperf/doc/netperf.texi` (lines 948-956) promises the maximum, and a minimum of at least
  3 that `netperf/netsh.c` does not enforce. The model follows the code.
- A request that is cut short by the end of the connection is taken for an orderly shutdown; the case of a partial
  request in `recv_request` does not occur (`RecvRequest`; `CutShort`).
- `CFileOp::seek` accepts one file's worth of positions behind the end of the device (`Seek`, `PositionCases`;
  `WindowBehindFour`).
- Dhrystone's run counter in `Arr_2_Glob[8][7]` has the printed value exactly up to 2^31 - 11 runs (`CountExactly`;
  `CountWraps`). With 2^31 - 1 runs the loop would not end, so that number is excluded.

## Model

| member | source | states |
|---|---|---|
| RequestResponse.LockstepExactly | netperf/nettest_bsd.c:3865-3957 | for timed and counted tests, in every interleaving and fragmentation, the server has as many transactions as the client or one more; and this is so only for the configurations without empty messages, those of one transaction with an empty request, and those of none |
| RequestResponse.ClientRunsAhead | netperf/nettest_bsd.c:3911-3957 | with empty responses there is a run in which the client has counted a transaction that the server has not seen |
| RequestResponse.ServerRunsAhead | netperf/nettest_bsd.c:6223-6293 | with empty requests there is a run in which the server has answered twice before the client starts |
| RequestResponse.CountedNeverStuck | netperf/nettest_bsd.c:3805-3815 | at every reachable state of a counted test, whatever the message sizes, some process can move, unless both have left their loops |
| RequestResponse.CountedAgreement | netperf/nettest_bsd.c:6319-6323 | whatever the message sizes, when both are done they have exactly N transactions each, equal byte totals, and nothing is in flight |
| RequestResponse.CountedEnds | netperf/nettest_bsd.c:6223-6293 | no run of a counted test is longer than an explicit bound, whatever the message sizes, so every one ends |
| RequestResponse.StepKeepsInv | netperf/nettest_bsd.c:3865-3957 | every step of either process keeps the account of requests and responses owed, sent, in flight and counted |
| RequestResponse.StepKeepsAccount | netperf/nettest_bsd.c:3865-3957 | with empty messages too, every step keeps the bytes sent, in flight and received of both directions in balance |
| RequestResponse.TimedGoesOn | netperf/nettest_bsd.c:3865-3865 | as long as its alarm has not gone off, a process of a timed test stays in its loop |
| RequestResponse.TimedStops | netperf/nettest_bsd.c:3865-3916 | after its alarm a process sends at most once more, and not at all if the alarm has interrupted a call |
| RequestResponse.TimedEnds | netperf/nettest_bsd.c:6233-6293 | once both alarms have gone off, no more steps follow than both messages have bytes and five |
| RequestResponse.AlarmFrees | netperf/nettest_bsd.c:3883-3900 | a process that waits is freed by its alarm; nobody is stuck whose alarm is still to come |
| RequestResponse.TimedOfAnyLength | netperf/nettest_bsd.c:3865-3957 | for any number there is a timed run that ends with exactly that many transactions on both sides |
| RequestResponse.CountersCount | netperf/nettest_bsd.c:3941-3944 | in every run the counters are the numbers of responses sent, and of requests sent but for an open one |
| StreamTest.BytesConserved | netperf/nettest_bsd.c:955-965 | in every run, bytes received and bytes in flight add up to the bytes delivered; the flush recv returns only after the server has read them all |
| StreamTest.ByteTestSends | netperf/nettest_bsd.c:821-942 | a test of B bytes makes exactly ceil(B / send_size) sends and overshoots by less than one |
| StreamTest.NeverStuck | netperf/nettest_bsd.c:3068-3130 | timed or counted, the two processes are stuck only when both have finished |
| StreamTest.ByteTestEnds | netperf/nettest_bsd.c:864-942 | every run of a byte test is bounded |
| StreamTest.StepKeepsInv | netperf/nettest_bsd.c:864-965 | every step keeps bytes delivered, in flight and received in balance, and the sends still to come exact |
| StreamTest.TimedGoesOn | netperf/nettest_bsd.c:864-942 | before its timer the client stays in its loop; it delivers its whole sends, and less than one more if the timer cuts one off |
| StreamTest.TimedStops | netperf/nettest_bsd.c:864-900 | after the timer the client sends at most once more, and not at all if the timer has cut a send off |
| StreamTest.TimedEnds | netperf/nettest_bsd.c:864-965 | once the timer has gone off, no more steps follow than bytes are in flight, one send and four |
| StreamTest.TimedOfAnyAmount | netperf/nettest_bsd.c:864-942 | for any number of bytes there is a timed run that delivers exactly that many |
| ControlMessages.IntsArrive | netperf/netlib.c:1650-1652 | for every pair of host byte orders each int of a message arrives as it was sent |
| ControlMessages.MostSignificantFirst | netperf/netlib.c:1650-1652 | on the wire every int has its most significant byte first, whatever the order of the host |
| ControlMessages.BytesRoundTrip | netperf/netlib.c:1650-1652 | taking an int out of memory and putting it back gives the same bytes, in both orders |
| ControlMessages.SendMessage | netperf/netlib.c:1650-1672 | the message joins the end of the stream with its words in network order |
| ControlMessages.SwapBytes | netperf/netlib.c:618-623 | the scratch loop turns the eight bytes round |
| ControlMessages.DoublesArrive | netperf/netlib.c:588-667 | a double encoded with htond anywhere in a message is big-endian on the wire, and arrives as what ntohd turns into the same double in the order of the receiver |
| ControlMessages.SendDouble | netperf/netlib.c:588-667 | htond on one host, the connection in any fragments and ntohd on the other give the double in the byte order of the receiver |
| ControlMessages.HtonlInMemory | netperf/netlib.c:1650-1652 | on values, htonl exchanges byte positions; in memory it reverses a word's bytes or leaves them |
| ControlMessages.ConvertWords | netperf/netlib.c:1709-1711 | the in-place loop turns round the bytes of every word of the message and nothing else |
| ControlMessages.Htond | netperf/netlib.c:628-667 | after the byte swap and the two htonl the words of the double are exchanged, or nothing is |
| ControlMessages.Ntohd | netperf/netlib.c:588-626 | the steps in the other order have the same effect, so the two undo each other |
| ControlMessages.Reassemble | netperf/netlib.c:1758-1766 | however recv splits the stream, the loop collects exactly the next message's bytes, or all there are before the end |
| ControlMessages.RecvRequest | netperf/netlib.c:1758-1812 | a request is received if and only if all its bytes come; a shorter one counts as shutdown or, after a reset, as failure |
| ControlMessages.RecvResponse | netperf/netlib.c:1866-1935 | a response is received if and only if all its bytes come; a shorter one is partial or, after a reset, a failure |
| ControlMessages.CutShort | netperf/netlib.c:1758-1812 | three bytes of a request of four and then the end are reported as a shutdown |
| ControlMessages.ReceiveAll | netperf/netlib.c:1650-1672 | messages sent one after another stay framed: each is received from exactly its own bytes, with the same ints and, after ntohd, the same doubles |
| BufferRings.AllocateBufferRing | netperf/netlib.c:1172-1257 | the result is one ring of exactly `width` distinct elements; with a power of two each data pointer is the offset behind the first boundary that is not below the base |
| BufferRings.AllBehindBoundary | netperf/netlib.c:1224-1232 | the place of the data in every buffer of the ring, without the mask |
| BufferRings.OneCycle | netperf/netlib.c:1246-1257 | from any element the next ones up to the width all differ, and after `width` steps one is back |
| BufferRings.LeastMultiple | netperf/netlib.c:1224-1232 | with a power of two the data pointer is the least multiple of the alignment at or above the base |
| BufferRings.AlignsExactly | netperf/netlib.c:1224-1232 | the mask aligns every base if and only if the alignment is a power of two |
| BufferRings.SixDoesNotAlign | netperf/netlib.c:1224-1232 | an alignment of 6 leaves address 1 unaligned |
| BufferRings.DataInsideAllocation | netperf/netlib.c:1186-1232 | with any positive alignment and any offset the data lies inside the allocation |
| BufferRings.CoversExactly | netperf/nettest_bsd.c:678-688 | the other buffers of the ring cover the socket buffer if and only if it is smaller than a send or a multiple of it |
| BufferRings.WidthAllowed | netperf/nettest_bsd.c:685-688 | the computed width passes the assertion on it if and only if the socket size is above minus the send size |
| BufferRings.RingWidthExactly | netperf/nettest_bsd.c:678-688 | the width is one more than the whole sends in the socket buffer, and two if there is none |
| BufferRings.ReuseDistance | netperf/nettest_bsd.c:937-938 | two different sends use the same buffer only if they are at least the ring's width apart |
| BufferRings.SafeReuse | netperf/nettest_bsd.c:685-688 | in a ring of the computed width at least a socket buffer of other bytes is sent between any two uses of one buffer, if and only if the socket buffer is smaller than a send or a multiple of it |
| BufferRings.FiveNotCoveredByThrees | netperf/nettest_bsd.c:678-688 | a socket buffer of 5 and sends of 3 give a ring that does not cover it |
| Confidence.OnePassVariance | netperf/netlib.c:4866-4874 | the one-pass formula equals the mean squared deviation, so it is never negative |
| Confidence.Statistics.CalculateConfidence | netperf/netlib.c:4828-4948 | after any number of runs the kept mean and variance are the textbook ones of all results, and the confidence is that of all of them |
| Confidence.LeastOfThree | netperf/netlib.c:4919-4945 | from two runs on the confidence is not more than the margin of the result or of either CPU figure, and is one of the three |
| Confidence.ConfidentExactly | netperf/netlib.c:4919-4945 | it is not negative if and only if the intervals of all three quantities fit, where a quantity that is not measured always does |
| Confidence.StandardErrorSquared | netperf/netlib.c:4919-4934 | what is under the root is the sample variance over the number of runs |
| Confidence.MarginMeaning | netperf/netlib.c:4919-4923 | for a positive mean the margin is not negative if and only if the interval of t standard errors to both sides fits the requested fraction of the mean |
| Confidence.Confid | netperf/netlib.c:4752-4826 | the table is asked for 1 to 30 degrees of freedom only, and its entries are not negative |
| Confidence.TableEnds | netperf/netlib.c:4752-4826 | the first and the last entry of both tables, and 0 for other levels |
| Confidence.Statistics.RunTests | netperf/nettest_bsd.c:627-638 | the loop stops at the first number of runs at which its guard fails, with the statistics of exactly those runs |
| Confidence.RunCount | netperf/nettest_bsd.c:637-638 | at least the minimum; at most the minimum or one less than the maximum; from the minimum on the first confident run is the last; an unconfident test is run the maximum of times if and only if that is the minimum as well |
| Confidence.StopsAtNine | netperf/nettest_bsd.c:637-638 | with a minimum of 3 and a maximum of 10 a test with one spike stops unconfident after 9 runs |
| Words.NatRoundTrip | memtester/tests.c:207-217 | a word stands for a number modulo 2^W, so the arithmetic wraps around |
| PatternTests.CompareRegions | memtester/tests.c:32-57 | 0 if and only if the two halves read alike at every index |
| PatternTests.RunPattern | memtester/tests.c:219-447 | a pattern test returns 0 if and only if, at every index, the two cells return the same for all words it writes there |
| PatternTests.PatternsCatchStuckBits | memtester/tests.c:219-447 | Solid Bits, Checkerboard, Block Sequential, both walking tests, Bit Spread and Bit Flip pass at an index if and only if the stuck bits of the two cells are the same |
| PatternTests.EveryBitTakesBothValues | memtester/tests.c:219-447 | in every one of the seven tests each bit of each index is written as 0 and as 1 |
| PatternTests.NeighboursComplement | memtester/tests.c:219-447 | in Solid Bits, Checkerboard and Bit Flip the words of neighbouring indices are complements, and those of successive passes |
| PatternTests.WordsInShape | memtester/tests.c:219-447 | the words of all tests but Bit Spread, bit by bit |
| MemoryFaults.ReadsFixStuckBit | memtester/tests.c:32-57 | two cells that read alike for a word with a bit set and one with it clear have that bit stuck alike |
| PatternTests.WalksCatchShorts | memtester/tests.c:310-374 | each walking test alone tells every wired-and or wired-or short from a healthy cell, for any word width |
| PatternTests.BothWalksIdentifyFaults | memtester/tests.c:310-374 | both walking tests pass if and only if the two cells have the same fault, be it stuck bits or a short |
| PatternTests.WalkingZeroesAloneMisses | memtester/tests.c:310-341 | one walking test alone does not tell two shorted bits from two bits stuck low |
| StuckAddress.TestStuckAddress | memtester/tests.c:59-103 | 0 if and only if no two indices share a cell and no reached cell has a stuck bit, with both faults at once allowed |
| StuckAddress.RunPasses | memtester/tests.c:59-103 | 0 if and only if every index reads back in all sixteen passes what was stored for it, with the last writer of a shared cell winning |
| StuckAddress.SetAddresses | memtester/tests.c:68-84 | each reached cell holds the word of the last index that goes to it |
| StuckAddress.ComplementsExposeStuckBits | memtester/tests.c:68-84 | a cell that returns a word and its complement has no stuck bit |
| StuckAddress.TwoPassesSuffice | memtester/tests.c:68-84 | two complementary passes already show any shared cell and any stuck bit |
| StuckAddress.PassesDetectUnsoundMemory | memtester/tests.c:59-103 | all sixteen passes read back what they stored if and only if the memory is sound |
| StuckAddress.AddressesDiffer | memtester/tests.c:68-84 | the words that the first pass stores for two indices differ, although every other one is complemented |
| StuckAddress.StoredIsAddress | memtester/tests.c:68-72 | each word stored is the address in bytes of its place or the complement of it, in turn |
| Memtester.HalvesFit | memtester/memtester.c:315-320 | the two halves neither overlap nor leave the buffer, for any buffer size |
| Memtester.HalvesCover | memtester/memtester.c:315-318 | the second half starts at byte bufsize / 2, and each half has all the whole words of bufsize / 2 bytes; Stuck Address has all the whole words of the buffer |
| Memtester.OneStuckBit | memtester/memtester.c:315-343 | a single stuck bit is seen by Stuck Address if and only if it lies in a whole word of the buffer, and by the comparisons if and only if it lies in a whole word of a half |
| Memtester.CompareTest | memtester/tests.c:126-205 | the new contents of both halves; 0 if and only if they read alike, which equal halves with the same faults do |
| Memtester.OperatorsMean | memtester/tests.c:126-205 | what the six operators make of a word: bit by bit, or modulo the word size, or rounded down; division by zero changes nothing |
| Memtester.FillTest | memtester/tests.c:105-124 | the random-value and sequential-increment tests leave the same words in both halves, whatever was drawn, and return 0 if and only if these read alike |
| Memtester.NarrowTest | memtester/tests.c:449-524 | the narrow-write tests pass if and only if the cells of every index return the same for both of its random words; then both halves hold the words, though one was stored in pieces |
| Memtester.StorePieces | memtester/tests.c:469-474 | the stores of all pieces of a word make the word, and change no other cell |
| Memtester.RunTable | memtester/memtester.c:334-343 | one round of all seventeen tests of the table fails if and only if the halves are not faulty in the same way, for stuck bits and shorts |
| Memtester.EveryTestIsThere | memtester/memtester.c:35-55 | every test is in the table, which has as many entries as there are tests |
| Memtester.WalksTellRegionsApart | memtester/tests.c:310-374 | the two walking tests together find every difference between the halves, for stuck bits and shorts |
| Memtester.RunTest | memtester/memtester.c:331-340 | one test of the table: what it writes, what it takes from the random numbers, and that it returns 0 if and only if the halves read alike; the pattern tests do so exactly on halves with the same stuck bits |
| Memtester.RunLoops | memtester/memtester.c:320-345 | after any positive number of loops the exit code has one bit per kind of finding, no more |
| Memtester.RunMemtester | memtester/memtester.c:315-350 | for any stuck bits, buffer size, random numbers and positive number of loops the exit code reports exactly whether some bit is stuck and whether the halves differ; without a stuck bit it is 0, and for a single one it is given by where the bit lies |
| Tickets.OneZeroTicketPerChild | bonnie/bon_io.cpp:39-79 | in every run there is a zero ticket left for each child that needs one, and no seek too many |
| Tickets.StepKeepsTickets | bonnie/bon_io.cpp:39-79 | the pipe stays a queue of the tickets in order; every 1 taken is one seek, every 0 taken retires one child |
| Tickets.NeverStuck | bonnie/forkit.cpp:130-186 | whatever the pipes hold, no child or parent is ever blocked for good: some process can move until all is done |
| Tickets.ReportsMove | bonnie/bon_io.cpp:81-130 | when all children wait to report into a full pipe, the parent can read |
| Tickets.Accounting | bonnie/bon_io.cpp:81-130 | at the end exactly S seeks are done, each child has taken one zero ticket, none is left, and the parent has one report of each child |
| Tickets.SeekTestEnds | bonnie/forkit.cpp:44-108 | no run is longer than an explicit bound |
| Tickets.SeekTestElapsed | bonnie/bon_io.cpp:112-130 | in every interleaving the reported time is that from the first start to the last stop, if every child used CPU time |
| Timers.BonTimer.AddDeltaReport | bonnie/bon_time.cpp:116-130 | one report is merged into its test's entry and no other entry changes |
| Timers.BonTimer.AddAll | bonnie/bon_io.cpp:98-128 | the reports are merged one after another in the order of arrival |
| Timers.BonTimer.Initialize | bonnie/bon_time.cpp:139-147 | the sums that are read as empty are zero |
| Timers.ElapsedExactly | bonnie/bon_time.cpp:116-130 | the merged time is the span of all reports if and only if the reports that are overwritten lie inside the span of the rest |
| Timers.ElapsedInAnyOrder | bonnie/bon_time.cpp:116-130 | when all reports have CPU time the result does not depend on the order of arrival |
| Timers.ZeroCpuReportIsLost | bonnie/bon_time.cpp:118-122 | a concrete sequence of reports whose merged time is half of the real one |
| Timers.CpuIsTotal | bonnie/bon_time.cpp:116-130 | the merged CPU time is the sum of all reports, those that are overwritten included |
| Timers.SevenSeconds | bonnie/bon_time.cpp:116-130 | three reports of 1, 2 and 4 seconds make 7 |
| Semaphores.Semaphore.Create | bonnie/semaphore.cpp:40-59 | every semaphore of the set gets the value, and the set is open |
| Semaphores.Semaphore.Decrement | bonnie/semaphore.cpp:73-95 | one semaphore goes down by one; the call fails exactly if an open set has no such semaphore or it is at zero |
| Barrier.SemaphoreCounts | bonnie/semaphore.cpp:73-95 | in every run semaphore k holds N minus its decrements |
| Barrier.StepKeepsBarrier | bonnie/semaphore.cpp:73-95 | every step keeps the barrier: a process that has left phase i means that all have entered it |
| Barrier.PhasesStayTogether | bonnie/semaphore.cpp:73-95 | nobody passes barrier i before all have entered it, and two processes are at most one phase apart |
| Barrier.NoDeadlock | bonnie/semaphore.cpp:73-95 | while nobody has failed, some process can move until all have passed every barrier |
| Barrier.RunsEnd | bonnie/semaphore.cpp:73-95 | no run is longer than an explicit bound |
| Barrier.RunToTheEnd | bonnie/semaphore.cpp:73-95 | every state has a continuation that cannot be extended |
| Barrier.NeverFailsExactly | bonnie/semaphore.cpp:73-95 | no decrement is refused in any interleaving if and only if no semaphore is used twice |
| Barrier.PlanUsesEachSemaphoreOnce | bonnie/bonnie++.cpp:653-677 | one round of the tests uses each semaphore of the set at most once |
| Barrier.PlanInOrder | bonnie/bonnie++.cpp:484-677 | which tests one round has, with and without `-f`, in the order of their numbers |
| Barrier.RepeatedAt | bonnie/bonnie++.cpp:484-586 | every round calls the same semaphores in the same order |
| Barrier.SynchronisedRounds | bonnie/bonnie++.cpp:484-586 | synchronised copies get through if and only if they do a single round |
| Barrier.SecondUseFails | bonnie/semaphore.cpp:73-95 | a process alone that uses one semaphore twice fails at the second barrier |
| Geometries.GeometryIsGood | bonnie/bon_io.cpp:314-338 | the file sizes add up to the total, and no file is empty |
| Geometries.GeometryAsAsked | bonnie/bon_io.cpp:314-338 | the number of chunks and of files, and the size of every file, in terms of the sizes asked for |
| Geometries.PositionCases | bonnie/bon_io.cpp:134-195 | how file and chunk index decide whether a position is inside the device, in the window behind it, or outside |
| Geometries.WindowBehindFour | bonnie/bon_io.cpp:134-195 | position 5 of a device of one file of four chunks is behind its end and accepted |
| Geometries.TruncatedPosition | bonnie/bon_io.cpp:134-150 | quotient and remainder as C takes them name the requested position, also for negative offsets |
| FileOps.CFileOp.constructor | bonnie/bon_io.cpp:314-338 | the device starts at position 0 and has exactly the chunks asked for, in files of full size and a last one with the rest, as many as that takes |
| FileOps.CFileOp.Locate | bonnie/bon_io.cpp:134-165 | however far a relative seek goes across files, the fields name the sum of the old position and the offset |
| FileOps.CFileOp.Seek | bonnie/bon_io.cpp:134-195 | the fields end up at the requested linear position; success exactly inside the device and in the window behind it; inside, the descriptor's offset is the position's |
| FileOps.CFileOp.ReadBlock | bonnie/bon_io.cpp:197-235 | the chunk at the position is returned and the position and the offset move on by one chunk, across files |
| FileOps.CFileOp.WriteBlock | bonnie/bon_io.cpp:260-286 | exactly that chunk is replaced or appended, and position and offset move on |
| FileOps.CFileOp.Advance | bonnie/bon_io.cpp:214-222 | after a full block position and offset agree, also in the folded state at the very end |
| FileOps.CFileOp.Reopen | bonnie/bon_io.cpp:342-376 | back to position 0, with empty files if they are created |
| FileOps.DeviceLength | bonnie/bon_io.cpp:314-338 | the files together are a device of the computed number of chunks |
| FileOps.DeviceRead | bonnie/bon_io.cpp:197-235 | the chunk of a file is the chunk of the device at its linear position |
| FileOps.DeviceWrite | bonnie/bon_io.cpp:260-286 | replacing a chunk of a file replaces one chunk of the device |
| FileOps.DeviceAppend | bonnie/bon_io.cpp:260-286 | writing at the end appends to the device |
| DevicePasses.BlockWrite | bonnie/bonnie++.cpp:512-521 | every chunk is written exactly once, in order, with the contents of the running buffer |
| DevicePasses.Rewrite | bonnie/bonnie++.cpp:538-552 | chunk w holds its old contents with byte w % chunk_size incremented modulo 256, for every chunk |
| DevicePasses.RewriteOne | bonnie/bonnie++.cpp:538-552 | reading, stepping back and writing changes exactly one byte of one chunk, also at the last chunk of a file |
| DevicePasses.BlockRead | bonnie/bonnie++.cpp:588-594 | every chunk is read exactly once, in order, and nothing changes |
| DevicePasses.DoSeek | bonnie/bon_io.cpp:480-505 | only the chunk at the position changes, by one decremented byte, and only when it is to be updated |
| DevicePasses.LoweredUndoesBumped | bonnie/bon_io.cpp:480-505 | what doseek does to a byte and what the rewrite pass does undo each other |
| DevicePasses.LoweredByte | bonnie/bon_io.cpp:480-505 | a closed form for every byte of a written chunk after doseek |
| DevicePasses.AfterBothPasses | bonnie/bonnie++.cpp:512-552 | a closed form for every byte on the device after the write and the rewrite pass |
| DevicePasses.IncrementsClosed | bonnie/bonnie++.cpp:512-521 | how often the write loop has incremented a byte of its buffer |
| Names.ValueOfPadded | bonnie/bon_file.cpp:143-150 | a printed number can be read back, so padded numerals of different numbers differ |
| Names.DirectoryIsValid | bonnie/bon_file.cpp:98-142 | every file is assigned to a directory that exists |
| Names.NextDirectory | bonnie/bon_file.cpp:137-142 | counting names up to the limit and starting again is division by names_per_directory + 1 |
| Names.NamesDistinct | bonnie/bon_file.cpp:94-153 | up to 10^7 names all differ, and more if there are fewer than 10^7 for each directory, in both modes and whatever is drawn |
| Names.DistinctExactly | bonnie/bon_file.cpp:94-153 | for any number of directories the names differ whatever is drawn if and only if there are at most 10^7, or fewer than 10^7 for each directory, rounded down |
| Names.NumeralsInFrontDiffer | bonnie/bon_file.cpp:143-150 | two names that begin with the numerals differ if the larger number fits the field or the smaller is more than half of it |
| Names.NumeralsBehindDiffer | bonnie/bon_file.cpp:143-150 | two names that end in the numerals differ if the numbers are less than 10 to the field width apart |
| Names.NumeralsCollide | bonnie/bon_file.cpp:143-150 | the concrete names that collide in each mode, for any field width |
| Names.FitsExactly | bonnie/bon_file.cpp:103-110 | the names fit the allocated buffer whatever is drawn if and only if there are at most 10^7 |
| Names.LongNamesLayout | bonnie/bon_file.cpp:103-110 | with the longest suffixes the names fill their slots exactly, and overflow from the first eight-digit number on |
| Names.NamesSpelledOut | bonnie/bon_file.cpp:129-150 | the name of one file in full, in both modes |
| Names.FillNames | bonnie/bon_file.cpp:111-153 | the names lie in the buffer one after another without overlap, the pointers lead to them, and the counters give the directories |
| OpenTests.COpenTest.MakeNames | bonnie/bon_file.cpp:94-153 | the C strings behind the file pointers are the generated names, and in synchronous mode each has its directory beside it |
| Names.PointerReadsName | bonnie/bon_file.cpp:129-151 | the C string at the pointer of file i is exactly the name of file i |
| Names.NamesAreVisible | bonnie/bon_file.cpp:17-17 | no generated name contains a NUL or a stray slash or starts with a dot |
| Shuffling.ShuffleKeepsElements | bonnie/bon_file.cpp:39-55 | the shuffle neither loses nor duplicates anything |
| Shuffling.ShuffleMovesPositions | bonnie/bon_file.cpp:39-55 | sequences shuffled with the same draws stay aligned |
| Shuffling.OneExchange | bonnie/bon_file.cpp:39-55 | if every draw but one is the position itself, exactly the two positions of that turn are exchanged |
| Shuffling.EveryOrder | bonnie/bon_file.cpp:39-55 | for every permutation there are draws that make it |
| Shuffling.ThreeInOrder | bonnie/bon_file.cpp:39-55 | three elements, to tell the order of the turns |
| TestWorlds.GeneratedNamesPlaced | bonnie/bon_file.cpp:94-153 | every generated name, taken apart at its slash, is a visible name in the directory it is assigned to |
| TestWorlds.CreateStep | bonnie/bon_file.cpp:316-347 | creating the next file always works, making the next link exactly if its name is not taken |
| TestWorlds.UnlinkStep | bonnie/bon_file.cpp:357-363 | removing the next file works exactly if its name did not come before |
| TestWorlds.RemoveStep | bonnie/bon_file.cpp:376-387 | a numbered directory can be removed once none of the created files is in it |
| TestWorlds.LeaveTestDirectory | bonnie/bon_file.cpp:397-403 | then the test directory can be removed and the file system is as before |
| TestWorlds.HomeFiles | bonnie/bon_file.cpp:457-478 | what is found in a directory is exactly what was created there |
| TestWorlds.CreatedCount | bonnie/bon_file.cpp:501-505 | there are as many new files as names if and only if the names differ |
| TestWorlds.LinkFollowed | bonnie/bon_file.cpp:211-225 | the name of a created file leads to a file if and only if there are no symbolic links, or one directory, or it is the file that the links are to lead to |
| TestWorlds.FoundExactly | bonnie/bon_file.cpp:573-692 | every listed file is found, and as many as were made, if and only if the names differ and no link is in a numbered directory |
| OpenTests.COpenTest.RandomSort | bonnie/bon_file.cpp:39-55 | names and directory numbers go through one permutation, and stay matched |
| OpenTests.COpenTest.Create | bonnie/bon_file.cpp:253-350 | succeeds if and only if there are not too many directories, nothing has the name of the test directory and no link replaces a file; leaves exactly the named files, and synchronises the directory of each |
| OpenTests.COpenTest.StatSequential | bonnie/bon_file.cpp:573-692 | finds every file if and only if no name was generated twice and no symbolic link is in a numbered directory |
| OpenTests.COpenTest.StatRandom | bonnie/bon_file.cpp:558-571 | finds every file by name after a shuffle if and only if no symbolic link is in a numbered directory |
| OpenTests.COpenTest.CreateFiles | bonnie/bon_file.cpp:315-349 | the loop fails exactly when a link would replace a file |
| OpenTests.COpenTest.MakeSubdirectories | bonnie/bon_file.cpp:281-313 | all numbered directories exist, each with its handle in synchronous mode |
| OpenTests.COpenTest.DeleteRandom | bonnie/bon_file.cpp:352-406 | unlinks each file once, finds every directory empty and restores the file system, and succeeds if and only if no name was generated twice |
| OpenTests.COpenTest.UnlinkAll | bonnie/bon_file.cpp:357-372 | every file is unlinked exactly once, and the directory synchronised after it is its own |
| OpenTests.COpenTest.DeleteSequential | bonnie/bon_file.cpp:408-508 | restores the file system for any listing order; its count is right if and only if no name was generated twice |
| OpenTests.COpenTest.DeleteDirectory | bonnie/bon_file.cpp:412-493 | a directory is emptied and removed, and the count goes up by the files it had |
| OpenTests.EmptyDirectory | bonnie/bon_file.cpp:449-479 | removes exactly the visible files of the working directory, each once; works if and only if all visible entries are files |
| OpenTests.ScanDirectory | bonnie/bon_file.cpp:628-658 | in any order of listing, all visible entries are counted if and only if each leads to a file |
| OpenTests.TestDirOps | bonnie/bonnie++.cpp:624-683 | create, stat and delete in both orders succeed if and only if the limits are kept, nothing is in the way, all names differ and symbolic links are made in one directory only; nothing is left behind |
| OpenTests.LinksInTwoDirectories | bonnie/bon_file.cpp:211-225 | with two directories a symbolic link never leads to a file; only the first file itself is found |
| OpenTests.EnoughNames | bonnie/bonnie++.cpp:646-652 | up to 9765 times 1024 files the names differ and fit; with four directories or more they differ for every size that is admitted |
| OpenTests.MostFiles | bonnie/bonnie++.cpp:633-652 | the limits admit up to 34952 times 1024 files, and of R MiB of memory up to R * 1024 / 60 times 1024 |
| Dhrystones.Dhrystone.Proc1 | dhrystone/dhry_1.c:317-348 | the record that the first one points to becomes a copy of it that points to itself, with its own integer and enumeration |
| Dhrystones.Dhrystone.Proc2 | dhrystone/dhry_1.c:351-371 | the loop ends after one turn and adds 9 less the global integer |
| Dhrystones.Dhrystone.Proc3 | dhrystone/dhry_1.c:374-387 | the pointer is set to the first record's, and the first record's integer is computed from the global one |
| Dhrystones.Dhrystone.Proc6 | dhrystone/dhry_2.c:30-61 | each enumeration value is sent where the switch sends it |
| Dhrystones.Dhrystone.Proc8 | dhrystone/dhry_2.c:84-106 | the new contents of both arrays at every index |
| Dhrystones.Dhrystone.Func2 | dhrystone/dhry_2.c:135-174 | the result is the string comparison; the loop ends if the two characters differ |
| Dhrystones.Dhrystone.Scan | dhrystone/dhry_1.c:190-201 | nothing changes as long as the loop stays below C |
| Dhrystones.Dhrystone.OneRun | dhrystone/dhry_1.c:166-209 | one turn, from any state with the records linked, sets every variable as printed and counts the run |
| Dhrystones.Dhrystone.constructor | dhrystone/dhry_1.c:100-119 | the two records and the array element as initialized |
| Dhrystones.CountExactly | dhrystone/dhry_1.c:114-119 | the run counter is right if and only if the sum fits an int |
| Dhrystones.CountWraps | dhrystone/dhry_1.c:114-119 | with 2^31 - 10 runs the counter is negative |
| Dhrystones.Dhrystone.Measure | dhrystone/dhry_1.c:166-210 | after any number of runs every global and local variable has the value that is printed as the one it should have |
| Dhrystones.Benchmark | dhrystone/dhry_1.c:108-276 | the same for the whole program, with the strings spelled out, and the run count right if and only if it fits an int |
| Dhrystones.TextsCompared | dhrystone/dhry_2.c:135-174 | the strings that the program compares are in order and make the loop of Func_2 end |
| Dhrystones.StrCmpIsOrder | dhrystone/dhry_2.c:135-174 | the comparison of strings is 0 for equal ones only, and goes by the first difference |

## Left out

- netperf: sockets, select, option parsing, printing, CPU measurement, UDP and the other variants of the tests; a send
  is accepted whole except when the timer interrupts the stream test, and recv fails only at the end of a control
  connection. The first burst of request/response transactions is not modelled.
- RequestResponse and StreamTest: the loops of client and server are step relations over values, not methods, because
  two processes interleave; the contents of the data buffers and the ring are not part of them.
- Confidence: the test time and the two service demands, which are kept by the same statements but do not enter the
  confidence; rounding.
- BufferRings: the file that buffers can be filled from; overflow of addresses.
- ControlMessages: the time-out of recv_response and the debugging output; the fields that the tests put into a message.
- Memtester.RunMemtester: the address lines are in order; StuckAddress.TestStuckAddress is about those that are not.
- memtester: endless runs (`loops` of 0), and the allocation and locking of memory. A store to both halves in one
  statement does not read back the first.
- StuckAddress.GoodBuffer: the buffer is aligned to words and does not wrap around the address space.
- bonnie++ tickets and barrier: forking, the exit of the whole program after an error of one process, and time-outs; a
  pipe write is atomic per ticket. The processes are step relations over values.
- bonnie++ files: short reads, the character-at-a-time passes, closing and unlinking the large files, file contents and
  sizes of the small files, which the stat tests would read, the interrupt flag, and the destructor's clean-up after an
  error. A symbolic link is an entry of its own. The operating system refuses only what the model of the file system refuses.
- OpenTests.COpenTest.Create: needs names that fit the buffer; Names.FitsExactly says when that is certain.
- Timers: the clock itself; times are real numbers.
- Dhrystone: timing and printing; only the variant of the record that the program uses; integers wrap at 32 bits where
  the program counts its runs, all others stay small.
- zcav, mmx.c, the DLPI code, histograms and report formats: assembly, plumbing, or easy.
