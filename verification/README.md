# Verified model of ssearcher

ssearcher searches local files for a text: worker threads take files, find the matches with a
simplified KMP search, and collect the lines, with the matches highlighted, in a growing buffer.
Its snippets hold LCRQ, the concurrent FIFO queue of Morrison and Afek (PPoPP 2013): a linked
list of ring queues. This project models the parts below in Dafny and proves what they are for.
`dafny verify dfyconfig.toml` checks everything.

**The queue** (`LcrqRing`, `LcrqSystem`, `LcrqInvariant`, `LcrqPreserve`, `LcrqHistory`,
`LcrqOrder`, `LcrqTheorems`, `LcrqSolo`, `LcrqSequential`, `LcrqNoEnqueue`, `LcrqStranded`,
`LcrqStage`, `LcrqLinear`, `LcrqLinearProof`, `LcrqNotLinear`, `LcrqTale`, `LcrqSchedule`,
`LcrqThreads`, `LcrqClosing`, `LcrqEnds`, `LcrqFlow`, `LcrqReasons`, `LcrqLooks`, `LcrqWord`). A
transition system with any number of threads and any ring size R >= 1. Every fetch-and-add,
compare-and-swap, bit-test-and-set and read of a shared word is one step; an enqueuer's reads of
`idx`, `val` and `head` are three steps, a dequeuer's reads of `idx`, `val` and `tail` likewise. A
thread is a value with a program counter, since what the source updates in place is shared by
threads that interleave; the heap objects of the later parts are classes. The state also records
history that no step reads: which operation drew each ticket, what was deposited, taken and given
up, what was returned, and which rings `head` left after a check that read an open tail (`early`).
Schedules are sequences of events; `Reach(R, n, sched)` is the state after one.

What is proved holds for all R, all numbers of threads and all schedules. The main result is
linearizability: `Story` is the history a run's callers see. Whatever the ring size, every run of
the queue is linearizable if and only if at most one thread uses it
(`LcrqThreads.LinearizableIff`): from two threads on, one schedule, given for every ring size,
makes `head` leave a ring with a value in it. With any number of threads every run in which head
leaves no value behind is linearizable, and an operation whose thread runs alone ends from every
state, but for dequeues before the first enqueue has drawn a ticket (`LcrqEnds.EndsIff`). Why a
thread goes the way it does, in terms of what it read at earlier turns of the same operation, is
in `LcrqReasons` and `LcrqLooks`.

**The search** (`Kmp`, `Worker`). The table and the loop keep the source's shortcuts: the table
drops to 0 on a mismatch, and the loop falls back once and then resets. Matches are always
genuine, but some are missed and some line breaks are counted twice. Both faults get their exact
condition on the pattern, and the table itself is described by the pattern alone.

**The result buffer** (`ResultBuffer`), **the trie and the magic table** (`ByteTrie`, `Magic`) and
**the intrusive list with its ropes** (`LinkedList`, `Ropes`) are heap objects with ghost state
that says what they stand for.

Where the source and what is written about it differ, the model follows the code:

- `tail_index(tail) - 1` and `t - h` are unsigned. A ring with tail 0 never looks empty, so a
  dequeue on a queue that has seen no enqueue never returns (`LcrqNoEnqueue`); and a ring may be
  closed while it is empty, because the head has overtaken the ticket
  (`LcrqClosing.ClosedWhileEmpty`). `LcrqClosing.ClosedFor` says what a close does tell.
- After line 368 finds a next ring, `head` is swung at line 371 without a second look at `tail`.
  So with two threads a value can be lost or overtaken, and the queue is not linearizable
  (`LcrqStranded`, `LcrqThreads`). The statements on order and on loss across rings carry the
  condition that head never left the ring in question after reading it open, which holds whenever
  the check of line 365 read a closed tail; and beside them stands what happens without it.
- The comment above `trie_scan` says that it returns a node whether or not it is a leaf. It
  returns only nodes of entries, and null when no entry is a prefix of the target.

## Model

| member | source | states |
|---|---|---|
| LcrqRing.DepositOk | snippets/lcrq.c:290 | an enqueuer's successful CAS2 keeps the ring invariant and only moves the ring forward |
| LcrqRing.TakeOk | snippets/lcrq.c:337 | the same for the CAS2 that takes a value, which moves the cell to the next lap |
| LcrqRing.MarkUnsafeOk | snippets/lcrq.c:340 | the same for the CAS2 that marks an older value unsafe |
| LcrqRing.AdvanceOk | snippets/lcrq.c:354-357 | the same for the CAS2 that moves an empty cell on |
| LcrqInvariant.OthersKeep | snippets/lcrq.c:242-374 | no step of one thread breaks what another relies on between its stale reads and its CAS2 |
| LcrqInvariant.OvertakenKeeps | snippets/lcrq.c:290 | if an enqueuer holds a read of an unsafe empty cell, then once the dequeuer of its ticket has given up the cell is past that state for good |
| LcrqPreserve.StepOk | snippets/lcrq.c:192-374 | every step of every thread keeps the whole invariant: rings, chain, tickets, claims and what each thread relies on |
| LcrqHistory.InitOk | snippets/lcrq.c:128-138 | the initial queue satisfies the invariant |
| LcrqHistory.RunGrows | snippets/lcrq.c:192-374 | over any run counters, chain, closed bits, logs and cell ranks only grow |
| LcrqTheorems.GivenUpStaysEmpty | snippets/lcrq.c:282-363 | after a dequeuer left the inner loop without a value, by any of the four exits, nothing is ever deposited under its ticket in that ring |
| LcrqTheorems.EmptyWasEmpty | snippets/lcrq.c:365-370 | a dequeue that returns EMPTY made its emptiness check, within that operation, at a moment when its ring was the first and the last and every value in it was claimed by another dequeuer at work |
| LcrqTheorems.ClosedCheckStrandsNothing | snippets/lcrq.c:365-371 | if the check that leads off a ring read a closed tail, then from the swing of head on every value there, present or to come, has a dequeuer with its ticket that has not given up |
| LcrqTheorems.EnqueueOrder | snippets/lcrq.c:242-303 | an enqueue finished before another began is placed before it: in an earlier ring or under a smaller ticket |
| LcrqTheorems.ClaimOrder | snippets/lcrq.c:305-317 | values are claimed in the order of their places; across rings, unless head left the earlier ring early |
| LcrqTheorems.Fifo | snippets/lcrq.c:242-374 | if A finished before B began and B's value was returned, then A's was returned or is claimed; across rings, unless head left A's ring early |
| LcrqTheorems.NoLoss | snippets/lcrq.c:242-374 | every value deposited in a ring that head did not leave early was returned, is claimed by a dequeuer at work, or waits in its cell under a ticket still to be drawn |
| LcrqTheorems.ReturnedOnce | snippets/lcrq.c:290-292 | every returned value was deposited by one enqueue under the returning dequeuer's ticket, and no deposit is returned twice |
| LcrqTheorems.CellsMoveForward | snippets/lcrq.c:285-291 | slot j holds only indices congruent to j, indices never decrease, and a cell state once left never recurs, so a CAS2 cannot suffer from ABA |
| LcrqTheorems.ValuesStayPut | snippets/lcrq.c:328-358 | a deposited value leaves its cell only through the dequeue of the same ticket |
| LcrqTheorems.ChainOnlyGrows | snippets/lcrq.c:192-280 | next is written once, a ring with a successor is closed, closing is permanent, no ticket drawn after it deposits, head and tail only move forward, tail is last or last but one |
| LcrqStranded.LostIff | snippets/lcrq.c:308-317 | in a ring that head has left, a value can be returned in some continuation if and only if its ticket is below the ring's dequeue counter plus the number of threads that read head before and are about to draw from the ring |
| LcrqStranded.LostIffQuiet | snippets/lcrq.c:308-317 | once no thread is about to draw from it, the dequeue counter alone decides |
| LcrqThreads.ValueCanBeLost | snippets/lcrq.c:365-371 | for rings of every size and any two threads, a schedule in which a finished enqueue's value is never returned |
| LcrqThreads.FifoFails | snippets/lcrq.c:365-371 | for rings of every size and any two threads, a schedule in which enqueue A finished before B began, B's value was returned, and A's never will be |
| LcrqThreads.OrderIff | snippets/lcrq.c:305-371 | first in, first out holds in every run if and only if at most one thread uses the queue |
| LcrqStranded.FifoIff | snippets/lcrq.c:305-371 | of two values with the later returned, the earlier was returned or is claimed if and only if its ticket is below its ring's dequeue counter, and can still be returned if and only if it is below that counter plus the threads about to draw |
| LcrqStage.StepMoves | snippets/lcrq.c:192-374 | how one step moves its operation on: drawing a ticket, depositing, claiming, giving up, passing the emptiness check, returning, and nothing else; when a claim may be given up is in LcrqLooks |
| LcrqLinear.RunForetold | snippets/lcrq.c:242-374 | what the final state of a run says of the states before it: a ticket deposited under in the end is held by its enqueuer until then and given up by no dequeuer, and no EMPTY comes from a ring with a successor |
| LcrqLinearProof.RunsAreLinearizable | snippets/lcrq.c:242-374 | in every run in which head leaves no value behind the history is linearizable: an order of all operations that returned and some that have not, which respects real time and answers as a FIFO queue does, EMPTY included |
| LcrqLinearProof.ClosedRunsAreLinearizable | snippets/lcrq.c:242-374 | so it is in every run in which each check that made head leave a ring read a closed tail |
| LcrqThreads.LinearizableIff | snippets/lcrq.c:242-374 | for rings of every size, all runs are linearizable if and only if there is at most one thread |
| LcrqThreads.NotLinearizable | snippets/lcrq.c:365-371 | for rings of every size and two threads or more, a run, with all operations returned, whose history is not linearizable |
| LcrqThreads.LeavingMayGoUnnoticed | snippets/lcrq.c:365-371 | on rings of one cell the same run up to the swing of head, which leaves a value behind, is still linearizable |
| LcrqNotLinear.JumpedIsNotLinearizable | snippets/lcrq.c:365-371 | no history is linearizable in which a value is enqueued before another, never dequeued, and the other is |
| LcrqClosing.ClosedFor | snippets/lcrq.c:235-298 | a turn that closes a ring is an enqueue's that drew a ticket of it and, earlier in the same operation, read a dequeue counter past the ticket or a whole ring behind it |
| LcrqClosing.ClosedWhileEmpty | snippets/lcrq.c:296-298 | for rings of every size and two threads or more, a schedule after which the only ring is closed and no cell of it holds a value |
| LcrqEnds.EnqueueEnds | snippets/lcrq.c:242-303 | from every state that meets the invariant, wherever in the operation and with whatever stale reads, an enqueue whose thread runs alone ends |
| LcrqEnds.EndsIff | snippets/lcrq.c:242-374 | from every reachable state an operation whose thread runs alone ends if and only if it is an enqueue or the first ring's tail is not 0 |
| LcrqFlow.StepFlows | snippets/lcrq.c:192-374 | each step leads to a place of the program that may follow, within the same operation, and a published ring is not kept |
| LcrqReasons.StatesPass | snippets/lcrq.c:192-374 | the states of every run from the initial queue are such a sequence of turns as the following theorems speak of |
| LcrqReasons.CasFor | snippets/lcrq.c:282-290 | an enqueuer tries to deposit only if, in the same operation and under the same ticket, it read an index at or below the ticket, then an empty value, and, for an unsafe cell, a dequeue counter below the ticket |
| LcrqReasons.DepositedFor | snippets/lcrq.c:290 | every deposit in a published ring was made so, on a cell still as it was read |
| LcrqReasons.PassedOverFor | snippets/lcrq.c:285-296 | an enqueuer passes its ticket over only if it read a value, or an index past the ticket, or an unsafe cell and a dequeue counter not below the ticket, or its CAS2 found the cell changed |
| LcrqReasons.ClosesIff | snippets/lcrq.c:235-298 | it goes on to close exactly if the dequeue counter is past the ticket or a ring behind it, and closes exactly if the ring is open and either no ticket was drawn since or the operation has found a ring full ten times |
| LcrqLooks.LookIff | snippets/lcrq.c:326-361 | what a dequeuer does on a cell it has read: leave it, take, mark, read tail at every 1024th look, give it up exactly if it is unsafe or the last tail read was closed or at most one past the ticket or there were more than 200000 looks, else look again |
| LcrqLooks.TailIff | snippets/lcrq.c:346-361 | the same decision when tail has just been read |
| LcrqLooks.GivesUpFor | snippets/lcrq.c:326-361 | whenever a dequeue ticket is given up, its thread found the cell past the ticket, or marked an older value, or skipped a cell that was unsafe, or one not worth waiting for by the tail it last read under that ticket |
| LcrqLooks.CheckIff | snippets/lcrq.c:365 | the emptiness check passes exactly if tail is at least 1 and at most one past the ticket |
| LcrqLooks.FixedFor | snippets/lcrq.c:192-208 | fixState ends only at a turn at which tail was as read before head, with head not past it, or the ring closed, or tail moved up to that head |
| LcrqSequential.EnqueueRefines | snippets/lcrq.c:242-303 | an enqueue run alone completes and appends its value to the queue's contents, also through closing a full ring and appending a new one |
| LcrqSequential.DequeueRefines | snippets/lcrq.c:305-374 | a dequeue run alone completes and removes and returns the first value, or returns EMPTY and repairs the ring, also when it must move to the next ring |
| LcrqSequential.SequentialFifo | snippets/lcrq.c:192-374 | any list of operations that starts with an enqueue, run one at a time, completes in exactly one way, with the answers and contents of an unbounded FIFO queue |
| LcrqNoEnqueue.NothingReturns | snippets/lcrq.c:365-373 | in every interleaving of dequeues on a fresh queue, none ever returns |
| LcrqNoEnqueue.SerialIff | snippets/lcrq.c:242-374 | a list of operations can be run one at a time from a fresh queue if and only if it is empty or starts with an enqueue |
| LcrqWord.AndMask | snippets/lcrq.c:148-165 | the bitwise and with 2^p - 1 is the remainder modulo 2^p |
| LcrqWord.MaskIsSlot | snippets/lcrq.c:282 | the mask by which the source finds the cell of a ticket is the ticket's slot in a ring of 2^p cells |
| LcrqWord.PackUnpack | snippets/lcrq.c:148-170 | the bitwise masks of the source take a 64-bit word apart into its index and its top bit and put it together again, so comparing words compares both |
| LcrqWord.AddKeepsFlag | snippets/lcrq.c:262 | fetch-and-add on a closed tail keeps the closed bit |
| LcrqWord.GuardsAgree | snippets/lcrq.c:298 | below 2^63 the wrapping tests for emptiness, fullness and repair decide as the guards of the queue model |
| Kmp.EntryIsBorder | src/match.c:35-44 | every table entry is the length of a proper border of the prefix it belongs to |
| Kmp.TableIsLongestIff | src/match.c:35-44 | the table holds the longest proper borders up to a prefix if and only if up to there the longest border always grows by one character or is lost |
| Kmp.TableFromRuns | src/match.c:35-44 | for every pattern, cut greedily into runs that repeat its beginning, each entry counts the characters since its run began |
| Kmp.RunsExist | src/match.c:35-44 | every pattern can be cut so |
| Kmp.Matcher.Prepare | src/match.c:35-44 | the loop fills the table that the specification defines |
| Kmp.Matcher.Match | src/match.c:50-101 | the search loop computes its specification in at most two turns per character |
| Kmp.ReportsAreTrue | src/match.c:50-101 | for every pattern and text a reported position is a true occurrence within bounds |
| Kmp.CoveredFindsLeftmost | src/match.c:58-101 | for patterns whose table covers the borders the report is the leftmost occurrence, and none is reported only if there is none |
| Kmp.FoundIffCovered | src/match.c:38-101 | the search finds the leftmost occurrence in every text if and only if the table covers the pattern's borders |
| Kmp.FoundIffLongest | src/match.c:38-101 | for patterns whose longest border always grows by one or is lost, said of the pattern alone: the leftmost occurrence is found in every text if and only if the longest border is continued as each shorter one that a mismatch could fall back to |
| Kmp.FallbackIsMissed | src/match.c:38-86 | in any other pattern the table drops to 0 at the first prefix whose longest border falls back, and if the pattern later breaks that border off, there is a text in which it occurs and is not found |
| Kmp.SingleBordersCovered | src/match.c:38-44 | patterns whose proper prefixes have at most one nonempty proper border each, one that always grows by one or is lost, are among them |
| Kmp.UncoveredIsMissed | src/match.c:76-86 | for any other pattern, a text in which it occurs and is not found |
| Kmp.AbaacIsMissed | src/match.c:76-86 | abaac occurs in abaabaac and is not found there, though its proper prefixes have at most one border each |
| Kmp.LinesBetween | src/match.c:56-92 | the amount added to the line number lies between the line breaks read and twice that number |
| Kmp.LinesExact | src/match.c:56-92 | it is the number of line breaks read if no prefix of the pattern makes the loop reset on one |
| Kmp.LinesIff | src/match.c:58-92 | the line count is right on every text if and only if that is so |
| Kmp.AabCountsTwo | src/match.c:59-86 | aab on aa and a line break counts two lines |
| Worker.BeginOfLine | src/thread.c:36-44 | the loop finds the line start that the specification defines |
| Worker.LineStartIff | src/thread.c:36-44 | that is the one position that begins a line with no line break up to the given one |
| Worker.ScanFile | src/thread.c:102-130 | the worker's loop ends and reports the hits that the specification defines |
| Worker.HitsAreTrue | src/thread.c:114-130 | every hit is a true occurrence inside the file, with the position that begins its line, and hits come in order without overlap |
| Worker.HitsAreGreedy | src/thread.c:114-130 | for covered patterns the hits are the leftmost non-overlapping occurrences, all of them |
| Worker.GreedyIffCovered | src/thread.c:114-130 | that is so for every file if and only if the table covers the pattern's borders |
| Worker.LineNumbersAreRight | src/thread.c:109-130 | without resets on line breaks each hit is numbered one more than the line breaks up to its last character |
| Worker.LineNumbersIff | src/thread.c:109-130 | the numbers are right in every file if and only if no prefix of the pattern makes the search reset on a line break |
| Worker.HitIsInItsLine | src/thread.c:36-56 | for patterns without line breaks that repeat their first character at most at the end, the line passed on is the one reported and holds the whole match |
| ResultBuffer.Doubled | src/buffer.c:139-142 | doubling stops at a size that is enough and, if it grew, less than twice what was asked for |
| ResultBuffer.DoubledIsLeast | src/buffer.c:133-142 | the new capacity is the old one times a power of two, and the least such that is enough |
| ResultBuffer.DoubledTwice | src/buffer.c:133-142 | growing to one size and then another is growing to the larger |
| ResultBuffer.Buffer.InitBuffer | src/buffer.c:156-177 | the buffer is empty, zeroed and of the default capacity |
| ResultBuffer.Buffer.BufferGrow | src/buffer.c:131-154 | growing keeps the contents, zeroes the rest and reaches the least doubling that is enough |
| ResultBuffer.Buffer.WriteBuffer | src/buffer.c:179-196 | a write appends its bytes and grows exactly when they do not fit |
| ResultBuffer.Buffer.WritelineBuffer | src/buffer.c:235-254 | the line up to its first line break or its limit is appended |
| ResultBuffer.Buffer.WritelineColorBuffer | src/buffer.c:265-310 | the line up to its first break or NUL behind the span, or its limit, is appended with the codes around the given span |
| ResultBuffer.Buffer.AmendlineColorBuffer | src/buffer.c:312-345 | the codes are put around the given span inside the last line; the text behind it moves up to its first NUL, and what stood behind a NUL stays under it |
| ResultBuffer.AmendKeepsRestIff | src/buffer.c:327 | the whole text behind the span is kept exactly if there is nothing but NULs from its first NUL on |
| ResultBuffer.AmendLeavesBehind | src/buffer.c:327 | what stood behind the NUL stays where it was, but for what the moved text covers |
| ResultBuffer.RunOfWrites | src/buffer.c:131-196 | however the output is cut into writes, the capacity is the least doubling of 4096 that holds it, and the characters copied by all growths are fewer than twice the output |
| ResultBuffer.WriteAll | src/buffer.c:156-196 | a fresh buffer to which pieces are written holds their concatenation, in the least capacity that doubling reaches, after copying fewer than twice its characters |
| ResultBuffer.LineEndStops | src/buffer.c:297-299 | the search for the end of a line stops at the first break, NUL or limit |
| ResultBuffer.WrapOneMore | src/buffer.c:312-336 | amending a line with cnt earlier highlights, at the shifted offset, yields the line with one more highlight |
| ResultBuffer.HighlightLine | src/thread.c:54-64 | one writeline and any number of amendments at ascending spans leave the old contents and then the line with exactly those spans wrapped |
| ResultBuffer.WrapShowsSpans | src/buffer.c:265-345 | a terminal that knows nothing of the codes but their meaning shows the wrapped line as the line itself, black on palette colour 220 in the given spans and standard everywhere else |
| ResultBuffer.SameLine | src/buffer.c:235-310 | the line that is highlighted is the line that writeline_buffer would write |
| ByteTrie.LinkedMore | src/util.c:20-33 | a new child below a node without one keeps the tree a tree, each node at the end of one path |
| ByteTrie.Trie.Init | src/util.c:9-18 | a missing root is created, an existing one is left as it is |
| ByteTrie.Trie.Walk | src/util.c:20-45 | the walk, for each combination of its flags in use, finds, adds or scans |
| ByteTrie.Trie.Insert | src/util.c:47-55 | the stored set gains exactly the target, null is returned exactly if it was there, and no node is made that the entries do not need |
| ByteTrie.Trie.Lookup | src/util.c:58-65 | a node is returned exactly for stored targets, and it is theirs |
| ByteTrie.Trie.Scan | src/util.c:68-75 | the node of the shortest stored prefix is returned, null exactly if there is none |
| ByteTrie.Trie.DestroyNode | src/util.c:77-85 | every node from here down is freed once, none before those below it |
| ByteTrie.Trie.Destroy | src/util.c:77-85 | every node of the tree is freed exactly once, children before their parent |
| ByteTrie.RedundantIff | src/util.c:68-75 | adding an entry changes no scan's outcome if and only if a prefix of it is stored already |
| Magic.MagicInit | src/magic.c:83-91 | after the loop the trie holds just the counted bytes of the rows beside what it held |
| Magic.MagicScan | src/magic.c:99-105 | the test of sixteen bytes is true exactly if the counted bytes of some row begin them, as trying the rows one after the other finds |
| Magic.NaiveScanStarts | src/magic.c:41-105 | trying the rows asks whether the counted bytes of some row are the first of the given ones |
| Magic.RowsAreNumbers | src/magic.c:6-76 | the counted bytes of each row, read as one number, are the constant that it stands for, and as many as that is written with |
| Magic.KnownIffNumber | src/magic.c:6-105 | sixteen bytes are known exactly if they begin with one of the constants |
| Magic.NaiveScanIff | src/magic.c:41-105 | trying the rows one after the other asks whether a prefix of the bytes is an entry |
| Magic.NoRowToSpare | src/magic.c:41-76 | no row is covered by the others: without it some scan would answer otherwise |
| LinkedList.InitListHead | src/util.h:42-46 | a head alone is the empty ring |
| LinkedList.Insert | src/util.h:48-56 | a link put between two neighbours yields the ring with it in that place |
| LinkedList.ListAdd | src/util.h:63-66 | the link becomes the first entry |
| LinkedList.ListAddTail | src/util.h:68-71 | the link becomes the last entry |
| LinkedList.ListEmpty | src/util.h:58-61 | the test says whether there is no entry |
| LinkedList.ForEach | src/util.h:79-82 | the traversal visits exactly the entries, in order |
| LinkedList.BothWays | src/util.h:42-71 | the k-th step forward reaches the k-th entry, the k-th back the k-th from the end, and both come back to the head |
| Ropes.StrNDup | src/buffer.c:41-45 | the copy is the longest prefix without NUL of at most the given length |
| Ropes.RopeBuffer.Write | src/buffer.c:114-119 | a piece is added behind the others |
| Ropes.RopeBuffer.BufDump | src/buffer.c:121-129 | the pieces are printed in the order of their writing, each with a line break behind it and nothing else |
| Ropes.LinesPrintAll | src/buffer.c:121-129 | the k-th piece stands after one character more than its length for each piece before it, a line break follows it, and nothing else is printed |
| Ropes.RopeBuffer.BufDestroy | src/buffer.c:102-112 | every rope is freed exactly once, in the order of the list |

## Left out

- The queue's threads and rings are values in a state that steps transform, not heap objects updated in place: aliasing of ring pointers appears only as ring numbers in publication order.
- Memory reclamation of rings, the hazard-pointer hooks, prefetching, CPU pinning, statistics and the benchmark harness of snippets/lcrq.c.
- Weak memory ordering: the helper primitives are headers that are not part of the repository's snippet, and are taken as sequentially consistent atomic steps.
- Liveness of the queue under contention; `LcrqEnds.EndsIff` is about a thread that runs alone.
- The prefilled initial queue (`FULL`); the queue starts empty.
- Counters of 2^63 and more, and values equal to the all-ones word, which the source cannot tell from an empty cell; `LcrqWord` ties the unbounded counters of the model to 64-bit words below that bound.
- LcrqTheorems.Fifo: across rings it carries the condition that head did not leave the earlier ring early, because with two threads the statement is false without it (`LcrqThreads.FifoFails`, `LcrqThreads.OrderIff`); `LcrqStranded.FifoIff` says exactly what holds then.
- LcrqTheorems.NoLoss: carries the same condition on the value's own ring (`LcrqThreads.ValueCanBeLost`, `LcrqStranded.LostIff`).
- LcrqLinearProof.RunsAreLinearizable: for a single run its condition is sufficient and not necessary (`LcrqThreads.LeavingMayGoUnnoticed`); over all runs of a queue `LcrqThreads.LinearizableIff` is exact.
- LcrqSequential.SequentialFifo: starts with an enqueue, exactly as `LcrqNoEnqueue.SerialIff` says it must.
- Worker.HitIsInItsLine: excludes patterns that contain a line break, whose matches span lines, and patterns that repeat their first character before the end, whose line numbers are right only as `Worker.LineNumbersIff` says.
- ResultBuffer.HighlightLine: takes the spans of one line at once; the worker passes `lastlinum` by value (src/thread.c:47-57), so its same-line branch is never reached there, and the function-static counters shared between threads are left out.
- ResultBuffer.Buffer.WritelineColorBuffer: asks for a span within the given length and lengths below 2^31, since the source keeps the loop index in an int and adds the offset as a 32-bit number.
- ResultBuffer.Buffer.AmendlineColorBuffer: the overlapping strcpy and memcpy of src/buffer.c:327-329 are taken as moves that do not disturb what they read, and a terminator that would fall behind the last character of the block is not written.
- ResultBuffer.RunOfWrites: sizes are unbounded, so doubling does not overflow.
- Empty patterns, texts of 2^31 bytes and more, and reuse of a table without `kmp_finish`.
- Lines of the search use unbounded numbers where the source has 32-bit ones.
- The varargs formatting of `writef_buffer`, option parsing, output, debug macros.
- File, directory, pipe, mmap, poll, mutex and thread-creation code, and the read that fills the sixteen bytes of `magic_scan`.
- Inner nodes of the rope tree (`rope_join`, `rope_tear`), which no caller builds.
- The older copies of the trie, the worker and the file code under snippets/.
- ByteTrie.Trie.Destroy: `free` is modelled by the list of what is freed; using the tree afterwards is not excluded by the model.
