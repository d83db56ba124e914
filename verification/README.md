# Models of the Plan 9 tools for Unix

Models, with proofs, of the programs and libraries of this repository whose correctness is least visible in
their text: the parser generator yacc and the parser it writes, the queueing locks of lib9, the memory pool of
lib9, sort, join, the line clipper of libXg, cleanname, the arithmetic of dc and the line store of ed.

`dafny verify dfyconfig.toml` verifies all of it.

- **yacc** (`yacc_*.dfy`). From a grammar and its precedences to the arrays of the parser: `cempty`, `cpfir`,
  `closure`, `stagen` and `state`, `output` with its conflicts, `wract`, `go2gen`, `go2out`, `apack`, the table
  optimizer `callopt`, and the driver `yyparse` as it stands in `units.c`. `YaccWhole.Yacc` composes them: for
  every grammar, the packed parser makes on every token stream exactly the moves of the uncompressed tables; what
  it accepts without an error is a sentence of the grammar; the lookaheads are those of LALR(1), defined apart from
  the program as a least relation; and for an LALR(1) grammar no conflict is reported and every sentence is accepted.
- **Queueing locks** (`qlock*.dfy`). A state machine for any number of threads, with an invariant that every step
  keeps; mutual exclusion, first come first served, no lost wakeup, and that handing over ends. The critical
  sections are then proved, on the slot array and its links, to do what the steps of the machine say.
- **The pool** (`pool_*.dfy`). Blocks, arenas, the free tree with its rings, merging of blocks and of arenas,
  `poolallocl`, `poolfreel` and `poolreallocl`. What a caller sees is the map from each live block to its bytes;
  every operation is stated on that map. `p->merge` may answer what it likes for arenas that lie in order.
- **sort** (`sort_*.dfy`). What `dokey_gn` writes for a number, exactly when the bytewise order of the keys is the
  order of the numbers, keys of any number of text and number fields, the radix sort in place, and the merging of
  temporary files with and without `-u`.
- **join** (`join.dfy`). Both merge loops against the nested-loop join, with the exact condition under which
  `seek1` does not end.
- **clipline** (`clipline.dfy`). The pixels of a line are defined as the points nearest to the real line; clipping
  keeps exactly those in the rectangle.
- **cleanname** (`cleanname.dfy`). Names are given their meaning by walking a tree; the rewriting in place keeps
  the meaning and decides equality of meanings.
- **dc** (`dc*.dfy`). `add`, `mult`, `chsign` and `add0` on blocks of digits in base 100, against the integers.
- **ed** (`ed*.dfy`). The lines in the temporary file behind two block buffers, with the exact set of lines that
  are lost, and the `m` command.

## Model

| member | source | states |
|---|---|---|
| YaccWhole.Yacc | cmd/yacc.c:376-392 | for every grammar on which no table overflows and whose nonterminals all derive some token string: the states are exactly the kernels reachable from that of $accept; on every token stream, for any number of steps, the packed parser is in the configuration of the uncompressed tables, its stack a path of the automaton; what it accepts without an error is a sentence; errors are counted, recovered from and given up as the rows below say; no state has a lookahead that LALR(1) does not ask for, and unless a state that goes to itself has in its closure a production from which nothing moves on, none is missing; if the grammar is LALR(1), no conflict is reported and, with the same proviso, every sentence is accepted that the stack has room for; if no conflict is reported, the declared levels have decided all there are, and without declared levels the grammar is LALR(1) |
| YaccLooks.JustIsLalr | cmd/yacc.c:933-1005 | whatever marks were overwritten, every lookahead of every item in every state belongs to every relation that is closed as LALR(1) asks: none is made up |
| YaccLooks.SentIsLalr | cmd/yacc.c:933-1005 | when all lookaheads have been handed on, the states have every LALR(1) lookahead: with the row above, exactly these |
| YaccLalr.LookIsLalr | cmd/yacc.c:1011-1120 | from a kernel with LALR(1) lookaheads, closure computes LALR(1) lookaheads |
| YaccSound.AcceptedIsSentence | cmd/units.c:826-1101 | if the parser accepts without having counted an error, a parse tree of $accept yields exactly the tokens it has read: no string outside the language is accepted, whatever conflicts were decided and however |
| YaccSound.StackAtEnd | cmd/units.c:900-913 | when the accepting state is on top, the stack holds the one tree of the start symbol and nothing else |
| YaccComplete.SentenceIsAccepted | cmd/units.c:826-1101 | if every state hands its lookaheads on and every row shifts where the automaton moves and reduces under every lookahead, the parser reads every sentence to its $end and accepts it without an error, or its stack is full |
| YaccComplete.ParseNode | cmd/units.c:879-976 | by the tree of a symbol behind the dot: its tokens are read and the stack grows by the one state the symbol leads to, with default reductions taken before or after the next token is seen |
| YaccRecovery.ErrorsAreRecovered | cmd/units.c:879-976 | at every step of every run of the packed parser: errflag is 3 less the tokens shifted since the last error, not below 0, and 0 if there was none; nerrs is the number of steps at which an error was met with errflag 0; at an error with errflag below 3 the stack is cut back to the uppermost state that shifts the error token, which is pushed, and the parser gives up exactly if there is no such state or no room; at an error with errflag 3 the next token is thrown away, or the parser gives up, exactly if that is $end; a token is used up by a shift or so, by nothing else; and the input is accepted exactly where the row accepts |
| YaccRecovery.FlagCounts | cmd/units.c:891-944 | errflag by the history of the run: the tokens shifted since the last error |
| YaccRecovery.ErrorsCounted | cmd/units.c:921-944 | nerrs by the history of the run |
| YaccViable.PackedParserIsExact | cmd/units.c:826-1101 | every run of the driver over the packed arrays is, configuration by configuration, the run over the action and goto matrices they were made from, whatever the input, errors and recovery included |
| YaccViable.ReduceFindsGoto | cmd/units.c:932-976 | a reduction never pops more than is on the stack, and the state it exposes has a goto on the left side, because what is on the stack spells the right side |
| YaccFirst.Cempty | cmd/yacc.c:866-927 | no complaint exactly when every nonterminal is the root of a parse tree; then a nonterminal is marked EMPTY exactly when it derives the empty string |
| YaccFirst.Cpfir | cmd/yacc.c:716-761 | the set of a nonterminal is exactly the tokens that begin a string derived from it |
| YaccClosure.WorkSet.Closure | cmd/yacc.c:1011-1120 | the working set is exactly the least closed set of items above the kernel, and each item's lookaheads the least sets closed under LR(1) propagation; failure only when the working set is full |
| YaccKernels.SortKernel | cmd/yacc.c:774-796 | the exchange sort leaves the same items, in increasing order |
| YaccKernels.SameItemsSameSet | cmd/yacc.c:798-819 | comparing sorted kernels entry by entry decides whether they are the same set of items |
| YaccStates.NewOnChainIsNew | cmd/yacc.c:798-805 | a kernel that is on no chain entry of its own symbol is no kernel of any state: searching one chain is enough |
| YaccStates.Lalr.State | cmd/yacc.c:767-840 | the kernel is registered under its state number once, its lookaheads are merged in, and the states that have to be done again are marked; handed LALR(1) lookaheads, the states keep to LALR(1) lookaheads; it fails exactly when the kernel is new and there is no room, or lookups may not add states |
| YaccStagen.Stagen.Generate | cmd/yacc.c:933-1005 | when the loop ends every state has been expanded: each goto of its closure is the kernel of a recorded state, and the gotos on nonterminals can be read at its offset in the overlaid array |
| YaccStagen.KernelsAreReachable | cmd/yacc.c:933-1005 | the recorded kernels are exactly the reachable ones |
| YaccStagen.KernelsAreDistinct | cmd/yacc.c:767-840 | no two states have the same kernel |
| YaccStagen.LooksFinished | cmd/yacc.c:967-990 | when the loop over a state's working set ends, and the state has not been marked to be done again, every lookahead of every item has been handed on to the kernel it moves to |
| YaccStagen.BareFinished | cmd/yacc.c:967-990 | by then the state is marked for output, or to be done again, if an empty production is in its closure |
| YaccStagen.LooksDoneStep | cmd/yacc.c:957-1003 | doing one state keeps that of all others: those whose lookaheads grew are marked, the rest have handed theirs on |
| YaccApack.Overlay.Apack | cmd/yacc.c:2219-2267 | the row is written at the least offset where it fits, and nothing else changes; it can be read there, and so can every row packed before; failure only when it fits nowhere |
| YaccOutput.OutputRow | cmd/yacc.c:2143-2170 | the row of a state has a shift or goto on exactly the symbols the automaton moves on, each to the state the automaton moves to; looking a shift's kernel up again never fails, though lookups add no state |
| YaccConflicts.Precftn | cmd/yacc.c:2381-2412 | the entries of other tokens stay; the shift stays exactly if one side has no level, the token's level is higher, or the levels tie without being left or binary; the entry becomes the reduction exactly if the production's level is higher, or they tie to the left, and the error action exactly if they tie under binary; the conflict is counted exactly if one side has no level |
| YaccConflicts.WordIsRead | cmd/yacc.c:105-113 | associativity and level are read back from the word they were put into, whatever flags and type are there too |
| YaccConflicts.EarliestWins | cmd/yacc.c:2174-2199 | whatever order the items of the closure are in, among reductions the production that comes first in the grammar wins, and the entry is empty exactly if none asks for the token |
| YaccConflicts.ShiftStands | cmd/yacc.c:2174-2199 | a shift stands exactly when precedence decides none of the reductions on its token against it; an order of several conflicts cannot bring it back |
| YaccConflicts.DecidedAlone | cmd/yacc.c:2174-2199 | where nothing competes for a token, its entry is the shift, or the one reduction that is asked for |
| YaccConflicts.Reductions | cmd/yacc.c:2174-2199 | the loop decides every entry as said; the reduce/reduce counter is the number of times an item asks for a token that an earlier item has asked for when it was free or has won from the shift; the shift/reduce counter the number of times an item asks for a token that is still shifted and on which the levels are silent |
| YaccConflicts.BeatenIsNegative | cmd/yacc.c:2174-2199 | an entry is a reduction exactly if some item asked for the token when it was free or had the precedence to win it; it is a shift or the error action exactly if there was a shift that no item has won |
| YaccConflicts.QuietIsSettled | cmd/yacc.c:2174-2199 | where no conflict is counted, a free token is asked for once at most, and a shift meets only reductions on which the levels speak, none of them behind one that has won |
| YaccWhole.UncontestedIfLalr | cmd/yacc.c:2153-2199 | in a state in which the grammar has no LALR(1) conflict no two actions compete for a token |
| YaccWhole.ArbitratedIfQuiet | cmd/yacc.c:2153-2199 | in a state in which no conflict is counted the declared levels decide every LALR(1) conflict of the grammar, and no two of its reductions win from one shift |
| YaccWhole.OutputCovers | cmd/yacc.c:2153-2156 | the lookaheads that output has for the complete items of a state are exactly those of the state, though it recomputes them only for the states that are marked for it |
| YaccAction.Wract | cmd/yacc.c:2419-2486 | shifts, default and exceptions encode the row: the driver's default section reads every entry back; the default is a most frequent reduction, and none in a row that shifts error |
| YaccAction.ChunkInTable | cmd/units.c:890-917 | searching the concatenated exception table finds the chunk of the state that is asked for |
| YaccGotos.GotoIffKernelReaches | cmd/yacc.c:2325-2372 | a state has a goto on a nonterminal exactly when its kernel has an item before a nonterminal with that left corner: go2gen's filter is exact |
| YaccGotos.Go2gen | cmd/yacc.c:2325-2372 | the column read out of the overlaid array is the automaton's goto function on the nonterminal |
| YaccGotos.Go2out | cmd/yacc.c:2273-2319 | default and exceptions give the column back, and the default is its most frequent state |
| YaccPack.OverlaidRowsAreEqual | cmd/yacc.c:2761-2822 | a row found in full at the offset of a placed row of the same length is that row, so sharing the offset is sound |
| YaccPack.Optimizer.Stin | cmd/yacc.c:2761-2822 | the row is written at the first acceptable offset, nothing else is written, and all rows placed before stay readable; failure only when no offset is acceptable |
| YaccPack.Optimizer.Gin | cmd/yacc.c:2719-2758 | the goto row is written at the first place where all its cells are free; failure only when there is none |
| YaccPack.Optimizer.Nxti | cmd/yacc.c:2828-2849 | the row placed next is a heaviest one of those left, a state before a nonterminal, and the last of them; rows weigh their cells and twice their largest index |
| YaccPack.Optimizer.WeighRows | cmd/yacc.c:2649-2668 | the weights of the shift rows, and the largest of their least indices as the offset worth trying |
| YaccPack.Optimizer.WeighGotos | cmd/yacc.c:2671-2686 | the weights of the goto rows, and their largest index as an offset worth trying too |
| YaccPack.Optimizer.CallOpt | cmd/yacc.c:2602-2716 | every nonempty row is placed, and each can be told from the others by the accessing symbols of its targets |
| YaccOutput.AccessingSymbols | cmd/yacc.c:410-417 | walking the chains gives every state the symbol it is entered on |
| YaccDriver.ShiftLookupExact | cmd/units.c:879-889 | the driver's shift test succeeds on the packed arrays exactly for the entries of the state's own row |
| YaccDriver.GotoLookupExact | cmd/units.c:962-976 | the driver's goto test yields an exception's target where there is one and the default elsewhere |
| YaccTables.LookupsFollowAutomaton | cmd/units.c:879-976 | read off the packed arrays, gotos are those of the automaton; a shift is found exactly where the action row has one, it goes where the automaton goes, and where the automaton goes on a token it is missing only if the row has another action for the token |
| QLockModel.StepKeeps | lib9/qlock.c:29-231 | every step of every thread keeps the invariant that ties the counts, the queue, the slots and the threads in transit together, and by which every slot in use has a holder |
| QLockModel.InUseIsHeld | lib9/qlock.c:29-231 | in every reachable state a slot is in use exactly if another lock has it or some thread that has not yet cleared its mark: no slot is lost |
| QLockModel.OutOfSlotsHeld | lib9/qlock.c:29-46 | in every run, a call aborts for want of a slot only if all slots but the last one taken are really held |
| QLockModel.MutualExclusion | lib9/qlock.c:111-231 | in every reachable state, a writer is inside alone |
| QLockModel.AbortsUnreachable | lib9/qlock.c:140-231 | the aborts of runlock and wunlock are never reached |
| QLockModel.QueueHasReason | lib9/qlock.c:111-231 | someone waits only while a writer has the lock or is being handed it, readers are being let in, or readers have it and a writer is first in line |
| QLockModel.GrantsFollowArrivals | lib9/qlock.c:111-231 | in every reachable state the grants so far are an initial part of the arrivals, and the queue is exactly the rest |
| QLockModel.ArrivalsAreCalls | lib9/qlock.c:111-192 | the arrivals are the calls of rlock and wlock, each recorded when it is made |
| QLockModel.GrantsAreGiven | lib9/qlock.c:111-231 | a grant is recorded exactly when a thread comes to have the lock, and to that thread |
| QLockModel.SlotsStayTaken | lib9/qlock.c:29-46 | while a thread waits, its slot stays its own, whatever this lock or another does |
| QLockModel.InternalStepsEnd | lib9/qlock.c:195-231 | every step of handing over decreases a measure: handing over ends |
| QLockModel.OnTheWayMoves | lib9/qlock.c:140-231 | a thread that wakes another or has been called can always move: handing over never deadlocks |
| QLockModel.NoLostWakeup | lib9/qlock.c:111-231 | when handing over has ended and nobody is inside, nobody waits and the lock is free |
| QLockModel.QLockIsWriters | lib9/qlock.c:49-108 | qlock, qunlock and canqlock are the writers' half of the read-write lock |
| QLockSections.Slots.GetQlp | lib9/qlock.c:29-46 | the slot taken is free and not the last one taken, and every slot between them, going round, is in use; none is taken exactly if all slots but the last one taken are in use |
| QLockModel.FirstFree | lib9/qlock.c:29-46 | the same of the machine's slots |
| QLockModel.EarlierIsNearer | lib9/qlock.c:29-46 | earlier, in that, is nearer to the last slot taken, counted round |
| QLockModel.OutOfSlots | lib9/qlock.c:111-192 | rlock and wlock abort for want of a slot exactly if they have to wait and all slots but the last one taken are in use |
| QLockSections.RWLock.RLockSection | lib9/qlock.c:111-137 | on slots and links, the section does what the machine's step does: granted at once, queued in the slot returned, or out of slots |
| QLockSections.RWLock.WLockSection | lib9/qlock.c:165-192 | the same for writers |
| QLockSections.RWLock.RUnlock | lib9/qlock.c:140-162 | the last reader out unlinks the head and hands the lock to the writer in it |
| QLockSections.RWLock.WUnlock | lib9/qlock.c:195-231 | the writer going out hands the lock to a writer, or starts letting readers in, as the machine does |
| QLockSections.RWLock.LoopTrip | lib9/qlock.c:217-228 | each round of the loop lets the reader at the head in, and the loop ends at a writer or an empty queue |
| PoolTree.BestFitIsBest | lib9/pool.c:276-294 | the block found is a smallest one that is big enough; none is found exactly if none is big enough |
| PoolFree.FreeTree.Treedelete | lib9/pool.c:246-272 | the links represent the tree without its top node, and no link outside it changes |
| PoolFree.FreeTree.Pooladd | lib9/pool.c:344-363 | tree and rings represent the free blocks with the new one in the ring of its size |
| PoolFree.FreeTree.Pooldel | lib9/pool.c:367-391 | tree and rings represent the free blocks without the one taken out, be it head of its ring or not |
| PoolSizes.MallocIsSane | lib9/malloc.c:20-33 | the sizes of malloc's own pool, no least block and a quantum of 32, meet what the proofs require of a pool |
| PoolSizes.UlongIsExact | lib9/pool.c:397-405 | in the arithmetic of ulong, dsize2bsize gives the size meant exactly if the size with header, tail and quantum fits |
| PoolSizes.BlockSizeIsLeast | lib9/pool.c:397-405 | the size of a block is the least multiple of the quantum that holds header, data and tail and is no less than a least block |
| PoolSizes.ArenaSizeIsLeast | lib9/pool.c:407-415 | the size of an arena is the least multiple of the quantum above what the block needs and above a least arena |
| PoolBlocks.Pool.Blockmerge | lib9/pool.c:420-447 | the two blocks become one of both sizes; the bytes of a live block among them are not touched |
| PoolBlocks.Pool.Kemb | lib9/pool.c:499-523 | the block is trimmed to what its data need exactly if what is left over is worth it or too big for the tail's 16 bits; it keeps its bytes, and its tail can tell the size; what is cut off is free |
| PoolBlocks.Pool.LiveApart | lib9/pool.c:476-523 | live data never overlap and end before their block's tail |
| PoolBlocks.Pool.ArenaTiled | lib9/pool.c:543-596 | walking an arena by block sizes meets exactly its blocks, which with header and tail make up its size; merged arenas too |
| PoolBlocks.Pool.AccountsBalance | lib9/pool.c:902-1029 | without merged arenas, curalloc and curfree are the sums over live and free blocks, and no byte of any arena is unaccounted for |
| PoolArenas.Arenamerge | lib9/pool.c:601-660 | for either answer of p->merge the pool stays well formed and no live byte changes; two arenas become one |
| PoolArenas.Poolnewarena | lib9/pool.c:543-596 | fails exactly when the limit or the system refuses; otherwise the arena is in its place in the list, joined with the one above and the one below as p->merge says, a request it was made for fits, and no live byte has changed |
| PoolAlloc.Poolallocl | lib9/pool.c:902-925 | nil exactly when the request is absurd or no block fits and no arena can be had, and then nothing has changed; otherwise a new live block of the size asked for, disjoint from all others, which keep their bytes; a best fit when one was free |
| PoolAlloc.Poolfreel | lib9/pool.c:1007-1029 | the block is gone, every other live block keeps its bytes, and no two free blocks become neighbours |
| PoolBooks.FreedCoalesced | lib9/pool.c:1007-1029 | freeing with both neighbours absorbed leaves no two free blocks side by side if there were none |
| PoolRealloc.Poolreallocl | lib9/pool.c:929-1003 | for every size for which dsize2bsize does not wrap round: a block of the new size with the old bytes as far as both reach, in place if it fits; all other blocks keep theirs; nil exactly when the block cannot grow over its free neighbours, and the size is absurd or no free block fits and no arena can be had, and then nothing is lost |
| SortNumeric.SortedIsNumeric | cmd/sort.c:1003-1200 | lines sorted by the keys of dokey_gn are in the order of the numbers in them, backwards under -r |
| SortDokey.NumericKeysEmbedOrder | cmd/sort.c:1003-1200 | kcmp on the keys of two fields is the comparison of their numbers exactly if the places of the two points, as far as two bytes hold them, are in order, as they are when they fit; neither key is ever a proper prefix of the other |
| SortDokey.DokeyGn | cmd/sort.c:1003-1200 | for every field, the automaton, working in place on the key, appends exactly the key of the number that the field means, with the place of the point cut to two bytes |
| SortDokey.FoundIsParsed | cmd/sort.c:1021-1163 | the automaton finds the number that a grammar of numerals, defined apart from it, gives the line |
| SortPrinted.PrintedIsParsed | cmd/sort.c:1021-1163 | character by character: blanks, a sign, blanks, digits, a point, digits and under -g an exponent, written with the ten figures, are read as the number that was written, whatever follows that cannot continue it |
| SortPrinted.EveryTextIsPrinted | cmd/sort.c:1021-1163 | there is no other text: every text is a number so written, possibly empty, and something that does not continue it |
| SortPrinted.PrintedInOrder | cmd/sort.c:1003-1200 | the keys of written numbers compare as the numbers, with the condition on their places |
| SortDokey.NormalizedIsEqual | cmd/sort.c:1021-1163 | dropping leading and trailing zeros and moving the point keep the value |
| SortKey.KeysAreOrdered | cmd/sort.c:489-501 | the keys of two normalized numbers compare as the numbers exactly if the places of their points have not been wrapped round into another order |
| SortKey.PlaceIsLost | cmd/sort.c:1195-1199 | numbers whose points are 0x10000 places apart and whose digits are the same have the same key |
| SortKey.KeysArePrefixFree | cmd/sort.c:1003-1200 | no numeric key is a proper prefix of another |
| SortKey.FieldsInOrder | cmd/sort.c:1377-1440 | keys written one after the other compare field by field |
| SortFields.JoinedInOrder | cmd/sort.c:1377-1440 | the keys of whole lines, of any number of fields, compare by the first field in which they differ, and neither is a proper prefix of the other |
| SortFields.LineKeysAreGood | cmd/sort.c:1377-1440 | lines with the same text and number fields have keys that are fit for sort4: bytes, and none a proper prefix of another |
| SortFields.SortedByFields | cmd/sort.c:1377-1440 | lines sorted by such keys are in the order of the first field in which they differ |
| SortFields.TextInOrder | cmd/sort.c:1332-1372 | the keys of text fields compare byte by byte, a text before those that go on from it, or backwards under -r |
| SortFields.Buildkey | cmd/sort.c:1377-1440 | field by field, in place, the keys of all fields are written one after the other in the room asked for |
| SortNumeric.NumericKeysAreGood | cmd/sort.c:1578-1584 | numeric keys meet what sort4 needs, whatever the numbers: bytes, and none a proper prefix of another |
| SortRadix.Bsort4 | cmd/sort.c:1698-1752 | the insertion sort sorts keys that share b bytes though it compares only the rest |
| SortBuckets.HasRoom | cmd/sort.c:1645-1671 | in the cycles of rsort4 there is always a place left in the region of the key in hand |
| SortBuckets.RestIsFilled | cmd/sort.c:1645-1671 | when the cycles of all byte regions are done, the region of the ended keys is filled too |
| SortRsort.Sorter.Rsort4 | cmd/sort.c:1587-1691 | the range is sorted and a permutation of what it was, nothing outside it changes, and the counters are zero again |
| SortRsort.Sort4 | cmd/sort.c:1578-1584 | the lines are sorted by their keys and permuted |
| SortMerge.Mergefiles | cmd/sort.c:410-486 | runs become one sorted run of all their lines; under -u one line of each key, and every key; the lines are read from the runs, each in its order, and what is written is what is read, less the lines with the key of the last one written under -u |
| SortMerge.FirstIsWritten | cmd/sort.c:449-460 | under -u the line that is kept of a key is the first that is read |
| SortMerge.AllWritten | cmd/sort.c:449-460 | without -u every line that is read is written, in that order |
| SortMerge.Mergeout | cmd/sort.c:381-407 | the same for any number of files, ten at a time |
| Join.Seek2 | cmd/join.c:165-206 | each pair of lines with equal keys is printed once, each unmatched line once if asked for, and nothing else; the keys of the rows never decrease; the pairs are in the order of the nested-loop join and the unmatched lines in the order of their files |
| Join.Seek1 | cmd/join.c:208-249 | ends exactly when the last key of file 1 does not occur in file 2; then each pair of lines with equal keys is printed once, in the order of file 2, and each unmatched line once if asked for, and the keys of the rows never decrease; otherwise the first loop of some group goes round for ever, after rows whose keys never decrease |
| Join.First1 | cmd/join.c:216-228 | the loop that does not test the end of file 1, followed to its end; it is endless exactly when its guard holds after every number of rounds |
| Join.EndlessWhen | cmd/join.c:216-228 | the guard of that loop holds for ever exactly when the key of the group is the last of file 1 |
| Join.ScanForever | cmd/join.c:216-228 | what the endless loop prints: one line of file 2, again and again |
| Join.NestedCount | cmd/join.c:165-249 | the nested-loop join has every pair of lines with equal keys exactly once |
| ClipLine.ClipLine | libXg.1/clipline.c:143-224 | a pixel is lit by the line and in the rectangle exactly when it is on the clipped segment; the answer is no exactly when there is no such pixel; the new ends are such pixels; the new ends are in the order of the old ones from the left, or of the old ones themselves if neither is to the left |
| ClipLine.LitIsRounded | libXg.1/clipline.c:14-64 | in the reals: a pixel is lit exactly if it is on the half-open range of the steeper direction and is the point of the line there, rounded, halves going up where the line rises and down where it falls |
| ClipLine.ClipLoop | libXg.1/clipline.c:151-224 | the same in major and minor coordinates, with a bound on the pushes that makes the guard against more than ten unreachable |
| ClipLine.Push | libXg.1/clipline.c:165-205 | an outside end is moved to an edge along the line, over no pixel inside |
| ClipLine.GsetLine | libXg.1/clipline.c:80-126 | the line is described by the octant and the deltas of its ends, its minor coordinates are exactly the pixels of the line, and the excluded end is moved one pixel in |
| ClipLine.Gmajor | libXg.1/clipline.c:67-77 | the least major coordinate with the given minor one: the inverse of gminor |
| ClipLine.UpUnique | libXg.1/clipline.c:57-64 | the minor coordinate is the only integer nearest to the line, halves going one way |
| ClipLine.LCeilSpec | libXg.1/clipline.c:40-54 | the quotient rounded up, for either sign |
| ClipLine.LFloorSpec | libXg.1/clipline.c:23-37 | the quotient rounded down, for either sign |
| CleanName.Cleanname | lib9/cleanname.c:9-52 | in place, never longer than the name, NUL-terminated, and nothing behind the name is written; the result is the normal form, which is never empty: a dot, a slash, or elements with single slashes between them, none of them empty or a dot, with .. only in front and never after a leading slash |
| CleanName.CleanIsTidy | lib9/cleanname.c:9-52 | the same of the normal form of any name |
| CleanName.CleanIsShortest | lib9/cleanname.c:9-52 | no name that leads to the same place from everywhere is shorter |
| CleanName.CleanResolves | lib9/cleanname.c:9-52 | the clean name leads to the same place from every directory |
| CleanName.CleanIsIdempotent | lib9/cleanname.c:9-52 | cleaning a clean name changes nothing |
| CleanName.CleanDecides | lib9/cleanname.c:9-52 | two names have the same clean name exactly when they lead to the same place from every directory |
| Dc.Add | cmd/dc.c:1756-1803 | the sum, for operands of either sign; without superfluous top digits exactly when the sum is not -1, which comes out as [99, -1] |
| Dc.Mult | cmd/dc.c:1329-1384 | the product, canonical if the factors are |
| Dc.Blk.Chsign | cmd/dc.c:1387-1419 | the value is negated in place |
| Dc.Add0 | cmd/dc.c:1306-1326 | multiplication by a power of ten |
| DcNumber.CanonicalUnique | cmd/dc.c:1756-1803 | a value has one canonical block of digits |
| DcNumber.NegateTwice | cmd/dc.c:1387-1419 | chsign twice gives a canonical block back, digit for digit |
| DcNumber.StrippedIsExact | cmd/dc.c:1785-1801 | taking off zeros and nines keeps the value and is canonical exactly if the value is not -1 |
| Ed.Editor.Putline | cmd/ed.c:1016-1043 | fails exactly when the line reaches past the last block; an earlier line is held afterwards exactly if its runes and its NUL are found once the block of tline is brought in, that is, unless that block may not be written and the line has a cell in it; the ghost set lost is exactly the lines so hit since init; linebp is left behind the newline if the line has one, and alone otherwise |
| Ed.Editor.Getline | cmd/ed.c:996-1013 | every line that is not lost is got back, NUL included, whatever has been put or got since; no rune of the store changes, and the line's last block is left in a buffer |
| Ed.Editor.Getblock | cmd/ed.c:1055-1087 | the two buffers and the file are used as the store function says, and the pointer and nleft are right |
| Ed.Editor.Init | cmd/ed.c:1090-1108 | an empty store in which nothing is lost |
| Ed.KeepLines | cmd/ed.c:1016-1043 | the same for one step of the history: the lines held afterwards are those held before less those with a cell in an unwritable block of tline, and none is lost while tline is not behind the block being written |
| EdStore.SparedIsHeld | cmd/ed.c:1055-1087 | whatever is put, an earlier line is held afterwards exactly if it is spared |
| EdStore.SparedIsUnhit | cmd/ed.c:1055-1087 | in every reachable state, spared is: held before and not hit, with no condition on the text that is put |
| EdStore.HitIsAnyCell | cmd/ed.c:1055-1087 | a line is hit exactly if the block of tline may not be written and holds some cell of the line |
| Ed.LoseLine | cmd/ed.c:1016-1087 | a session, from a new store, after which a line is lost |
| EdMove.Move | cmd/ed.c:1345-1385 | three reversals move the block behind the line given, forwards and backwards; refused exactly when that line is inside the block |
| EdMove.MoveIsPermutation | cmd/ed.c:1345-1385 | no line is lost and none is made |
| EdMove.DotIsMoved | cmd/ed.c:1345-1385 | dot is the last line of the block, and where no change is reported only marks are cleared |
| EdMove.MarkIsCleared | cmd/ed.c:1363-1366 | a line number with its mark or without is the same number unmarked |
| EdMove.MoveBack | cmd/ed.c:1345-1385 | moved down and then up again, the block stands as before |
| EdMove.MoveOnAgain | cmd/ed.c:1345-1385 | and the other way round: moved up and then down again |

## Findings

Five places where the code does not do what is promised; each is proved with its exact condition.

- `seek1` of join (cmd/join.c:220) tests the wrong counter in the loop over the group's first line: it goes on while
  there is a line of file 2, not of file 1. It runs for ever exactly when file 1 is not empty and its last key
  occurs in file 2 (`Join.Seek1`, `Join.EndlessWhen`); `Join.StuckExample` is two files of one line each.
- `add` of dc (cmd/dc.c:1785-1801) strips a top 99 under a -1 only while there is a digit below it: the sum -1 is
  left as the two digits [99, -1] instead of [-1], and -1 is the only sum so left (`Dc.Add`). The value is right.
- `putline` of ed (cmd/ed.c:1016-1043) leaves `tline` where it was when the temporary file is full, but the writing
  buffer is then one block ahead. The next line is put into the buffer of the wrong block, and every earlier line
  with a cell in the block of `tline` is lost, unless `getline` has that block in the reading buffer
  (`Ed.Editor.Putline`, `Ed.LoseLine`). No line is ever lost as long as no `putline` that began in the last block
  but one has failed; that is part of what holds in every state (`Ed.Editor.Valid`).
- the numeric keys of sort (cmd/sort.c:1195-1199) keep two bytes of the place of the point. With exponents that large
  the place wraps round: numbers whose points are 0x10000 places apart, and whose digits are the same, get one key
  (`SortKey.PlaceIsLost`). Two keys compare as their numbers exactly if the places as cut off are in order
  (`SortKey.KeysAreOrdered`); that is so whenever both fit.
- `poolreallocl` (lib9/pool.c:929-948) does without the test by which `poolallocl` refuses sizes of 0x80000000 and
  more, so a size near 2^32 wraps round in `dsize2bsize` (lib9/pool.c:397-405) and the old block seems big enough.
  The size comes out right exactly if it fits with header, tail and quantum (`PoolSizes.UlongIsExact`);
  `PoolSizes.GreatestSizeWraps` is a size for which malloc's pool gets a block of 32 bytes.

One place where the code is more careless than harmful: the scan of `cempty` for production 0 runs on into
production 1, because production 0 ends in 0 and not in a negative number; the nonterminal it would mark is skipped.

## Left out

yacc:

- YaccWhole.Yacc: when a table overflows, ok is false and nothing is said. That no lookahead is missing, and the acceptance of every sentence, are not stated for automata with a state that goes to itself and has in its closure a production from which nothing moves on: there the mark for output (cmd/yacc.c:977) may take the place of the mark that the state has to be done again, and lookaheads may be missing. Which sentences are accepted is not stated where actions competed for a token and precedence or order decided.
- YaccPack.Optimizer.Gin: the code lets a search end one past the array's last cell, and stin probes past both ends; the model takes both as overflow.
- the reader of grammars, actions and unions, the description of states in y.output, hideprod, the token translation tables
- fatal errors are results that say not ok; the sharing of equal lookahead sets by flset, and its limit, are not modelled
- some tables that the code keeps in global arrays are fields of type `seq`, or local variables

Queueing locks:

- a rendezvous is one step of two threads; the lock of a critical section is implied by its being one step
- threads of other locks appear only as the slots they take and free
- getqlp is one step. In the code `ql.p` is shared by all locks and is not under the lock of any (lib9/qlock.c:29-46); only the `_tas` on inuse is atomic, so calls for different locks may interleave in the scan.

The pool:

- PoolRealloc.Poolreallocl: requires that dsize2bsize does not wrap round, with a ulong of 32 bits; what a caller gets when it does is not stated beyond the size computed.
- PoolBlocks.Pool.AccountsBalance: not with merged arenas, where the code keeps neither the counters nor the absence of free neighbours.
- compaction and `move`, poolmsize, poolcheck, the antagonism and paranoia flags, logging, locks of the pool
- the links between arenas are a sequence; bytes that the code clobbers get arbitrary values; while a block is trimmed its header is shown as unkempt
- the order of a few stores within one routine

sort:

- SortNumeric.SortedIsNumeric: for lines whose points fit their two bytes; without that, see SortKey.KeysAreOrdered.
- the exponent and the place of the point are mathematical integers until the place is cut to two bytes
- keys of months and of text that is folded or filtered (dokey_m, dokey_dfi), the choice of the fields by skip, options, reading and writing of temporary files
- SortFields.Buildkey: the key has room for all fields; the code makes room as it goes. Text has no NUL.

join:

- a key is an integer, its place in the order of runecmp; splitting into fields and the layout of the output

clipline:

- mathematical integers for C longs; drawing itself

cleanname:

- CleanName.Cleanname: an empty name needs room for two characters, as the code writes a dot.

dc:

- Dc.Add: the operands are different blocks, as at every call; so are those of Dc.Mult.
- Dc.Add0: the number of zeros is not negative.
- division, square root, exponentiation, number conversion, the interpreter and its storage management

ed:

- input and output errors other than the end of the temporary file; marks, regular expressions, and all commands but the moving of lines
