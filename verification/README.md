# Verified models of the System V commands in `src/5cmd`

A Dafny model of the algorithms inside eleven commands of DYNIX 3.2.0, with proofs of what
each is for. `dafny verify dfyconfig.toml` checks all of it. Arrays, tables and loops are
those of the sources; input and output files are sequences of bytes, lines or records.

- **pack, unpack** (`Sums` to `RoundTrip`): a Huffman coder with a heap in place, a tree of
  parent links, canonical codewords and a bit stream with an overhang of four bytes. The code
  is optimal, the header fields fit, and every packed text is unpacked again. The tree may
  have 24 levels; the comment at `pack.c:248` says that fewer than 2**24 bytes are always
  enough for that, and the code disagrees: of every size from 196417 bytes on some text is
  refused, and of no smaller one. The 25 counters of levels are overrun for just those texts.
- **join** (`JoinRelation`, `Join`): a merge join that rewinds the second file, against the
  nested-loop join.
- **init** (`ProcTable` to `Init`, `Throttle`, `Utmp`): the process table under run levels, the
  restart limit, and the utmp file. The environment of a run is a list of batches of events and
  of outcomes of `fork`; a run ends where it would wait for more, and each round may find
  another inittab. Deaths and signals arrive while the table is scanned, around every `fork`,
  at every `pause`, between the test of the wakeup word and the `pause` of the main loop, and
  between the readings of the level a signal asked for. Nothing holds them back there: a
  process that has to be kept alive may die after the test, and init then sleeps without it. At
  each pause of the main loop every such process is alive, was refused or found no slot if and
  only if none was lost in this gap, and what has to go is being killed in any case. A run is
  recorded round by round: which processes `remove` has chosen, which lines `spawn` has started
  with which of the children, and how the levels went on. A level that is replaced between its
  test and its use is not taken up as it should be, and if it is replaced by single-user mode
  while init is in `single`, init goes to sleep there with no shell and with deaths it has
  forgotten. `efork` notices a full table only after it has forked, so `killproc`, which calls
  it again, starts more than one kill sequence then, and only then; and as no death is noticed
  there, it does not come back from that unless a fork fails.
- **spline** (`SplineSystem`, `Spline`): the tridiagonal system in exact reals.
- **crypt** (`Crypt`): tables of a rotor machine drawn in place, and the cipher.
- **cpio** (`CpioFormat`, `Cpio`, `CpioBlocks`): archives with two forms of header over
  buffers of whole blocks.
- **factor** (`Factor`): trial division by a wheel.
- **newform** (`Newform`): tabs contracted and expanded in one buffer. Behind the last stop
  `inputtabs` moves its pointer past the 0 that ends the list, which harms no line whose tabs
  all lie before that stop.
- **dd** (`DdTables`, `DdConvert`, `Dd`): EBCDIC records and output blocks. The standard table
  gives 151 the code of 11 (`dd.c:110`), so this one character does not come back.
- **cal** (`Cal`): the weekday of the first of January, and the page of a month.

Times, random numbers, outcomes of system calls and what memory held before are parameters of
the members that use them, so the results hold for all of them.

## Model

| member | source | states |
|---|---|---|
| Huffman.HuffmanOptimal | dynix.3.2.0/src/5cmd/pack.c:219-246 | no prefix code for the same symbols has a smaller total of count times length than the leaf depths of a tree built by repeatedly joining two lightest trees, however ties are broken |
| Huffman.HuffmanTreeExists | dynix.3.2.0/src/5cmd/pack.c:219-231 | joining two lightest trees again and again ends in one tree for all counts |
| Huffman.HuffmanLowerBound | dynix.3.2.0/src/5cmd/pack.c:219-246 | the same against all lengths that meet Kraft's inequality, whether or not they come from a code |
| Huffman.LighterIsDeeper | dynix.3.2.0/src/5cmd/pack.c:219-246 | a symbol with a smaller count is never nearer the root |
| Huffman.CostIsSpent | dynix.3.2.0/src/5cmd/pack.c:219-246 | the sum of the inner counts is the number of bits the code spends |
| Huffman.TreeKraft | dynix.3.2.0/src/5cmd/pack.c:219-246 | the leaf depths of a tree meet Kraft's inequality with equality |
| Kraft.PrefixCodeAdmissible | dynix.3.2.0/src/5cmd/pack.c:261-273 | every prefix code meets Kraft's inequality |
| Kraft.MergeLowerBound | dynix.3.2.0/src/5cmd/pack.c:220-230 | the step of the optimality proof: a bound for the counts after two lightest ones are joined gives a bound for those before |
| DepthBound.DepthNeedsWeight | dynix.3.2.0/src/5cmd/pack.c:197-251 | END on level d needs a total count of at least 2 Fib(d+2) - 1 |
| DepthBound.EndIsDeepest | dynix.3.2.0/src/5cmd/pack.c:199-246 | END, the one odd and lightest count, lies on the last level |
| DepthBound.ShortInputsFit | dynix.3.2.0/src/5cmd/pack.c:235-251 | fewer than 196417 bytes never need more than 24 levels |
| DepthBound.FibCountsReachDepth | dynix.3.2.0/src/5cmd/pack.c:247-251 | for every n an input of Fib(n+2) - 1 bytes has n levels, whatever the ties: the bound is sharp |
| DepthBound.FibLikeReachesDepth | dynix.3.2.0/src/5cmd/pack.c:219-246 | so has every input in which the most frequent byte occurs more often than that |
| Heap.Heapify | dynix.3.2.0/src/5cmd/pack.c:168-185 | one position sinks in place: the heap order reaches one position further up and the slots are a permutation |
| Heap.TopIsLightest | dynix.3.2.0/src/5cmd/pack.c:168-185 | the first slot of a heap has the smallest count |
| HeapTree.FillHeap | dynix.3.2.0/src/5cmd/pack.c:197-209 | the heap gets one slot for each count that is not 0, and parent is cleared |
| HeapTree.BuildHeap | dynix.3.2.0/src/5cmd/pack.c:215-216 | the loop over heapify makes a heap of the same slots |
| HeapTree.CombineTops | dynix.3.2.0/src/5cmd/pack.c:221-229 | one round takes out the two lightest slots, links their nodes to a new one and puts their union in |
| HeapTree.BuildTree | dynix.3.2.0/src/5cmd/pack.c:219-231 | heap and parent array together build a Huffman tree for the counts, and every parent link is that of the tree |
| CodeLengths.StepsToRoot | dynix.3.2.0/src/5cmd/pack.c:238-240 | following parent links counts the depth of the leaf |
| CodeLengths.AssignLengths | dynix.3.2.0/src/5cmd/pack.c:233-246 | length, levcount, maxlev and bitsout are those of the tree; the memory behind the 25 level counters is written exactly when the tree has more than 24 levels, and the rest is claimed then for the case that this memory is separate from the other tables |
| CodeLengths.TreeLengthsOfTree | dynix.3.2.0/src/5cmd/pack.c:233-246 | the lengths read off a tree leave no gap in the canonical code |
| CodeTable.AssignBits | dynix.3.2.0/src/5cmd/pack.c:261-273 | bits[c] is the canonical codeword of c, left-justified in 24 bits |
| CodeTable.MaskUnchanged | dynix.3.2.0/src/5cmd/pack.c:271 | clearing bit inc of the mask between levels never changes it |
| Canonical.CodewordFits | dynix.3.2.0/src/5cmd/pack.c:261-273 | the codewords of a level fit in as many bits as the level says |
| Canonical.ReadCodeword | dynix.3.2.0/src/5cmd/pack.c:261-273 | walking down by the numbers of inner nodes, a codeword followed by anything leads to exactly its leaf |
| Canonical.CanonicalPrefixFree | dynix.3.2.0/src/5cmd/pack.c:261-273 | no canonical codeword begins another |
| BitStream.StreamStep | dynix.3.2.0/src/5cmd/pack.c:137-147 | shifting a codeword under the free bits of the last byte appends exactly its bits to the stream |
| PackOutput.LastLevelPaired | dynix.3.2.0/src/5cmd/pack.c:116 | at least two leaves lie on the last level |
| PackOutput.LevelBytesFit | dynix.3.2.0/src/5cmd/pack.c:113-116 | every level count of the header, the last one less 2, fits in a byte |
| PackOutput.WriteHeader | dynix.3.2.0/src/5cmd/pack.c:103-121 | the header is the two marks, the size, the level counts and the characters level by level, and fits in a block |
| PackOutput.CarryOver | dynix.3.2.0/src/5cmd/pack.c:143-147 | the whole bytes of a codeword move on, the rest stays open |
| PackOutput.OutputSymbol | dynix.3.2.0/src/5cmd/pack.c:137-156 | one round of the output loop appends the codeword, across the flush of a full block |
| PackOutput.FlushBlock | dynix.3.2.0/src/5cmd/pack.c:148-156 | a full block goes out and the overhang moves to the front; nothing is lost or doubled |
| PackOutput.Output | dynix.3.2.0/src/5cmd/pack.c:95-165 | the file is the header and then the codewords of the text and of END, padded to a byte |
| PackFile.TreeIsPackable | dynix.3.2.0/src/5cmd/pack.c:247-274 | a tree of 24 levels or fewer for a text meets all that output relies on |
| PackFile.Packer.Input | dynix.3.2.0/src/5cmd/pack.c:79-91 | every byte is counted twice per occurrence |
| PackFile.Packer.BuildCode | dynix.3.2.0/src/5cmd/pack.c:197-231 | counts, size and tree of the text, unless the text has one distinct byte |
| PackFile.Packer.PackFile | dynix.3.2.0/src/5cmd/pack.c:188-276 | the four outcomes of packing, decided by a Huffman tree of the text; without force and with 24 levels or fewer nothing is saved exactly if every number of blocks of 512 bytes that holds the estimate holds the text |
| PackFile.FewerBlocksSave | dynix.3.2.0/src/5cmd/pack.c:253-259 | comparing the rounded quotients decides whether some number of blocks holds the one and not the other |
| PackOptimal.NoShorterMessage | dynix.3.2.0/src/5cmd/pack.c:82-86 | although END counts 1 and bytes count 2, no prefix code writes the text and its end mark in fewer bits |
| PackTheorems.PackedMessageIsShortest | dynix.3.2.0/src/5cmd/pack.c:188-276 | the bits packfile writes are as few as any prefix code for the bytes and an end mark needs |
| PackTheorems.PackedTextComesBack | dynix.3.2.0/src/5cmd/pack.c:188-276 | unpack gives back every text that was packed, whatever its buffer held before |
| PackTheorems.RefusedTextIsLong | dynix.3.2.0/src/5cmd/pack.c:247-251 | a text refused for too many levels has at least 196417 bytes |
| PackTheorems.FibTextRefused | dynix.3.2.0/src/5cmd/pack.c:247-251 | for every n above 24 a text of Fib(n+2) - 1 bytes, and any with further copies of its most frequent byte, is refused however ties are broken |
| PackTheorems.RefusableIff | dynix.3.2.0/src/5cmd/pack.c:247-251 | some text of n bytes is refused if and only if n is at least 196417, so the comment's 2**24 is wrong |
| PackTheorems.EstimateFallsShort | dynix.3.2.0/src/5cmd/pack.c:254 | the expected size is one to four bytes below the size of the file |
| PackTheorems.DictionaryLength | dynix.3.2.0/src/5cmd/pack.c:103-121 | the dictionary takes 7 bytes, one for each level, and one for each distinct byte |
| TextCost.CountsTotal | dynix.3.2.0/src/5cmd/pack.c:200-214 | insize is half the sum of the counts |
| UnpackDict.ReadCounts | dynix.3.2.0/src/5cmd/unpack.c:90-100 | the size and the level counts are read as they stand in the header |
| UnpackDict.ReadChars | dynix.3.2.0/src/5cmd/unpack.c:101-108 | the characters go to the table level by level, or the file is refused |
| UnpackDict.CountInner | dynix.3.2.0/src/5cmd/unpack.c:120-125 | leaf counts become the numbers of inner nodes, in place from the last level up |
| Unpack.Unpacker.GetDict | dynix.3.2.0/src/5cmd/unpack.c:59-126 | the three answers on a header, and the tables of a good one |
| Unpack.DecodeStep | dynix.3.2.0/src/5cmd/unpack.c:156-183 | one bit leads one level down, to a character, or to the end mark |
| Unpack.TakeByte | dynix.3.2.0/src/5cmd/unpack.c:154-184 | eight bits through the tables advance the decoding as the bit-by-bit definition says |
| Unpack.DecodeFile | dynix.3.2.0/src/5cmd/unpack.c:131-186 | decode answers with the text the bits stand for, or with the error the sizes call for |
| Unpack.Unpacker.Unpack | dynix.3.2.0/src/5cmd/unpack.c:59-186 | header and text together |
| RoundTrip.HeaderParsed | dynix.3.2.0/src/5cmd/unpack.c:90-113 | the header pack writes is read as the dictionary pack meant |
| RoundTrip.DecodeText | dynix.3.2.0/src/5cmd/unpack.c:140-185 | the codewords of a text decode to the text |
| RoundTrip.UnpackAfterPack | dynix.3.2.0/src/5cmd/unpack.c:59-186 | a file in packed form unpacks to its text |
| JoinRelation.CompareTransitive | dynix.3.2.0/src/5cmd/join.c:221-225 | strcmp orders the keys |
| JoinRelation.CompareDecides | dynix.3.2.0/src/5cmd/join.c:221-225 | a string comes before another exactly if the first character in which they differ is smaller or it is a proper beginning of the other |
| JoinRelation.BelowFirst | dynix.3.2.0/src/5cmd/join.c:110-117 | in sorted files, lines the merge has passed pair with nothing ahead |
| JoinRelation.PassSecond | dynix.3.2.0/src/5cmd/join.c:111-114 | passing a line of the second file keeps what the output owes, and prints it just if its -a bit is set |
| JoinRelation.PassFirst | dynix.3.2.0/src/5cmd/join.c:115-117 | the same for the first file |
| JoinRelation.FirstLineDone | dynix.3.2.0/src/5cmd/join.c:119-126 | the first pass over a group finds all pairs of its line |
| JoinRelation.WithinLess | dynix.3.2.0/src/5cmd/join.c:131-134 | after a rewind the next line of the first file starts at the group again |
| JoinRelation.WithinGreater | dynix.3.2.0/src/5cmd/join.c:135-140 | the first line above the group ends it with all pairs printed |
| JoinRelation.RestIsSilent | dynix.3.2.0/src/5cmd/join.c:110 | when the loop ends nothing is left to print |
| JoinRelation.ChainedInOrder | dynix.3.2.0/src/5cmd/join.c:110-143 | rows that never step back are in order of their keys |
| Join.Merge.FirstPass | dynix.3.2.0/src/5cmd/join.c:119-123 | the inner loop over a group, with the offset behind it |
| Join.Merge.FurtherLines | dynix.3.2.0/src/5cmd/join.c:124-141 | rewinding for every further line of the group; the loop ends on all files, sorted or not |
| Join.Merge.Run | dynix.3.2.0/src/5cmd/join.c:107-143 | on sorted files the output is the nested-loop join in the order of the first file, with every unpairable line once if asked for and never otherwise, in order of keys; the loop ends on all files |
| ProcTable.AdmitsIsMask | dynix.3.2.0/src/5cmd/init.c:1501-1549 | a line admits a level exactly if the mask of its levels and that of the level have a bit in common |
| ProcTable.OneSlotEach | dynix.3.2.0/src/5cmd/init.c:1227-1260 | under the invariant no two occupied slots have the same name or the same process |
| ProcTable.FadesKeepInv | dynix.3.2.0/src/5cmd/init.c:1868-1908 | deaths, cleared times and freed slots keep the invariant |
| ProcTable.BirthKeepsInv | dynix.3.2.0/src/5cmd/init.c:2128-2148 | a forked child keeps it |
| ProcTable.NamingKeepsInv | dynix.3.2.0/src/5cmd/init.c:1210-1215 | so does giving it a name no other slot has |
| ProcTable.KillKeepsInv | dynix.3.2.0/src/5cmd/init.c:873-894 | no process is chosen for killing twice, even if its slot was taken over meanwhile |
| Sweep.MovesStaySwept | dynix.3.2.0/src/5cmd/init.c:873-894 | while one process is killed, all other slots stay as the lines dealt with ask |
| Sweep.SlotOfLine | dynix.3.2.0/src/5cmd/init.c:851-855 | a line concerns one slot only, and leaves the others as they are |
| Sweep.KilledIsSwept | dynix.3.2.0/src/5cmd/init.c:863-895 | a process that a line bans is touched, marked, and warned if the level has changed |
| Sweep.KilledIsDone | dynix.3.2.0/src/5cmd/init.c:953-957 | a process no line stands for has been killed, and had to go |
| Sweep.DoneIsSettled | dynix.3.2.0/src/5cmd/init.c:819-966 | what `remove` leaves is settled: every living named process is killed, demanded, or allowed at the level |
| ProcTable.KillStaysBuried | dynix.3.2.0/src/5cmd/init.c:953-965 | what the rescan has cleared away does not come back while it kills |
| ProcTable.DemandComesBack | dynix.3.2.0/src/5cmd/init.c:633-695 | asking for level a, b or c and taking up the old level again restores all three level variables |
| ProcTable.StillServed | dynix.3.2.0/src/5cmd/init.c:1010-1074 | serving one line does not undo the others |
| Init.Supervisor.Childeath | dynix.3.2.0/src/5cmd/init.c:1868-1908 | the first slot with the pid is no longer living and has the exit status, and no other changes |
| Init.Supervisor.SigLvl | dynix.3.2.0/src/5cmd/init.c:1820-1849 | the new level is noted, the current one for Q, and all times and counts are cleared |
| Init.Supervisor.CatchDeaths | dynix.3.2.0/src/5cmd/init.c:1868-1908 | catching SIGCLD again tells of every death that was held back, in order, and of no other |
| Init.Supervisor.ForkChild | dynix.3.2.0/src/5cmd/init.c:2114-2127 | the child of the first fork that succeeds, each failure having taken one pause |
| Init.Supervisor.WaitForDeath | dynix.3.2.0/src/5cmd/init.c:2124-2126 | deaths held back before and those that come in the pause are all noticed |
| Init.Supervisor.EFork | dynix.3.2.0/src/5cmd/init.c:2081-2172 | dead entries that need not be kept are freed, and the child of the first fork that succeeds gets the slot asked for or a free one, with its times; there is none exactly when the table has no room, which is noticed after the fork |
| Init.Supervisor.RetryKill | dynix.3.2.0/src/5cmd/init.c:1614-1616 | the tries after a full table: without a failing fork they do not end, and start as many kill sequences as there are wakings and forks |
| Init.Supervisor.KillProc | dynix.3.2.0/src/5cmd/init.c:1607-1626 | just one kill sequence is started if and only if there is room in the table, and more than one otherwise; without a failing fork it then does not come back |
| Init.Supervisor.Condemn | dynix.3.2.0/src/5cmd/init.c:863-895 | a process that has to go is chosen for killing if it lives and was not chosen before; if it lives still, it is touched and marked |
| Init.Supervisor.TreatSlot | dynix.3.2.0/src/5cmd/init.c:855-906 | what a line of the inittab means for the slot with its name: it has to go under the three conditions of remove, and else is touched if it lives or is demanded |
| Init.Supervisor.VisitLine | dynix.3.2.0/src/5cmd/init.c:847-909 | one line of the inittab is dealt with, whichever slot holds its process and whatever happens during the search |
| Init.Supervisor.AwaitWarned | dynix.3.2.0/src/5cmd/init.c:916-945 | the wait ends when no warned process lives or an alarm has rung, and then just those that live get the last signal |
| Init.Supervisor.Rescan | dynix.3.2.0/src/5cmd/init.c:953-965 | processes no line stands for are killed, and what was dead and untouched is freed, and nothing else |
| Init.Supervisor.Remove | dynix.3.2.0/src/5cmd/init.c:819-966 | of the processes that had a name, those alive afterwards are marked exactly if they were before or if no line of the inittab has their name or one bans them; no other is chosen; a dead one has lost its slot exactly if no line keeps it on demand, unless `efork` may free it; the table is settled; and after a change of levels all that were warned and still live were sent the last signal |
| Init.Supervisor.FindPSlot | dynix.3.2.0/src/5cmd/init.c:1227-1260 | the slot with the name, or a free one, zeroed, or none if all are occupied |
| Init.Supervisor.Respawn | dynix.3.2.0/src/5cmd/init.c:1084-1218 | the slot gets a living process of that name, with the pid of the child, exactly if the throttle lets it; its times are those of the throttle unless a signal cleared them |
| Init.Supervisor.WaitProc | dynix.3.2.0/src/5cmd/init.c:2184-2201 | one wait for a child: once it is dead its slot is freed and its status, 16 bits of it, returned |
| Init.Supervisor.SpawnAt | dynix.3.2.0/src/5cmd/init.c:1022-1073 | one line of the inittab with its slot: passed over under the conditions of spawn, refused by the throttle, or else started with the next child, and waited for and freed if the action asks for that |
| Init.Supervisor.SpawnLine | dynix.3.2.0/src/5cmd/init.c:1010-1073 | one line: its slot is found, or there is none, and the line is treated as that slot asks; a fork is used just for a line that is started |
| Init.Supervisor.Spawn | dynix.3.2.0/src/5cmd/init.c:976-1075 | the whole scan, in any modes, line by line: the slot found, what was done, and the child used, each from the table the line before has left; the names not served are just those refused or without a slot; if nothing was reported since, every respawn line of the level has a living process, was refused, or found no slot |
| Scan.StartedIff | dynix.3.2.0/src/5cmd/init.c:1022-1073 | a line that found a slot is started if and only if its process is dead, it is for the level, and its action belongs to the modes, once and wait only after a change of levels, or it is a respawn line asked for by a telinit a, b or c; and the throttle lets it; just the lines waited for have given up their slot |
| Rounds.BootLinesFirst | dynix.3.2.0/src/5cmd/init.c:511-580 | in boot modes just the boot and bootwait lines of the level are started that found a slot without a living process |
| Init.Supervisor.Single | dynix.3.2.0/src/5cmd/init.c:723-809 | single-user mode starts su at least once and ends with the level that a signal really sent, the default, or what a child asked for; this is another level, unless a signal for single-user mode or Q comes between the test of an earlier one and its use |
| Init.Supervisor.WatchSu | dynix.3.2.0/src/5cmd/init.c:762-784 | the wait for su ends with its death, or with a level 0 to 6 that a signal asked for; no signal for such a level passes unheeded while su lives |
| Init.Supervisor.GetLvl | dynix.3.2.0/src/5cmd/init.c:1939-2039 | the level is the exit code of a child forked for it, whose slot is free again |
| Events.AfterEventsAt | dynix.3.2.0/src/5cmd/init.c:1868-1908 | after any deaths and signals a slot has a living process just when it had one and no death was that of a process whose first slot it is; nothing else about it changes but status and times |
| Events.HeldBack | dynix.3.2.0/src/5cmd/init.c:1169-1216 | holding SIGCLD back loses no death: once the deaths are told, the slots are as if they had been noticed at once, but for the times |
| Events.LevelsByCode | dynix.3.2.0/src/5cmd/init.c:181-193 | each exit code stands for the level whose signal has that number |
| Events.ServedUnlessTaken | dynix.3.2.0/src/5cmd/init.c:645-655 | what is served before a batch of events is served after it if and only if the batch has no death of a living process of a line wanted at the level and not refused |
| Init.TakenInTheGap | dynix.3.2.0/src/5cmd/init.c:650-655 | a nap of one process that dies between test and pause: served at the test, not at the pause |
| Init.LostDeath | dynix.3.2.0/src/5cmd/init.c:645-665 | init gets into such a nap from an empty table |
| Init.FullTable | dynix.3.2.0/src/5cmd/init.c:1607-1626 | a table reached from the empty one by starting the one process it has room for, whose line is then taken out of the inittab: it has to go, there is no room, and `killproc` starts two kill sequences and does not come back |
| Init.Supervisor.Doze | dynix.3.2.0/src/5cmd/init.c:650-655 | the test, what arrives behind it, and the pause: all three are recorded as they are, the table staying settled |
| Init.Supervisor.Sleep | dynix.3.2.0/src/5cmd/init.c:645-665 | each pause is recorded with the table at the test, what came between, and the table at the pause; each takes two batches of events, and none is recorded besides |
| Events.TakenUpIff | dynix.3.2.0/src/5cmd/init.c:680-695 | the level that woke init is taken up as asked if and only if it is the present one, or the last signal before its use left it so and the kind of level was read right; it is if no signal comes in between |
| Events.LastSignalCounts | dynix.3.2.0/src/5cmd/init.c:1820-1849 | of several signals the last one decides the level asked for |
| Events.SlipsBackIff | dynix.3.2.0/src/5cmd/init.c:766-777 | when `single` has found one of the levels 0 to 6, it still ends in single-user mode if and only if the last signal before the use of the level is one for single-user mode or Q |
| Init.Supervisor.Continue | dynix.3.2.0/src/5cmd/init.c:610-715 | the change of modes and levels between two rounds: to powerfail modes, to normal ones, back from a demand level, or after a sleep to the level asked for, under the condition of TakenUpIff; the sleep follows all signals and loses none, and is a pause at least unless something has happened before |
| Init.Supervisor.Wake | dynix.3.2.0/src/5cmd/init.c:669-714 | the level a signal asked for is taken up as its readings find it, powerfail modes are entered, and the reasons are cleared; a signal that arrives after the last reading changes nothing |
| Init.Supervisor.Pass | dynix.3.2.0/src/5cmd/init.c:567-716 | one round of the main loop and its record: `remove` in normal modes outside the demand levels, `spawn` with any other inittab, single-user mode, and the change of levels at the end; every pause belongs to it |
| Init.Supervisor.Begin | dynix.3.2.0/src/5cmd/init.c:534-548 | the first level is the default unless that is single-user mode, and else what a child asked for or single-user mode ended with |
| Init.Supervisor.Run | dynix.3.2.0/src/5cmd/init.c:534-717 | every run, with any edits of the inittab between the scans, is a sequence of such rounds, the first in boot modes at the first level and each beginning where the one before ended, one for each inittab unless the environment is used up; names are unique, no process is chosen for killing twice, at every pause all that should go is being killed, and all that should live does if and only if the gap before the pause took none of it, except after `single` came back to itself |
| Throttle.AtMost21 | dynix.3.2.0/src/5cmd/init.c:1118-1166 | no window of 120 seconds sees more than 21 launches of one entry, however the calls fall |
| Throttle.BoundIsMet | dynix.3.2.0/src/5cmd/init.c:1118-1166 | some calls do launch 21 times |
| Throttle.WindowAccount | dynix.3.2.0/src/5cmd/init.c:1130-1164 | what p_time and p_count say about the launches in a window |
| Throttle.RefusedIff | dynix.3.2.0/src/5cmd/init.c:1130-1156 | a call is refused if and only if ten launches have followed the opening of its series and it comes less than 120 seconds after that opening or, if one was refused since, less than 420 |
| Throttle.RefusalLasts | dynix.3.2.0/src/5cmd/init.c:1148-1164 | after a refusal nothing is launched before 420 seconds from the opening of the series have passed, and the first call after that is |
| Utmp.PutKeepsOneEach | dynix.3.2.0/src/5cmd/init.c:3156-3233 | one record for each id and each event; the matching record is replaced from any cursor, the others stay |
| Utmp.MatchesByNumber | dynix.3.2.0/src/5cmd/init.c:3083-3118 | records of kinds 1 to 4 match by kind, those of kinds 5 to 8 by id, and others not at all |
| Utmp.LastEntryWins | dynix.3.2.0/src/5cmd/init.c:3156-3233 | after any puts from any cursors the file holds just the last entry of each kind |
| Utmp.File.GetUtEnt | dynix.3.2.0/src/5cmd/init.c:3015-3063 | the next record, or an empty buffer at the end |
| Utmp.File.GetUtId | dynix.3.2.0/src/5cmd/init.c:3068-3124 | the cached record or else the first match ahead |
| Utmp.File.PutUtLine | dynix.3.2.0/src/5cmd/init.c:3156-3233 | the entry goes to its place and is the cached record before the cursor; after a failed write the cache is off exactly when a record was to be overwritten |
| Utmp.File.SetUtEnt | dynix.3.2.0/src/5cmd/init.c:3237-3252 | the cursor goes back to the beginning and the buffer is emptied |
| Utmp.File.EndUtEnt | dynix.3.2.0/src/5cmd/init.c:3256-3268 | closing the file forgets cursor and record |
| SplineSystem.RegularIff | dynix.3.2.0/src/5cmd/spline.c:162-176 | k > -2 is exactly what keeps every pivot from vanishing, for all abscissas that go one way |
| SplineSystem.System.SolvableAboveMinusTwo | dynix.3.2.0/src/5cmd/spline.c:162-176 | with k above -2 no pivot vanishes before the points turn |
| SplineSystem.System.PivotPositive | dynix.3.2.0/src/5cmd/spline.c:171-175 | pivots stay above twice the step ahead |
| SplineSystem.System.StepEquivalent | dynix.3.2.0/src/5cmd/spline.c:169-175 | one step of the elimination changes no solution |
| SplineSystem.System.SolutionSolves | dynix.3.2.0/src/5cmd/spline.c:178-200 | back substitution solves every equation and the boundary conditions |
| SplineSystem.System.Unique | dynix.3.2.0/src/5cmd/spline.c:178-200 | no other second derivatives do |
| SplineSystem.SingularBelow | dynix.3.2.0/src/5cmd/spline.c:171-175 | for every k up to -2 some points make a pivot vanish |
| Spline.Expansion | dynix.3.2.0/src/5cmd/spline.c:206-210 | the exact expansion of the cubic, which names its first and second derivative |
| Spline.EquationIsSmooth | dynix.3.2.0/src/5cmd/spline.c:17-31 | an equation holds exactly when the curve has no corner at its point |
| Spline.MeetsKnots | dynix.3.2.0/src/5cmd/spline.c:202-213 | the points printed include every point given |
| Spline.ReproducesParabola | dynix.3.2.0/src/5cmd/spline.c:73-81 | with k = 1 points on a parabola give the parabola, and with any k points on a line give the line |
| Spline.Triangularize | dynix.3.2.0/src/5cmd/spline.c:162-176 | the first pass gives up just when the abscissas turn, and else leaves pivots and right-hand sides, whenever no pivot vanishes |
| Spline.Interpolate | dynix.3.2.0/src/5cmd/spline.c:202-213 | the points of one step lie on its cubic, from its right end to its left |
| Spline.BackSubstitute | dynix.3.2.0/src/5cmd/spline.c:178-214 | the second pass draws the curve of the solution |
| Spline.CurveEvenlyCut | dynix.3.2.0/src/5cmd/spline.c:202-213 | between two given points the curve has equal pieces, as many as 1.001 times the share of the step in ni has whole ones, but one at least, whichever way the step goes |
| Spline.OnePieceApart | dynix.3.2.0/src/5cmd/spline.c:206-212 | neighbouring abscissas of a step differ by its length divided by the number of pieces |
| Spline.Fit | dynix.3.2.0/src/5cmd/spline.c:150-216 | the whole fit, for every k above -2 and wherever else no pivot vanishes: refused for fewer than three points or a turn, else the curve of the one solution, each step evenly cut into the right number of pieces |
| Crypt.SwapKeepsInverse | dynix.3.2.0/src/5cmd/crypt.c:58-60 | a swap in the rotor is a swap of values in its inverse |
| Crypt.PartnerExists | dynix.3.2.0/src/5cmd/crypt.c:61-63 | free indices are even in number, so a partner exists and the modulus is not 0 |
| Crypt.PairUp | dynix.3.2.0/src/5cmd/crypt.c:64-65 | a pair takes two indices out of the free ones |
| Crypt.Machine.Reflect | dynix.3.2.0/src/5cmd/crypt.c:61-65 | a free index is paired with the first free one from the random place on, cyclically |
| Crypt.Machine.DrawTables | dynix.3.2.0/src/5cmd/crypt.c:52-66 | the tables are what 256 rounds make of the random numbers, each exchanging two positions of the rotor and pairing one index of the reflector if it is free; whatever the numbers, the reflector is an involution without fixed point and the rotor a permutation |
| Crypt.EveryMachineIsDrawn | dynix.3.2.0/src/5cmd/crypt.c:52-66 | every permutation of the bytes, with every such involution, is drawn from some random numbers |
| Crypt.Machine.InvertRotor | dynix.3.2.0/src/5cmd/crypt.c:67-68 | t2 is the inverse of t1 |
| Crypt.CipherTwice | dynix.3.2.0/src/5cmd/crypt.c:85 | the cipher is its own inverse and moves every byte |
| Crypt.StreamTwice | dynix.3.2.0/src/5cmd/crypt.c:84-93 | twice through the machine restores a stream of any length; no byte comes out as it went in |
| Crypt.Machine.Run | dynix.3.2.0/src/5cmd/crypt.c:81-93 | the counters step the rotor and the reflector as the position says |
| CpioFormat.DecodeEncode | dynix.3.2.0/src/5cmd/cpio.c:622-655 | a header of either form is read as it was written |
| CpioFormat.BinaryLayout | dynix.3.2.0/src/5cmd/cpio.c:46-59 | the offset, width and byte order of every number of the binary header |
| CpioFormat.AsciiLayout | dynix.3.2.0/src/5cmd/cpio.c:622-629 | the offset and the octal digits of every number of the header of characters |
| CpioFormat.CodecGood | dynix.3.2.0/src/5cmd/cpio.c:622-655 | both forms keep the size of a header and every field that fits |
| CpioFormat.LongBack | dynix.3.2.0/src/5cmd/cpio.c:19 | two shorts hold a long, on machines of either byte order |
| Cpio.ImageBack | dynix.3.2.0/src/5cmd/cpio.c:363-376 | a member is read as it was written, odd sizes included |
| Cpio.ListArchive | dynix.3.2.0/src/5cmd/cpio.c:363-393 | an archive lists its members in order up to the first that has the name of the trailer |
| Cpio.RoundTripIff | dynix.3.2.0/src/5cmd/cpio.c:661 | all members come back exactly when none has the name of the trailer |
| CpioBlocks.Writer.PutUnit | dynix.3.2.0/src/5cmd/cpio.c:952-975 | a byte, or a pair, is appended, after a full block went out |
| CpioBlocks.Writer.Flush | dynix.3.2.0/src/5cmd/cpio.c:358 | the last write pushes out all that was written before |
| CpioBlocks.Writer.PutContents | dynix.3.2.0/src/5cmd/cpio.c:329-336 | contents are written in pieces of 4096 bytes, and filled up to a pair once |
| CpioBlocks.CopyOut | dynix.3.2.0/src/5cmd/cpio.c:292-359 | whole blocks that hold every member and the trailer |
| CpioBlocks.Input.GetUnit | dynix.3.2.0/src/5cmd/cpio.c:888-909 | the next byte or pair of the file, block by block |
| CpioBlocks.Input.GetMember | dynix.3.2.0/src/5cmd/cpio.c:641-694 | one member, the trailer, or what is wrong with the input |
| CpioBlocks.CopyIn | dynix.3.2.0/src/5cmd/cpio.c:361-394 | reading through blocks lists what the bytes of the file say |
| CpioBlocks.WriteAndRead | dynix.3.2.0/src/5cmd/cpio.c:290-394 | what -o writes -i reads, in either form |
| Factor.SpokesOk | dynix.3.2.0/src/5cmd/factor.c:14-21 | each step of the wheel skips only multiples of 2, 3, 5 or 7 |
| Factor.EveryoneVisited | dynix.3.2.0/src/5cmd/factor.c:65-67 | every number above 7 without such a factor is visited |
| Factor.SkipRough | dynix.3.2.0/src/5cmd/factor.c:66-67 | between two candidates nothing is skipped that could divide what is left |
| Factor.FirstDivisorPrime | dynix.3.2.0/src/5cmd/factor.c:69-72 | a divisor of a number without smaller ones is prime |
| Factor.RestPrime | dynix.3.2.0/src/5cmd/factor.c:65-79 | what is left below the square of the candidates is prime |
| Factor.Factorizer.Try | dynix.3.2.0/src/5cmd/factor.c:85-98 | a candidate is divided out |
| Factor.Factorizer.Turn | dynix.3.2.0/src/5cmd/factor.c:65-76 | one turn of the wheel |
| Factor.Factorizer.Factor | dynix.3.2.0/src/5cmd/factor.c:44-82 | the factors printed are prime, ascending, and make up the number |
| Newform.NextStop | dynix.3.2.0/src/5cmd/newform.c:770 | how the stop ahead changes from column to column |
| Newform.TightUnique | dynix.3.2.0/src/5cmd/newform.c:769-795 | a line has one contraction only in which no blank could be part of a tab |
| Newform.Line.Center | dynix.3.2.0/src/5cmd/newform.c:206-230 | the line is moved to the middle of the work area from either side, unchanged |
| Newform.Line.Blanks | dynix.3.2.0/src/5cmd/newform.c:777-789 | a run of blanks, with tabs for all stops it reaches, never written ahead of what is read |
| Newform.Line.OutputTabs | dynix.3.2.0/src/5cmd/newform.c:756-798 | the contraction stands for the same line and is the tight one |
| Newform.Line.InputTabs | dynix.3.2.0/src/5cmd/newform.c:683-719 | the expansion is what the text stands for, as long as no character is written before the place it goes to has been read |
| Newform.ThereAndBack | dynix.3.2.0/src/5cmd/newform.c:683-798 | contraction and expansion with the same stops give the line back |
| DdTables.SevenBitBack | dynix.3.2.0/src/5cmd/dd.c:53-159 | the tables take every 7-bit character back; IBM's all but two |
| DdTables.AllBack | dynix.3.2.0/src/5cmd/dd.c:53-159 | of all 256 characters the standard table loses 151 only, and IBM's five |
| DdConvert.FoldsLetters | dynix.3.2.0/src/5cmd/dd.c:500-504 | ucase and lcase change just the letters, each to its other form |
| DdConvert.TextRecorded | dynix.3.2.0/src/5cmd/dd.c:496-523 | a text becomes one record of cbs characters for each line, cut or filled up |
| DdConvert.RecordsRead | dynix.3.2.0/src/5cmd/dd.c:470-494 | records become lines without blanks at the end |
| DdConvert.RoundTripIff | dynix.3.2.0/src/5cmd/dd.c:470-523 | there and back, a 7-bit text is the same exactly when every line fits a record and none ends in a blank |
| Dd.Copier.Put | dynix.3.2.0/src/5cmd/dd.c:459-468 | a character is appended; a full block is written |
| Dd.Copier.PutEbcdic | dynix.3.2.0/src/5cmd/dd.c:496-523 | one character, or the end of a record; what does not fit is counted once |
| Dd.Copier.PutAscii | dynix.3.2.0/src/5cmd/dd.c:470-494 | one character, or blanks held back |
| Dd.Copier.Copy | dynix.3.2.0/src/5cmd/dd.c:322-392 | up to the first empty read, or to count of them, the writes make up the converted input; all but the last are of obs bytes, and the four numbers of records are right |
| Cal.Jan1Right | dynix.3.2.0/src/5cmd/cal.c:188-219 | for every year the formula gives the weekday that counting the days gives |
| Cal.WeekGoesOn | dynix.3.2.0/src/5cmd/cal.c:121-126 | the week runs on from month to month and year to year |
| Cal.YearTold | dynix.3.2.0/src/5cmd/cal.c:139-160 | two such weekdays tell a leap year, a common one and 1752 apart |
| Cal.ColumnIsWeekday | dynix.3.2.0/src/5cmd/cal.c:161-181 | the column of a date is its weekday |
| Cal.PlaceOnPage | dynix.3.2.0/src/5cmd/cal.c:164-181 | a month fits in six rows |
| Cal.Calendar.SetMonths | dynix.3.2.0/src/5cmd/cal.c:135-160 | the lengths of the months of the year |
| Cal.Calendar.Cal | dynix.3.2.0/src/5cmd/cal.c:128-181 | every date of the month is in its column, 3 to 13 September 1752 left out, and nothing else is changed |

## Left out

- PackFile.Packer.PackFile: forced packing of an empty file, for which the program writes a code of one symbol without levels.
- Unpack.Unpacker.Unpack: files whose dictionary is no tree; the program does not check for them and follows whatever its tables hold.
- PackTheorems.PackedTextComesBack: texts of 2**32 bytes or more, whose size does not fit the header; counts are not cut to 32 bits either.
- CodeLengths.AssignLengths: in trees of more than 24 levels the program counts into `lastnode` and `parent`, which lie behind the 25 counters (`pack.c:49-52`); the array of the model goes on with memory of its own, so the lengths of such trees are claimed only if that memory is separate.
- pack and unpack: file names, modes and links, statistics, read and write errors, the old format of `expand`.
- Join.Merge.Run: lines without the join field, for which the program compares what an earlier line left there; splitting lines into fields, the output list and its formatting, lines over BUFSIZ.
- Init.Supervisor.Run: `initialize` with its sysinit lines, `userinit`, accounting, consoles and terminals; the inittab is a list of lines with names, another one for each scan. When `single` comes back to single-user mode, the pauses that follow are not said to find every process alive.
- init: parsing the inittab; `p_count` and process numbers are not cut to 16 bits.
- init: a signal within the counting of `respawn` (`init.c:1118-1166`), within another handler, or between a test and a pause outside the main loop, where it counts as arriving in the pause. SIGPWR is never caught, both calls of `signal` for it being comments (`init.c:1811-1813`, `1919-1921`): `PowerHit` stands for what would happen if it were.
- Init.Supervisor.Sleep: waits elsewhere (for warned processes, for a child, in single-user mode) are not among the pauses described.
- Throttle.AtMost21: calls between which a signal or a freed slot clears the times; in normal modes `remove` frees dead slots that nobody demanded, so only the others are held back.
- Utmp.File.PutUtLine: writes that are cut short in the middle of a record.
- Spline.Fit: points for which a pivot vanishes, as k up to -2 allows, and limits of the abscissa that are equal, where the program divides by zero; rounding; the periodic fit.
- Crypt.Machine.DrawTables: the key and the random numbers made from it are arbitrary.
- CpioBlocks.CopyOut: members whose numbers do not fit the header, files that change while they are read, changes of reels.
- CpioBlocks.CopyIn: what is done with a member once it is read (patterns, links, directories, special files, owners, swapped bytes); a -c header that is not all octal digits counts as out of phase, while the program keeps numbers of an earlier header; names longer than the buffer for them.
- Factor.Factorizer.Factor: numbers are integers up to 10**14; a quotient in doubles is exact there.
- Newform.Line.InputTabs: backspaces, tabs behind the last stop, and text whose expansion overwrites what is still to be read.
- Newform.Line.OutputTabs: lines that hold tabs or backspaces already.
- Dd.Copier.Copy: swab, sync, noerror, skip and seek, read and write errors, and copying without conversion when bs= is given; 8-bit characters of `ebcdic` are taken as unsigned.
- DdConvert.RoundTripIff: IBM's table, which loses the caret and the tilde.
- Cal.Calendar.Cal: the headings, and printing the rows.
- fgrep, find, tar, the terminal filters, the network daemons and the other commands.
