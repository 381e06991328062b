# Dune's C core: BLAKE3 hashing, process spawning and file watching

This project models the stateful C code under dune's digests, process spawning and file watchers, and
proves what that code is relied on for. `dafny verify dfyconfig.toml` checks all of it.

## What is modelled

**The BLAKE3 hasher** (`src/ocaml-blake3-mini`), which digests every target and rule.

- `Tree` is the reference: the recursive left-balanced tree hash of sections 2.1 and 2.4 to 2.6 of the BLAKE3
  paper, for any compression function, key and flags. `Balanced` has the theory behind it, for any leaf and
  node function: pairing values layer by layer, with an odd one carried, gives the recursive tree, and any
  layer of it stands for the same data. This is why the SIMD degree never shows in a digest.
- `Chunk`, `Wide`, `Stack`, `Root` and `Hasher` are the code: the chunk state, the SIMD-wide subtree recursion,
  the lazily merged stack of chaining values, the extendable output, and the incremental hasher as a class
  with its arrays. The main theorem is `Hasher.HashParts`: whatever parts a message arrives in, and whatever
  SIMD degree each call uses, the output is the requested slice of the tree hash of the whole message.
- `Bits` and `Words` prove the bit tricks and the byte order conversions. 64-bit and 32-bit words are natural
  numbers below `2^64` and `2^32`; wrap-around is written out.
- `Domains` writes the tree hash out once more, with its flags as numbers and its splits found by doubling, and
  proves that the two agree byte by byte; and that the root flag separates the output from everything below it.
- `Portable` proves the table-driven compression function against the form that permutes the message between
  rounds. `Machine` and `MachineRounds` prove that form against 32-bit machine words, the bit-vectors of Dafny,
  for all inputs; `KnownAnswer` derives from it a digest that the tests of the repository expect. `Invertible`
  proves that the rounds are a permutation, and what the extended output determines. `Neon` proves the
  interleaved, transposed four-lane version against the portable one, down to the bytes written. `HashMany` is the
  batch interface both share, and `Dispatch` chooses between them for the tree code. `Digests` is the digest of a
  file, and `DigestOrder` the equality and order of digests.

**Process spawning** (`otherlibs/stdune/src/spawn_stubs.c`). `Redirect` proves that the dup, close and dup2 sequence
of the child is one simultaneous assignment of the three standard descriptors, over every descriptor table and
every aliasing of the given descriptors, and when exactly it succeeds. `StringBlock` proves that the argument
and environment blocks, pointers and strings in one array of bytes, are filled to the last byte and read back.

**The Windows watcher** (`src/dune_scheduler/fswatch_win_stubs.c`). `EventList` is the shared packet list as a step
system in which every read of the head, every compare-exchange and the comparison after it is a step, any number of
threads push and pop, and freed addresses may be handed out again; `EventProgress` says what the two loops get done,
and `Wakeup` how the consumer learns of new packets. `WatchList` is the watch list and the completion
port as a step system, `WatchProgress` says which watches go on being read, what a shutdown ends and that add
requests are answered, and `WatchThread` is the watcher thread with its list and its loops, proved to take these steps.

**The macOS watcher** (`src/dune_scheduler/fsevents_stubs.c`). `Monitor` is the dispatch-queue monitor with its two
locks and its condition variable, every lock operation and every statement under the lock being a step.
`MonitorCalls` says what each call has done by the time it returns. `Fsevents` is the OCaml module above it, with a
mutex and a state per stream.

## What the proofs show beyond the expected

- The chaining value stack is declared with 55 entries. For fewer than `2^64` bytes it never holds more than 54,
  also between the two pushes of a pair (`Stack.StackBound`).
- A standard descriptor that is not open can pass the copying loop, when an earlier copy happens to get its number
  (`Redirect.ClosedCanPass`); `Redirect.Process.DupAll` says exactly when. The later `dup2` then fails, so the
  redirection as a whole still fails exactly when it should (`Redirect.Process.RedirectStd`).
- The prefix test of the Windows watcher compares characters, so a directory is refused when a sibling with a
  shorter name is watched, and also below a directory that is closed but not yet removed from the list. The
  comment on `add_watch` says that only a path already being watched is refused. `WatchList.RefusalIsExact` says
  when the test meets that comment; `WatchList.SiblingIsRefused` and `WatchList.ClosedPrefixIsReached` give the
  failing cases.
- push_events compares the result of its exchange with `e->next`, and C leaves open whether that link is read before
  the exchange or after it. Read before, the list is safe in every interleaving. Read after, the cell may already be
  popped and freed by another thread (`EventList.LateReadFails`), and once its address is reused a packet can be
  pushed twice (`EventList.PushedTwice`). The late order is safe exactly as long as no cell is freed while its pusher
  is between the exchange and the comparison (`EventList.RuleIsExact`), which the code does not ensure.
- The consumer of the Windows watcher resets its event after it has taken the list. A packet that is pushed and
  announced in between stays in the list unnoticed until the next push (`Wakeup.PacketIsStranded`).
  `Wakeup.NoPacketIsStranded` says exactly which runs are free of this.
- A completion without bytes is ignored, and no read of that directory is started again: these are exactly the watches
  that stay listed without anything ever happening to them (`WatchProgress.StallsAreEmptyReads`), and the only ones
  that keep the thread running after a shutdown (`WatchProgress.ShutdownDrains`).
- The stream counter of the macOS monitor is right in every interleaving exactly as long as a stream is started only
  while its `dq` field is null, and stopped only while no other thread is starting or stopping it
  (`Monitor.DisciplineIsExact`). The C code does not enforce this: two threads that stop one stream together make
  the counter wrap around (`Monitor.TwoStopsWrap`). The states and the mutexes of fsevents.ml do
  (`Fsevents.WrapperIsDisciplined`).
- A callback that waits for the runtime lock while its stream is stopped finds the `dq` field null, and has no lock to
  take if it raises (`Monitor.LateCallback`). Whether it may raise is settled when it reads the field
  (`Monitor.CallbackFindsQueue`, `Monitor.FoundStays`).

## Model

| member | source | states |
|---|---|---|
| `Bits.HighestOne` | src/ocaml-blake3-mini/blake3_impl.h:100-129 | the binary search over masks returns the base-two logarithm of every non-zero 64-bit word |
| `Bits.SearchStep` | src/ocaml-blake3-mini/blake3_impl.h:120-127 | one masked test and shift halves the width of the searched word and keeps the shift distance exact |
| `Bits.PopCnt` | src/ocaml-blake3-mini/blake3_impl.h:131-143 | clearing lowest bits one at a time counts the set bits |
| `Bits.ClearLowestBit` | src/ocaml-blake3-mini/blake3_impl.h:137-140 | the and of a word with its predecessor is smaller and has exactly one set bit less |
| `Bits.RoundDownToPowerOf2` | src/ocaml-blake3-mini/blake3_impl.h:145-149 | the result is the largest power of two not above the argument, and 1 for 0 |
| `Bits.MaskIsMod` | src/ocaml-blake3-mini/blake3.c:541-543 | masking with one less than a power of two is the remainder modulo that power |
| `Bits.XorSum` | src/ocaml-blake3-mini/blake3_portable.c:11-17 | two numbers add up to their exclusive or and twice their common bits |
| `Bits.XorBit` | src/ocaml-blake3-mini/blake3_portable.c:11-17 | every bit of an exclusive or is the sum of the two bits modulo two |
| `Bits.OrSum` | src/ocaml-blake3-mini/blake3.c:98-113 | two numbers add up to their inclusive or and their common bits |
| `Words.StoreLoad32` | src/ocaml-blake3-mini/blake3_impl.h:157-187 | the four bytes of a word are its digits in base 256, the lowest first |
| `Words.LoadStoreWords` | src/ocaml-blake3-mini/blake3_impl.h:157-199 | little-endian storing followed by loading is the identity on word sequences |
| `Words.LoadWordsAt` | src/ocaml-blake3-mini/blake3_impl.h:175-180 | word i of a block comes from its bytes 4i to 4i+3 |
| `Balanced.LeftLenIsLargest` | src/ocaml-blake3-mini/blake3.c:158-166 | the left subtree is a power of two of chunks, the right side is non-empty and no larger |
| `Balanced.LeftLenUnique` | src/ocaml-blake3-mini/blake3.c:158-166 | these conditions determine the split |
| `Balanced.ReduceSplits` | src/ocaml-blake3-mini/blake3.c:216-249 | pairing up a power of two of values followed by no more of them never mixes the two groups, down to the last pair |
| `Balanced.ReduceLeaves` | src/ocaml-blake3-mini/blake3.c:251-267 | pairing the chunk values layer by layer gives the recursive tree, and stopping at two values gives the children of its top node |
| `Balanced.CondensesJoin` | src/ocaml-blake3-mini/blake3.c:285-322 | the values kept for the two subtrees, put side by side, stand for the whole input |
| `Balanced.CondensesLayer` | src/ocaml-blake3-mini/blake3.c:332-336 | one more layer of parents over more than two values still stands for the same input |
| `Tree.TreeCVOfOutput` | src/ocaml-blake3-mini/blake3.c:81-87 | finishing the top node of a subtree without the root flag gives its chaining value |
| `Tree.JoinOutput` | src/ocaml-blake3-mini/blake3.c:153-156 | a complete left subtree and a right subtree no larger than it have the parent node over both as their top node |
| `Tree.RootBytesConcat` | src/ocaml-blake3-mini/blake3.c:89-116 | adjacent reads of the extendable output concatenate, so shorter reads are prefixes |
| `Domains.TreeIsPlain` | src/ocaml-blake3-mini/blake3.c:81-166 | every chaining value is that of the hash written out: 1 on the first and 2 on the last block of a chunk, zeros behind its data, 4 and counter 0 on a parent, the split found by doubling |
| `Domains.HashIsPlain` | src/ocaml-blake3-mini/blake3.c:89-116 | every byte of every hash is that of the last compression with 8 added to its flags and the number of the output block as counter |
| `Domains.ChainingIsBelowRoot` | src/ocaml-blake3-mini/blake3.c:81-87 | no chaining value depends on what the compression function does when the root flag is set |
| `Domains.RootIsSeparate` | src/ocaml-blake3-mini/blake3.c:89-116 | the output depends only on the extended function with the root flag set and the compression function with it clear |
| `Domains.RootCompression` | src/ocaml-blake3-mini/blake3.c:98-113 | block i of the output is the extended compression of the top node at counter i with 8 added to its flags, which had that bit clear |
| `Chunk.ChunkState.constructor` | src/ocaml-blake3-mini/blake3.c:10-18 | a new chunk state holds no bytes at the given counter |
| `Chunk.ChunkState.Reset` | src/ocaml-blake3-mini/blake3.c:20-27 | after a reset the state is that of a new chunk at the given counter |
| `Chunk.ChunkState.Len` | src/ocaml-blake3-mini/blake3.c:29-32 | the length computed from the fields is the number of bytes read |
| `Chunk.ChunkState.FillBuf` | src/ocaml-blake3-mini/blake3.c:34-44 | bytes are taken until the buffer is full or the input ends, and the unused tail stays zero |
| `Chunk.ChunkState.TopUp` | src/ocaml-blake3-mini/blake3.c:118-131 | a partly filled block is completed, and compressed only if more input follows |
| `Chunk.ChunkState.Update` | src/ocaml-blake3-mini/blake3.c:118-144 | the state stays the one determined by all bytes read: whole blocks chained, the last block held back |
| `Chunk.ChunkState.Out` | src/ocaml-blake3-mini/blake3.c:146-151 | the output node is that of the block-by-block definition of a chunk, start and end flags included |
| `Chunk.ChunkShape` | src/ocaml-blake3-mini/blake3.c:118-144 | at most 15 blocks are compressed early, the buffer is empty only for an empty chunk, holds the last bytes, and is zero behind them |
| `Chunk.SplitUpdate` | src/ocaml-blake3-mini/blake3.c:118-144 | two updates leave the same fields as one update with both inputs |
| `HashMany.HashOnePortable` | src/ocaml-blake3-mini/blake3_portable.c:125-143 | the 32 bytes written are the chain of all blocks, with start and end flags on the first and last; other bytes are untouched |
| `HashMany.HashManyPortable` | src/ocaml-blake3-mini/blake3_portable.c:145-160 | value i is that of input i at its own 64-bit counter; other bytes are untouched |
| `Wide.ChunkJobCV` | src/ocaml-blake3-mini/blake3.c:172-195 | a full chunk hashed as a batch entry has the chaining value of the streamed chunk |
| `Wide.ParentJobCV` | src/ocaml-blake3-mini/blake3.c:216-240 | a block hashed as a batch entry is the parent of its two halves |
| `Wide.CollectChunks` | src/ocaml-blake3-mini/blake3.c:181-188 | the collected pointers are the full chunks in order, and they fit the array of MAX_SIMD_DEGREE slots |
| `Wide.CompressChunksParallel` | src/ocaml-blake3-mini/blake3.c:172-209 | full chunks through the batch and the partial tail through the chunk state give all leaves of the input in order, and nothing else is written |
| `Wide.CollectPairs` | src/ocaml-blake3-mini/blake3.c:225-231 | the collected pointers are the adjacent pairs in order, and they fit the array of MAX_SIMD_DEGREE_OR_2 slots |
| `Wide.CompressParentsParallel` | src/ocaml-blake3-mini/blake3.c:216-249 | one layer of parents over adjacent pairs, an odd value carried |
| `Wide.LeftSubtreeLen` | src/ocaml-blake3-mini/blake3.c:158-166 | the computed length is that of the left subtree of the reference tree |
| `Wide.CompressHalves` | src/ocaml-blake3-mini/blake3.c:281-322 | the left call returns exactly the degree, so the right values follow directly; there is at least one of them and no more than on the left, so one on the left means one on the right |
| `Wide.CompressBothHalves` | src/ocaml-blake3-mini/blake3.c:281-336 | between 2 and max(degree, 2) values are returned, and they stand for the input |
| `Wide.CompressSubtreeWide` | src/ocaml-blake3-mini/blake3.c:268-336 | for every power-of-two degree the values written stand for the input, one value exactly for a single chunk, at most max(degree, 2), exactly the degree or 2 for a complete subtree |
| `Wide.CompressSubtreeToParentNode` | src/ocaml-blake3-mini/blake3.c:348-380 | for every degree the block holds the chaining values of the left and the right child of the reference tree |
| `Wide.CondenseStep` | src/ocaml-blake3-mini/blake3.c:369-378 | the condensing loop shrinks, never below two, and keeps standing for the input |
| `Stack.StrictPopCount` | src/ocaml-blake3-mini/blake3.c:414-423 | a fully merged stack has one entry per set bit of the chunk count |
| `Stack.LazyPopCount` | src/ocaml-blake3-mini/blake3.c:424-433 | the popcount test asks for a merge exactly when the top two entries are equally large, that is, when a merge is pending |
| `Stack.PushIsLazy` | src/ocaml-blake3-mini/blake3.c:435-466 | an aligned subtree on a fully merged stack leaves at most one merge pending |
| `Stack.StackBound` | src/ocaml-blake3-mini/blake3.h:55-60 | below 2^54 chunks a push never makes more than 54 entries |
| `Stack.EntryIsAligned` | src/ocaml-blake3-mini/blake3.c:435-466 | every entry starts at a multiple of its own size |
| `Stack.PiecesPush` | src/ocaml-blake3-mini/blake3.c:467-473 | a pushed value extends the list of consecutive subtree values |
| `Stack.PiecesJoin` | src/ocaml-blake3-mini/blake3.c:424-433 | the parent of two equal neighbours is the value of the subtree over both |
| `Root.XofMany` | src/ocaml-blake3-mini/blake3_dispatch.c:227-248 | whole blocks continue the output stream where it stood |
| `Root.EmitHead` | src/ocaml-blake3-mini/blake3.c:89-104 | after the unaligned start the position is at a block boundary, or nothing is left to write |
| `Root.OutputRootBytes` | src/ocaml-blake3-mini/blake3.c:89-116 | for every seek and length the bytes written are that slice of one output stream, and no others are written |
| `Hasher.SelectSubtreeLen` | src/ocaml-blake3-mini/blake3.c:523-543 | the halving loop ends with the largest power of two that fits the input and divides the bytes so far, never below a chunk |
| `Hasher.Hasher.constructor` | src/ocaml-blake3-mini/blake3.c:382-387 | a new hasher has absorbed nothing |
| `Hasher.Hasher.MergeTopTwo` | src/ocaml-blake3-mini/blake3.c:424-433 | one merge joins two equally large neighbours and keeps all entries right |
| `Hasher.Hasher.MergeCvStack` | src/ocaml-blake3-mini/blake3.c:414-433 | the loop ends with a fully merged stack over the same chunks |
| `Hasher.Hasher.PushCV` | src/ocaml-blake3-mini/blake3.c:435-473 | pending merges come first, the new value stays unmerged, and a second entry makes the stack safe to finalize |
| `Hasher.Hasher.FinishChunk` | src/ocaml-blake3-mini/blake3.c:487-508 | a full chunk is pushed only if more input follows, and what remains starts at a chunk boundary |
| `Hasher.Hasher.FlushChunk` | src/ocaml-blake3-mini/blake3.c:497-504 | the pushed value is that of the full chunk, and the next chunk starts empty |
| `Hasher.Hasher.PushPair` | src/ocaml-blake3-mini/blake3.c:546-566 | both children of a complete aligned subtree are pushed, so its top node stays uncompressed |
| `Hasher.Hasher.AbsorbSubtree` | src/ocaml-blake3-mini/blake3.c:523-570 | every turn of the subtree loop consumes input and keeps the stack over exactly the consumed chunks |
| `Hasher.Hasher.AbsorbTail` | src/ocaml-blake3-mini/blake3.c:572-582 | a non-empty tail goes to the chunk and leaves no merge pending |
| `Hasher.Hasher.Update` | src/ocaml-blake3-mini/blake3.c:475-582 | after any input the hasher is in the state of everything absorbed so far |
| `Hasher.Hasher.FinalizeStart` | src/ocaml-blake3-mini/blake3.c:613-636 | finalization starts from the last subtree, and the top two entries exist when the chunk is empty |
| `Hasher.Hasher.RollUp` | src/ocaml-blake3-mini/blake3.c:637-643 | each stack entry is the left sibling of everything behind it |
| `Hasher.Hasher.RootOutput` | src/ocaml-blake3-mini/blake3.c:603-645 | the node reached is the root of the reference tree over everything absorbed |
| `Hasher.Hasher.FinalizeSeek` | src/ocaml-blake3-mini/blake3.c:603-645 | the bytes written are the requested slice of the hash of everything absorbed, and only the output buffer is written |
| `Hasher.Hasher.Reset` | src/ocaml-blake3-mini/blake3.c:647-650 | from any state, afterwards nothing is absorbed |
| `Hasher.RootIsNotStored` | src/ocaml-blake3-mini/blake3.c:435-466 | in every valid state each entry is the value of an aligned complete subtree and none covers all the input; with an empty chunk there are at least two |
| `Hasher.HashParts` | src/ocaml-blake3-mini/blake3_stubs.c:71-104 | the digest of a message read in any parts, with any SIMD degree per part and with the portable or the NEON batch, is the tree hash of the whole message |
| `Digests.MiniFd` | src/ocaml-blake3-mini/blake3_stubs.c:62-104 | the digest of a file is the first 16 bytes of the BLAKE3 hash of its bytes, whatever the portions and interruptions of reading, the SIMD degree and the batch; there is none exactly when a read fails before the end |
| `Digests.ReadsMean` | src/ocaml-blake3-mini/blake3_stubs.c:85-98 | a portion is appended, an interruption changes nothing, the end of the file ends the reading, and a failure before it makes it fail |
| `DigestOrder.CompareIsLexicographic` | src/ocaml-blake3-mini/blake3_stubs.c:35-60 | on machines of either byte order the comparison of the two fields, with the bytes turned round by masks and shifts, is the lexicographic order of the 16 bytes |
| `DigestOrder.EqualIsSame` | src/ocaml-blake3-mini/blake3_stubs.c:29-50 | two digests are equal exactly when their bytes are |
| `DigestOrder.CompareIsTotalOrder` | src/ocaml-blake3-mini/blake3_stubs.c:47-60 | the comparison is antisymmetric and transitive, and 0 exactly for equal digests |
| `KnownAnswer.Somefile` | test/expect-tests/blake3/blake3_mini_tests.ml:10-16 | the digest of the file with the contents 111XXXYYYZZ is 7a7d692dfca02a756fea9a8a77903807 |
| `Portable.ConstantsAreRoots` | src/ocaml-blake3-mini/blake3_impl.h:86-88 | the eight constants are the first 32 bits of the fractions of the square roots of the first eight primes |
| `Portable.ScheduleIsPermute` | src/ocaml-blake3-mini/blake3_impl.h:90-98 | row n of the schedule table picks the words that n permutations of the message would give |
| `Portable.G` | src/ocaml-blake3-mini/blake3_portable.c:8-18 | the four named words are replaced by the quarter round of them and no other word changes |
| `Portable.RoundFn` | src/ocaml-blake3-mini/blake3_portable.c:20-35 | a table-driven round is the reference round on the permuted message |
| `Portable.CompressPre` | src/ocaml-blake3-mini/blake3_portable.c:37-82 | the state after seven rounds is that of the reference form |
| `Portable.CompressInPlace` | src/ocaml-blake3-mini/blake3_portable.c:84-98 | the chaining value is replaced by the reference compression |
| `Portable.CompressXof` | src/ocaml-blake3-mini/blake3_portable.c:100-123 | the 64 bytes are the reference extended output |
| `Portable.XofStartsWithCV` | src/ocaml-blake3-mini/blake3_portable.c:84-123 | the first half of the extended output is the chaining value of the same compression |
| `Machine.XorNum` | src/ocaml-blake3-mini/blake3_portable.c:11-17 | the exclusive or of the model is that of 32-bit machine words |
| `Machine.SumNum` | src/ocaml-blake3-mini/blake3_portable.c:10-16 | the sum of machine words is the sum of their values modulo 2^32 |
| `MachineRounds.RotateWord` | src/ocaml-blake3-mini/blake3_portable.c:4-6 | the rotation of the model is that of machine words by two shifts |
| `MachineRounds.QuarterRound` | src/ocaml-blake3-mini/blake3_portable.c:8-18 | the quarter round of the model is that on machine words, for all inputs |
| `MachineRounds.AllRounds` | src/ocaml-blake3-mini/blake3_portable.c:20-82 | so is any number of rounds with the message permuted between them |
| `MachineRounds.Compression` | src/ocaml-blake3-mini/blake3_portable.c:37-123 | so are the chaining value and the extended output, from the state set up with chaining value, constants, counter, block length and flags |
| `MachineRounds.EveryCompression` | src/ocaml-blake3-mini/blake3_portable.c:37-123 | every compression of the model with a 64-bit counter, a byte of length and a byte of flags is covered by this |
| `Invertible.UnmixMix` | src/ocaml-blake3-mini/blake3_portable.c:8-18 | the quarter round has an inverse on both sides, for all message words |
| `Invertible.UnroundsRounds` | src/ocaml-blake3-mini/blake3_portable.c:20-82 | any number of rounds is a permutation of the states, for every message |
| `Invertible.ExtendedOutputIsInjective` | src/ocaml-blake3-mini/blake3_portable.c:100-123 | for a given chaining value and block, different counters, block lengths or flags give different outputs |
| `Invertible.OutputBlocksDiffer` | src/ocaml-blake3-mini/blake3.c:89-116 | the 64-byte blocks of the output of a message are pairwise different |
| `Neon.LaneRot` | src/ocaml-blake3-mini/blake3_neon.c:36-67 | the half swap, the byte shuffle and the shift-and-insert rotate every lane by 16, 8, 12 and 7 |
| `Neon.LaneMix` | src/ocaml-blake3-mini/blake3_neon.c:79-134 | every lane of the vector quarter round, which adds the message word first, is the scalar quarter round |
| `Neon.RoundFn4` | src/ocaml-blake3-mini/blake3_neon.c:79-193 | the interleaved vector round is the scalar round in every lane |
| `Neon.TransposeIsTranspose` | src/ocaml-blake3-mini/blake3_neon.c:195-209 | two rounds of exchanges transpose the four vectors |
| `Neon.MsgLane` | src/ocaml-blake3-mini/blake3_neon.c:211-233 | every lane of the transposed message holds the block words of its own input |
| `Neon.LaneCounter` | src/ocaml-blake3-mini/blake3_neon.c:235-244 | the mask arithmetic gives every lane the 64-bit counter of its own input, in low and high words |
| `Neon.HashBlocks4` | src/ocaml-blake3-mini/blake3_neon.c:251-291 | after the block loop every lane holds the chain of its own input |
| `Neon.Hash4` | src/ocaml-blake3-mini/blake3_neon.c:246-305 | the 128 bytes written are the chaining values of the four inputs in order |
| `Neon.HashManyNeon` | src/ocaml-blake3-mini/blake3_neon.c:341-366 | for every number of inputs the values and places are those of the portable batch, and nothing else is written |
| `Dispatch.HashManyAny` | src/ocaml-blake3-mini/blake3_dispatch.c:250-301 | the NEON and the portable batch write the same values in the same places, so the tree code may use either |
| `Redirect.Process.Dup` | otherlibs/stdune/src/spawn_stubs.c:395-398 | the copy has the lowest unused number and refers to the same open file, with close-on-exec cleared, and nothing else changes; -1 if there is none |
| `Redirect.Process.Dup2` | otherlibs/stdune/src/spawn_stubs.c:528-534 | the target refers to the open file of the source, with close-on-exec cleared, and nothing else changes |
| `Redirect.Process.SafeDup` | otherlibs/stdune/src/spawn_stubs.c:394-405 | it terminates with -1 or the lowest unused descriptor above 2, and the table gains that copy and nothing else |
| `Redirect.Process.DupAll` | otherlibs/stdune/src/spawn_stubs.c:523-524 | success exactly when three numbers above 2 are free and each given descriptor is open or among the first free numbers that the earlier copies get; the copies get the first three |
| `Redirect.ClosedCanPass` | otherlibs/stdune/src/spawn_stubs.c:523-524 | a concrete table in which a descriptor that is not open passes the copying loop |
| `Redirect.NextFree` | otherlibs/stdune/src/spawn_stubs.c:394-405 | the copies take the free numbers above 2 one after another |
| `Redirect.Process.MoveAll` | otherlibs/stdune/src/spawn_stubs.c:529-534 | it succeeds exactly when no copy is gone |
| `Redirect.Process.RedirectStd` | otherlibs/stdune/src/spawn_stubs.c:520-534 | success exactly when all three are open and three numbers above 2 are free; then 0, 1, 2 are open on the files that the three were open on, all at once and with close-on-exec cleared, and above 2 just the given ones are closed and the others are as they were |
| `Redirect.LowestFreeIsFree` | otherlibs/stdune/src/spawn_stubs.c:395-398 | the number found is unused and all below it are used, and there is none exactly when all are used |
| `Redirect.FirstFreeIsLowest` | otherlibs/stdune/src/spawn_stubs.c:394-405 | the numbers that the copies get are the lowest unused ones |
| `Redirect.MovedIsRedirected` | otherlibs/stdune/src/spawn_stubs.c:520-534 | copying, closing and moving is the simultaneous assignment, for every aliasing of the three |
| `StringBlock.PackEnv` | otherlibs/stdune/src/spawn_stubs.c:565-607 | one block of bytes holds the pointers, a null pointer and the variable=value entries side by side, and is filled to its last byte |
| `StringBlock.PackStrings` | otherlibs/stdune/src/spawn_stubs.c:609-672 | one block of bytes holds the pointers, a null pointer and the strings side by side, and is filled to its last byte |
| `StringBlock.TotalEnvSize` | otherlibs/stdune/src/spawn_stubs.c:574-582 | the size pass adds up exactly what the filling pass writes |
| `StringBlock.TotalSize` | otherlibs/stdune/src/spawn_stubs.c:613-622 | the size pass adds up exactly what the filling pass writes |
| `StringBlock.PointerBlock.Store` | otherlibs/stdune/src/spawn_stubs.c:627-639 | a turn of the filling loop adds one string and its pointer and leaves the earlier ones alone |
| `StringBlock.PointerBlock.StoreBinding` | otherlibs/stdune/src/spawn_stubs.c:589-604 | a turn of the environment loop adds one entry built from its two parts, and its pointer |
| `StringBlock.ReadBack` | otherlibs/stdune/src/spawn.ml:224-231 | a pointer read from the block is not null and lies in it, following it to the next zero gives the string back exactly when it has no zero inside, and the pointer behind the last is null |
| `StringBlock.EntryRoundTrip` | otherlibs/stdune/src/spawn_stubs.c:595-602 | splitting an environment entry at its first equals sign gives the binding back exactly when the variable has none in it |
| `StringBlock.EnvReadBack` | otherlibs/stdune/src/spawn_stubs.c:589-604 | following pointer i gives the variable, the byte 0x3d and the value of binding i, in this order |
| `StringBlock.OffsetsIncrease` | otherlibs/stdune/src/spawn_stubs.c:565-672 | strings do not overlap and stay inside the block |
| `EventList.StepKeeps` | src/dune_scheduler/fswatch_win_stubs.c:92-116 | every single read, exchange, comparison, allocation and free keeps the list intact, every cell with one owner, and the packets conserved, provided a link that is read again after the exchange is unchanged |
| `EventList.RunsKeep` | src/dune_scheduler/fswatch_win_stubs.c:92-116 | so does every interleaving of any number of threads, if the link is always read before the exchange, or if no cell is freed while its pusher may still read it |
| `EventList.PushIntact` | src/dune_scheduler/fswatch_win_stubs.c:97-101 | a successful exchange puts the cell in front of the list as it is now, although the head may have been removed and come back since it was read, and adds its packet to the history |
| `EventList.TakeIntact` | src/dune_scheduler/fswatch_win_stubs.c:106-116 | a successful exchange takes the whole list and moves it to the popped chains |
| `EventList.EffectFrame` | src/dune_scheduler/fswatch_win_stubs.c:92-116 | no step touches a cell that is neither in the list nor owned by its own thread, provided a link that is read again is unchanged |
| `EventList.EffectSound` | src/dune_scheduler/fswatch_win_stubs.c:173-210 | a thread keeps its cells: the one in hand stays allocated and linked as read, and a chain stays intact while it is freed cell by cell |
| `EventList.EffectPackets` | src/dune_scheduler/fswatch_win_stubs.c:92-101 | packets enter by an allocation, are pushed by a successful exchange, and stay where they are in every other step, provided a link that is read again is unchanged |
| `EventList.NoFreedCellIsUsed` | src/dune_scheduler/fswatch_win_stubs.c:92-104 | in every such run a thread that has begun can take its next step, so no freed cell is read, written or freed again; and where cells are freed by the rule, reading the link after the exchange has the same effect as before it |
| `EventList.PoppedChainIsRun` | src/dune_scheduler/fswatch_win_stubs.c:475-480 | in every such run a popped chain is a contiguous run of the pushes, newest first |
| `EventList.PacketInOnePlace` | src/dune_scheduler/fswatch_win_stubs.c:92-116 | at all times of such a run every packet is in exactly one hand, the list, or one popped chain, and there once |
| `EventList.RuleIsExact` | src/dune_scheduler/fswatch_win_stubs.c:97-101 | after a run that keeps the rule, freeing a cell leaves every later comparison possible and unchanged in all continuations that keep it, if and only if no pusher of that cell is between its exchange and its comparison |
| `EventList.LateReadFails` | src/dune_scheduler/fswatch_win_stubs.c:97-101 | a run in which a cell is popped and freed before its pusher reads the link for the comparison |
| `EventList.TwoOwners` | src/dune_scheduler/fswatch_win_stubs.c:97-101 | a run in which the address is reused and that pusher goes round the loop with a cell of another thread |
| `EventList.PushedTwice` | src/dune_scheduler/fswatch_win_stubs.c:97-101 | a run in which both then push it, and one packet is in the list twice |
| `EventProgress.PopTakesEffect` | src/dune_scheduler/fswatch_win_stubs.c:106-116 | in every run a thread that began to pop is still in the loop or has taken the whole list as one chain |
| `EventProgress.PushTakesEffect` | src/dune_scheduler/fswatch_win_stubs.c:92-101 | in every such run a packet stays in the hand of the thread that began to push it until it has entered the list |
| `EventProgress.PushAlone` | src/dune_scheduler/fswatch_win_stubs.c:92-101 | an undisturbed push puts its packet in front of the list in one turn |
| `EventProgress.PopAlone` | src/dune_scheduler/fswatch_win_stubs.c:106-116 | an undisturbed pop takes the whole list in one turn |
| `EventProgress.FailedPushMeansSuccess` | src/dune_scheduler/fswatch_win_stubs.c:97-101 | if the exchange of a push fails, another push or pop has succeeded since the head was read |
| `EventProgress.FailedPopMeansSuccess` | src/dune_scheduler/fswatch_win_stubs.c:110-113 | the same for the exchange of a pop |
| `Wakeup.NoPacketIsStranded` | src/dune_scheduler/fswatch_win_stubs.c:461-480 | a run never leaves packets in the list with the consumer waiting and nobody about to wake it, if and only if at every second reset of the event the list is empty or a producer has yet to set it |
| `Wakeup.PacketIsStranded` | src/dune_scheduler/fswatch_win_stubs.c:475-478 | a run in which the second reset does leave a packet behind |
| `Wakeup.StrandedStays` | src/dune_scheduler/fswatch_win_stubs.c:461-480 | such a packet stays until the next push |
| `WatchList.IsPrefix` | src/dune_scheduler/fswatch_win_stubs.c:235-241 | the loop decides the prefix relation of two zero-terminated strings without reading behind either terminator |
| `WatchList.AddKeeps` | src/dune_scheduler/fswatch_win_stubs.c:258-311 | adding a directory, refused or not, keeps open directories unrelated and closes and frees nothing twice |
| `WatchList.HandleKeeps` | src/dune_scheduler/fswatch_win_stubs.c:333-381 | handling any packet keeps the invariant |
| `WatchList.RemoveIdle` | src/dune_scheduler/fswatch_win_stubs.c:318-331 | a watch may be removed and freed once no read and no completion refers to it |
| `WatchList.RunsKeep` | src/dune_scheduler/fswatch_win_stubs.c:333-381 | in every run open directories are pairwise unrelated, each listed watch has at most one read or completion, and every handle is closed once and every watch freed once or still listed |
| `WatchList.NoFreedWatchIsUsed` | src/dune_scheduler/fswatch_win_stubs.c:343-366 | a queued completion never refers to a freed watch |
| `WatchProgress.StallsAreEmptyReads` | src/dune_scheduler/fswatch_win_stubs.c:333-381 | in every run the listed watches with neither a read in progress nor a completion at the port are exactly those for which a completion without bytes was handled |
| `WatchProgress.EveryWatchIsRead` | src/dune_scheduler/fswatch_win_stubs.c:353-359 | so a listed watch without such a completion is being read or has a completion waiting |
| `WatchProgress.EventsAreReadOn` | src/dune_scheduler/fswatch_win_stubs.c:353-359 | after a completion with bytes the events are pushed and the next read is in progress, or the watch is freed: exactly when shutting down, closed, or the read could not be started |
| `WatchProgress.ShutdownIsFinal` | src/dune_scheduler/fswatch_win_stubs.c:369-377 | the watcher is shutting down exactly when a shutdown request was handled, and then every handle is closed |
| `WatchProgress.NothingAfterShutdown` | src/dune_scheduler/fswatch_win_stubs.c:353-364 | from then on no watch is allocated and no event is pushed |
| `WatchProgress.ShutdownDrains` | src/dune_scheduler/fswatch_win_stubs.c:338-377 | with a shutdown under way and all reads handled the loop goes on exactly if a completion without bytes was handled for a watch still listed |
| `WatchProgress.EveryAddIsAnswered` | src/dune_scheduler/fswatch_win_stubs.c:360-368 | every add request is at the port or has been answered, once |
| `WatchProgress.AddIsExact` | src/dune_scheduler/fswatch_win_stubs.c:258-311 | the new directory is listed exactly when it could be opened, attached and read and no listed one is a prefix of it; then it is open and being read, and exactly the directories below it are closed |
| `WatchThread.Watcher.Continues` | src/dune_scheduler/fswatch_win_stubs.c:338 | the loop condition on the list is that of the step system |
| `WatchThread.Watcher.FindPrefix` | src/dune_scheduler/fswatch_win_stubs.c:285-291 | the walk over the list finds a prefix exactly when some listed directory is one |
| `WatchThread.Watcher.CloseWhere` | src/dune_scheduler/fswatch_win_stubs.c:299-306 | the walk invalidates just the entries that meet the condition and closes each open handle once, in list order |
| `WatchThread.Watcher.Remove` | src/dune_scheduler/fswatch_win_stubs.c:318-331 | the one entry is unlinked, its handle closed if still open, and the watch freed |
| `WatchThread.Watcher.Add` | src/dune_scheduler/fswatch_win_stubs.c:258-311 | the loops of add_watch on the list do what the step system does on the set of watches |
| `WatchThread.Watcher.Handle` | src/dune_scheduler/fswatch_win_stubs.c:333-381 | one turn of the thread loop is the step of the step system |
| `WatchThread.Watcher.Run` | src/dune_scheduler/fswatch_win_stubs.c:333-381 | whatever arrives and in whatever order packets are taken, the thread goes through the states of a run of the step system, so it has its invariant throughout |
| `WatchThread.WalkIsHandlesOf` | src/dune_scheduler/fswatch_win_stubs.c:371-375 | a walk over the list closes the handles of the chosen watches, each once, newest first |
| `WatchList.RefusalIsExact` | src/dune_scheduler/fswatch_win_stubs.c:258-289 | the prefix test refuses just what is already watched if and only if no open prefix ends inside a path component and no closed prefix stands without an open one |
| `WatchList.ClosedPrefixRefuses` | src/dune_scheduler/fswatch_win_stubs.c:283-289 | a directory below one that is closed but still listed is refused though not watched |
| `WatchList.ClosedPrefixIsReached` | src/dune_scheduler/fswatch_win_stubs.c:333-381 | a run leads to that state, for any directory and one above it |
| `WatchList.SiblingIsRefused` | src/dune_scheduler/fswatch_win_stubs.c:283-289 | after the directory a is watched, its sibling ab is refused |
| `Monitor.StepLocks` | src/dune_scheduler/fsevents_stubs.c:281-328 | every step keeps each lock with the one thread whose position says so |
| `Monitor.StepOneWorker` | src/dune_scheduler/fsevents_stubs.c:281-328 | every step within the discipline leaves each stream with at most one thread that starts or stops it |
| `Monitor.StepPositions` | src/dune_scheduler/fsevents_stubs.c:281-328 | such a thread finds the dq field of its stream set, and the stream counted exactly between its increment and its decrement |
| `Monitor.StepAtRest` | src/dune_scheduler/fsevents_stubs.c:281-328 | a stream that nobody works on is counted exactly when its dq field is set |
| `Monitor.EffectCounts` | src/dune_scheduler/fsevents_stubs.c:281-328 | a step keeps the counter right if and only if it does not increment for a counted stream or decrement for one that is not |
| `Monitor.StepCounter` | src/dune_scheduler/fsevents_stubs.c:281-328 | every step within the discipline keeps the counter equal to the number of counted streams modulo 2^32 |
| `Monitor.StepSleepers` | src/dune_scheduler/fsevents_stubs.c:98-100 | every step keeps sleepers either rightly asleep or about to be woken by the holder of the lock |
| `Monitor.RunsKeep` | src/dune_scheduler/fsevents_stubs.c:281-328 | the invariant holds in every state of every disciplined run |
| `Monitor.MonitorIsSafe` | src/dune_scheduler/fsevents_stubs.c:93-109 | in every interleaving the counter is the number of counted streams, one thread at most is inside the lock, and nobody sleeps while the lock is free and the wait should end |
| `MonitorCalls.WaitEndsForAReason` | src/dune_scheduler/fsevents_stubs.c:93-109 | in every run a wait that has returned has seen under the lock, after it was called, that no stream is counted or an exception is recorded |
| `MonitorCalls.PastTheLoop` | src/dune_scheduler/fsevents_stubs.c:98-103 | a thread behind the loop of the wait left it in an earlier state of the run with the counter at 0 or an exception recorded |
| `MonitorCalls.WaitDecides` | src/dune_scheduler/fsevents_stubs.c:99-101 | at the test a thread falls asleep exactly when there are streams and no exception |
| `MonitorCalls.ExceptionIsExact` | src/dune_scheduler/fsevents_stubs.c:196-202 | in every run the flag is set exactly when some callback has recorded an exception, and stays set |
| `MonitorCalls.RaiseIsRecorded` | src/dune_scheduler/fsevents_stubs.c:195-202 | a callback that raises does nothing else before its exception is recorded |
| `MonitorCalls.BroadcastIsExact` | src/dune_scheduler/fsevents_stubs.c:297-323 | a thread goes on to broadcast exactly when it records an exception or takes the last stream off the counter |
| `MonitorCalls.StopTakesEffect` | src/dune_scheduler/fsevents_stubs.c:307-328 | a stop of a stream with its field set is under way, or has returned with the field null and the stream not counted |
| `MonitorCalls.StartTakesEffect` | src/dune_scheduler/fsevents_stubs.c:281-305 | a start is under way until the system has answered, when the stream is counted and its field set |
| `MonitorCalls.FailedStartIsUndone` | src/dune_scheduler/fsevents_stubs.c:293-303 | a start that failed is undone before it returns: the field is null and the stream not counted |
| `Monitor.DisciplineIsExact` | src/dune_scheduler/fsevents_stubs.c:281-328 | after any disciplined run, a call of start or stop keeps the counter right in every disciplined continuation if and only if it is itself within the discipline: start while the dq field is null, stop while it is null or nobody else works on the stream |
| `Monitor.StopHarms` | src/dune_scheduler/fsevents_stubs.c:307-328 | after a stop while another thread starts or stops the stream, some continuation makes the counter wrong |
| `Monitor.StartHarms` | src/dune_scheduler/fsevents_stubs.c:281-305 | after a start of a stream that is counted or being started or stopped, some continuation makes the counter wrong |
| `Fsevents.WrapperIsDisciplined` | src/dune_scheduler/fsevents.ml:348-370 | every run in which the stubs are called through the states and the mutexes of fsevents.ml keeps the discipline |
| `Fsevents.MarkIsExact` | src/dune_scheduler/fsevents.ml:341-370 | in every such run a stream is in the state Start exactly when it is counted and nobody is starting or stopping it |
| `Fsevents.MutexMakesAlone` | src/dune_scheduler/fsevents.ml:26 | whoever is inside the critical section of a stream and about to call a stub is the only one to start or stop it |
| `Monitor.NoDeadlock` | src/dune_scheduler/fsevents_stubs.c:193-204 | when a thread is blocked, the holder of the lock it waits for, or of the lock that one waits for, can take a step |
| `Monitor.LockIsReleased` | src/dune_scheduler/fsevents_stubs.c:281-328 | the holder of the mutex is never blocked or displaced and is out after at most three of its own steps |
| `Monitor.CallbackFindsQueue` | src/dune_scheduler/fsevents_stubs.c:193-204 | the callback finds the dq field set, and so may raise, exactly when the stream is counted or being started or stopped as it reads the field |
| `Monitor.FoundStays` | src/dune_scheduler/fsevents_stubs.c:193-204 | nothing that happens before the callback raises or returns changes what it has read |
| `Monitor.LateCallback` | src/dune_scheduler/fsevents_stubs.c:193-204 | a disciplined run in which a callback gets the runtime lock after its stream was stopped and finds the field null |
| `Monitor.TwoStopsWrap` | src/dune_scheduler/fsevents_stubs.c:307-328 | a run outside the discipline in which two stops of one stream wrap the counter around |

## Left out

- The SSE2, SSE4.1, AVX2 and AVX-512 code, CPU feature detection and the TBB join: the SIMD degree is a parameter, any power of two up to any maximum, chosen anew for every update.
- Keyed and derive-key initialisation: key and flags are parameters of every theorem; loading the key bytes and hashing the context string would only add easy members.
- `Digests.MiniFd`: what read returns is a parameter; the variants that read a file by name or feed strings and the OCaml heap are not modelled.
- Any claim about collision resistance.
- The seven calls of the round function are loops, the vector array of the NEON rounds is a record of local variables, and pointers into inputs are slices of sequences.
- `Root.OutputRootBytes`: the block counter is not wrapped at 2^64 blocks, which no 64-bit seek reaches.
- `Redirect.Process.RedirectStd`: says nothing about the descriptor table after a failure, because the child then reports the error and exits; the error pipe is assumed to be apart from the three given descriptors.
- The rest of spawning: fork, exec, working directory, signals, landlock, posix_spawn and the Windows branch, which are kernel behaviour.
- `StringBlock.PackStrings`: malloc failure is not modelled, a pointer has eight bytes, and argv[0] is the first string of the list.
- `EventList.PoppedChainIsRun`: the order of entries within one packet and the decoding of file names are not modelled.
- `Wakeup.NoPacketIsStranded`: one consumer, packets are counted and not told apart, and the whole list is taken in one step, which `EventProgress.PopTakesEffect` justifies.
- `WatchList.RunsKeep`: get_final_path is assumed to succeed; buffers and path strings are freed with their watch.
- `WatchThread.Watcher.Remove`: the links of the list are the order of a sequence, not pointers in memory.
- `WatchProgress.ShutdownDrains`: that the system completes cancelled reads is not claimed.
- `Monitor.MonitorIsSafe`: the counter has 32 bits, so the claim about sleepers is for runs in which fewer than 2^32 streams are counted at a time; the exception value itself, thread registration, a callback that starts or stops streams itself, and the stream calls of the system are not modelled.
- `Monitor.DisciplineIsExact`: the harmful continuations may let FSEventStreamStart fail, which the code handles although a comment calls it impossible.
- Other stubs (libev, flock, readdir, wait4, time, xdg, copyfile, trace, MD5) are thin wrappers over system calls, and the OCaml code apart from the stream states of fsevents.ml is not modelled.
