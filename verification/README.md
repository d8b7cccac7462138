# EDRStore verification

EDRStore is a storage server for encrypted backups: clients send chunks, the server stores each one
once, compressed or as a delta against a similar chunk, in containers, and gives files back. This
project models the parts of its baseline with the most state and arithmetic, and proves what they
promise. Every file is one module or two of the same matter; `dafny verify dfyconfig.toml` checks all.

## Contents

1. **The queue between the threads** (`Queue*.dfy`, `CeilPow2.dfy`, `Pipeline.dfy`, `Semaphore.dfy`,
   `BlockingQueue.dfy`). The lock-free ring of blocks for one producer and one consumer as a state machine:
   one step is one load or store of a shared variable, a run is any interleaving. First in first out,
   both hand-off assertions, what decides whether an element is taken, what a failed call means, how large
   the queue can get, what the approximate size is, shutdown, and the blocking queue with its semaphore.
2. **Merging deltas** (`Delta.dfy`, `Merge.dfy`, `MergeStream.dfy`, `MergeWindow.dfy`). Collecting the windows
   of a VCDIFF file (RFC 3284) into one delta, and merging two deltas into one that does both.
3. **Static Huffman coding of sections** (`BitStream.dfy`, `Heap.dfy`, `Prefix*.dfy`, `Canonical.dfy`,
   `Mtf12.dfy`, `Huff*.dfy`). From the heap to the encoded section and back, with one group and with
   several; and that the codes are as short as codes can be.
4. **Adaptive Huffman coding** (`Fgk*.dfy`). `FgkTree` and `FgkCode` are the tree by position in sibling
   order, its codes and the decoder's walk, `FgkOrder` what its weights are; `FgkStream` is the structure
   of the source, nodes and blocks linked by indices and changed in place, proved to hold that tree
   after every call.
5. **Rolling fingerprints** (`Gf2.dfy`, `Rabin.dfy`, `RabinWindow.dfy`). Polynomials over GF(2), the word
   arithmetic, the tables, and the window sliding over a ring.
6. **The server** (`LruCache.dfy`, `ReadCache.dfy`, `StorageCore.dfy`, `SimilarPolicy.dfy`, `ServerState.dfy`,
   `UploadProtocol.dfy`, `Server.dfy`). The containers with their cache, the receiver and the writer of an
   upload interleaved, and restores.
7. **Reading VCDIFF** (`Vcd*.dfy`, `Adler.dfy`). Integers, the reader that can be fed any pieces of a file,
   the layout that it accepts, and the output of a window from a source that comes in blocks, with its
   checksum.

What the server takes from foreign code are functions in the record `Env`: hashing, features,
compression and delta coding. Assumed of them is `ServerState.Lawful`, for chunks of at least one byte and
at most a container: decompressing and delta decoding undo, a chunk that does not compress is copied,
and nothing outgrows a container. Also assumed: no two of the chunks uploaded have the same
fingerprint, a fresh container id is fresh, chunks are not empty and fit a container, and the cache
has at least one slot.

## Model

| member | source | states |
|---|---|---|
| `CeilPow2.CeilToPow2` | Baseline/include/message_queue/readerwriterqueue.h:654-666 | the bit smear on a 64-bit word gives the rounding with which the model builds its blocks: the least power of two that is at least x for 1 <= x <= 2^63, and 0 for x == 0 and x > 2^63 |
| `CeilPow2.LeastPower` | Baseline/include/message_queue/readerwriterqueue.h:654-666 | the doubling form of the rounding is a power of two that is at least x, and no smaller power of two is |
| `QueueTheorems.InitOk` | Baseline/include/message_queue/readerwriterqueue.h:105-161 | the ring of blocks that the constructor builds, with the rounding of a 64-bit word, meets the queue invariant (ring, roles, shadow indices, capacity, order) for every size of at least 1 and below 2^63 and every largest block size of at least 2 and at most 2^62 |
| `QueueTheorems.EnoughRoom` | Baseline/include/message_queue/readerwriterqueue.h:105-161 | for sizes below 2^63, one block fewer than the constructor makes, all full, hold at least the size asked for; and so does a single block |
| `QueueTheorems.StepKeeps` | Baseline/include/message_queue/readerwriterqueue.h:281-644 | each atomic load or store of either thread, with any outcome of an allocation, keeps the queue invariant |
| `QueueTheorems.FirstInFirstOut` | Baseline/include/message_queue/readerwriterqueue.h:281-376 | built for at least 1 and fewer than 2^63 elements: at every instant of every interleaving, what was enqueued is what was dequeued followed by what the blocks hold, neither assertion of the two hand-offs fails, and no element is written outside a block |
| `QueueTheorems.FailedDequeueSawEmpty` | Baseline/include/message_queue/readerwriterqueue.h:284-376 | when try_dequeue returns false, there was an instant during that very call at which everything enqueued had been dequeued |
| `QueueTheorems.FailedEnqueueSawFull` | Baseline/include/message_queue/readerwriterqueue.h:534-644 | when try_enqueue returns false without a failed allocation, there was an instant during that very call at which the queue held at least the promised number of elements |
| `QueueBounded.EnqueueReturns` | Baseline/include/message_queue/readerwriterqueue.h:534-644 | in every interleaving, a call of enqueue or try_enqueue that returns true has enqueued just its element, one that returns false nothing |
| `QueueBounded.DequeueReturns` | Baseline/include/message_queue/readerwriterqueue.h:284-376 | in every interleaving, what try_dequeue gives back has been dequeued, and nothing else has |
| `QueueBounded.EnqueueDecides` | Baseline/include/message_queue/readerwriterqueue.h:534-644 | every call, in every interleaving, has an instant that decides it: if there is room then (a free slot in the tail block, or a block behind it that is not the front block), the element goes in and no block is made; if there is none, try_enqueue returns false and makes no block, and enqueue makes one block or returns false because the allocation failed |
| `QueueBounded.QuietEnqueue` | Baseline/include/message_queue/readerwriterqueue.h:534-644 | while the consumer takes no step, try_enqueue succeeds if and only if there was room when it was called |
| `QueueBounded.NeverGrows` | Baseline/include/message_queue/readerwriterqueue.h:534-644 | a queue of which only try_enqueue is called, as LckFreeMQ does, keeps the blocks it was built with, and holds at most one element fewer than each has slots |
| `QueueZero.ZeroBreaks` | Baseline/include/message_queue/readerwriterqueue.h:105-161 | from the queue built with size 0, a run of calls reaches the failed assertion of the block advance |
| `QueueZero.HugeBreaks` | Baseline/include/message_queue/readerwriterqueue.h:105-161 | from half a word on, the rounding gives 0 and the one block has no slots: the first enqueue writes outside of it |
| `QueueZero.SafeIffSized` | Baseline/include/message_queue/readerwriterqueue.h:105-161 | for every size of 64 bits: every run keeps the order, both assertions and the bounds of the blocks if and only if the size is at least 1 and below 2^63 |
| `QueueWalk.SizeApprox` | Baseline/include/message_queue/readerwriterqueue.h:493-506 | the loop over the ring, with no other thread at work, adds up the elements of all blocks |
| `QueueWalk.CountsLive` | Baseline/include/message_queue/readerwriterqueue.h:493-506 | in every reachable state that sum is the elements queued, and one more while one is being handed over |
| `QueueWalk.SizeApproxBounds` | Baseline/include/message_queue/readerwriterqueue.h:493-506 | a walk by the consumer, load by load, while the producer goes on in any interleaving and may add blocks: the result is at least what was queued when it began, and at most what is queued when it ends with the one being handed over |
| `QueueWalk.SizeExact` | Baseline/include/message_queue/readerwriterqueue.h:493-506 | while no enqueue is under way, the sum is exactly the number of elements enqueued and not yet dequeued |
| `Pipeline.ShutdownLosesNothing` | Baseline/include/message_queue/lck_free_mq.h:60-94 | in every interleaving of a producer that pushes its items and then sets the done flag with a consumer that loops until done and empty, what was popped is a prefix of the items, and all of them once the consumer has left its loop |
| `Semaphore.SemaphoreCounts` | Baseline/include/message_queue/atomicops.h:579-663 | in every interleaving of signals with waits, timeouts and spinning, no wait succeeds without a signal, the assertion of signal holds, and while no wait is under way the count is the signals not yet taken |
| `Semaphore.SignalledWaitSucceeds` | Baseline/include/message_queue/atomicops.h:579-663 | in every interleaving, a wait or tryWait that begins with a signal left cannot fail |
| `Semaphore.WakesUp` | Baseline/include/message_queue/atomicops.h:579-663 | a waiter that blocks is let through, once the signaller is done, if and only if a signal is left |
| `BlockingQueue.DequeueSucceeds` | Baseline/include/message_queue/readerwriterqueue.h:284-376 | a try_dequeue that starts when more was enqueued than dequeued cannot come back empty |
| `BlockingQueue.WaitThenDequeue` | Baseline/include/message_queue/readerwriterqueue.h:875-903 | in every interleaving with timeouts, the dequeue after a successful wait succeeds (its assertion holds) and the order of the elements is kept |
| `Delta.DecodeMeans` | Baseline/third/xdelta/xdelta3-decode.h:400-595 | decoding byte by byte, with copies that read what they have themselves written, gives every instruction its bytes |
| `Delta.MeansUnique` | Baseline/third/xdelta/xdelta3-decode.h:400-595 | an output satisfies the instructions pointwise if and only if it is the decoded one |
| `Merge.MergePreservesMeaning` | Baseline/third/xdelta/xdelta3-merge.h:529-581 | for all well-formed deltas a and b and every source, the merged delta is well-formed and decodes the source to what b decodes from what a decodes |
| `Merge.CopyGood` | Baseline/third/xdelta/xdelta3-merge.h:408-526 | resolving a copy of the first output, through runs, adds and chains of self-copies, appends instructions that give exactly the copied bytes |
| `Merge.CopyKinds` | Baseline/third/xdelta/xdelta3-merge.h:408-526 | resolving only adds instructions and literals at the end, and every copy it adds reads the source |
| `MergeStream.WholeState.MergeRun` | Baseline/third/xdelta/xdelta3-merge.h:282-309 | appends a run of the one literal byte, and nothing else changes but the length |
| `MergeStream.WholeState.MergeAdd` | Baseline/third/xdelta/xdelta3-merge.h:311-341 | appends an addition with its own copy of the literal bytes, and nothing else changes but the length |
| `MergeStream.WholeState.MergeTargetCopy` | Baseline/third/xdelta/xdelta3-merge.h:343-359 | appends the copy of the output itself with its address as it was |
| `MergeStream.WholeState.FindPosition` | Baseline/third/xdelta/xdelta3-merge.h:361-406 | the binary search finds the one instruction that covers the address, and fails exactly for an address beyond the output |
| `MergeStream.NextInst` | Baseline/third/xdelta/xdelta3-merge.h:408-526 | after what is left of an instruction is taken, the next address belongs to the next instruction, if no empty one stands between two bytes |
| `MergeStream.BoundsDecide` | Baseline/third/xdelta/xdelta3-merge.h:408-526 | a copy of such an output succeeds if and only if it begins and ends inside it; a start beyond the end is reported, an end beyond the end fails an assertion |
| `MergeStream.SmoothDecides` | Baseline/third/xdelta/xdelta3-merge.h:408-526 | all copies inside the output of a delta succeed if and only if no empty instruction of it stands between two bytes |
| `MergeStream.EmptyStops` | Baseline/third/xdelta/xdelta3-merge.h:440-452 | three instructions, the middle one empty, that decode but whose two bytes cannot be copied |
| `MergeStream.WholeState.MergeSourceCopy` | Baseline/third/xdelta/xdelta3-merge.h:408-526 | returns the error of the first round that has one, and on success has appended exactly the instructions of the resolved range |
| `MergeStream.WholeState.MergeInputs` | Baseline/third/xdelta/xdelta3-merge.h:529-581 | for any collected deltas, empty instructions included: returns the error of the first instruction that has one; on success the result is well-formed, keeps the windows of the second, and decodes every source to the second applied after the first; if no empty instruction of the first stands between two bytes, it succeeds if and only if the second reads only the output of the first |
| `MergeWindow.WindowReader.DecodeInstruction` | Baseline/third/xdelta/xdelta3-decode.h:362-396 | the pair is accepted if and only if both halves parse at their positions, and the position moves by their sizes |
| `MergeWindow.WindowReader.AppendInst` | Baseline/third/xdelta/xdelta3-merge.h:159-217 | one half-instruction becomes one instruction of the whole delta at its end: addresses turned from the window to the whole output or to the source, literals copied |
| `MergeWindow.AppendMeans` | Baseline/third/xdelta/xdelta3-merge.h:159-217 | that instruction extends the decoded output by exactly the bytes the half-instruction has in its window |
| `MergeWindow.WindowReader.AppendWindow` | Baseline/third/xdelta/xdelta3-merge.h:219-254 | a window that the decoder accepts, empty instructions included, is collected without an error: the delta stays well-formed and decodes to the old output followed by the output of the window |
| `MergeWindow.CollectedIsReadable` | Baseline/third/xdelta/xdelta3-merge.h:219-254 | a delta collected that way is one that the merge can take as its second input |
| `MergeWindow.MergeInputOutput` | Baseline/third/xdelta/xdelta3-merge.h:256-280 | merging the collected delta over an earlier one replaces it by one that decodes every source to the two in turn; on an error it is left as it was |
| `MergeWindow.SwapWholeState` | Baseline/third/xdelta/xdelta3-merge.h:47-58 | the two states have changed places, windows included |
| `BitStream.ValueMsb` | Baseline/third/xdelta/xdelta3-second.h:214-241 | the bits of a value, most significant first, have that value |
| `BitStream.BitWriter.EncodeBits` | Baseline/third/xdelta/xdelta3-second.h:214-241 | appends the bits of the value, most significant first, to the bits written |
| `BitStream.BitWriter.FlushBits` | Baseline/third/xdelta/xdelta3-second.h:206-212 | the bytes put out are the bits written and fewer than eight zero bits |
| `BitStream.BitReader.DecodeBits` | Baseline/third/xdelta/xdelta3-second.h:25-72 | succeeds if and only if that many bits are left, gives their value and consumes them |
| `Heap.HeapInsert` | Baseline/third/xdelta/xdelta3-djw.h:255-269 | keeps the heap order and adds the one entry |
| `Heap.HeapExtract` | Baseline/third/xdelta/xdelta3-djw.h:271-303 | keeps the heap order and removes one entry, of which no entry is less in weight and then depth |
| `Heap.RootLeast` | Baseline/third/xdelta/xdelta3-djw.h:247-253 | no entry of a heap is less than its root |
| `PrefixTree.JoinHeavy` | Baseline/third/xdelta/xdelta3-djw.h:378-504 | joining the two lightest trees keeps every tree at least as heavy as its depth demands (Fibonacci numbers) |
| `PrefixTree.DeepIsHeavy` | Baseline/third/xdelta/xdelta3-djw.h:378-504 | a leaf more than maxlen below the root means a total weight of at least the Fibonacci number of that depth |
| `PrefixTree.Complete` | Baseline/third/xdelta/xdelta3-djw.h:378-504 | the depths of the leaves of one tree fill the code space exactly (the Kraft sum is 1) |
| `PrefixOptimal.Lower` | Baseline/third/xdelta/xdelta3-djw.h:446-459 | no lengths that leave room for a prefix code (Kraft) cost less than joining the two least weights until one is left, each time at the cost of their sum |
| `PrefixOptimal.TreeShortest` | Baseline/third/xdelta/xdelta3-djw.h:446-482 | the depths of the leaves of the one tree left are the lengths of a shortest prefix code: no other for the symbols that have a weight takes fewer bits |
| `PrefixBuild.BuildTree` | Baseline/third/xdelta/xdelta3-djw.h:446-459 | joining the two least entries until one is left gives a binary forest of one root over the weights, with its total weight unchanged |
| `PrefixBuild.CountLengths` | Baseline/third/xdelta/xdelta3-djw.h:463-482 | the length of a symbol is its number of hops to the root; overflow says exactly that one exceeds the limit, and the total is the sum of weight times length |
| `PrefixBuild.RescaledFalls` | Baseline/third/xdelta/xdelta3-djw.h:496-503 | halving and adding one lowers the greatest weight whenever it is at least 3 |
| `PrefixBuild.OverflowHeavy` | Baseline/third/xdelta/xdelta3-djw.h:496-503 | in the alphabets and limits that the program uses, a code that is too long means a weight of at least 3, so that rescaling makes progress, and a total weight of at least a Fibonacci number |
| `PrefixBuild.BuildPrefix` | Baseline/third/xdelta/xdelta3-djw.h:378-504 | terminates with lengths of a complete code within the limit in which every symbol that occurs has a word, and the exact total of bits. They are the lengths of a shortest code for the frequencies, or for the weights after k overflows, each of them of a shortest code with a word above the limit; of one for the frequencies themselves whenever none exceeds 2 or their sum is below the Fibonacci number of the limit. The symbols with a word are either all of them or exactly those that occur (and the fake one if only one does): the latter in these same cases, the former whenever the frequencies double too often for the limit |
| `Canonical.BuildCodes` | Baseline/third/xdelta/xdelta3-djw.h:506-547 | every used symbol gets its canonical code: in order of length and then of symbol |
| `Canonical.CodeFits` | Baseline/third/xdelta/xdelta3-djw.h:506-547 | that code fits in its length |
| `Canonical.PrefixFree` | Baseline/third/xdelta/xdelta3-djw.h:506-547 | no codeword is a prefix of another |
| `Canonical.BuildDecoder` | Baseline/third/xdelta/xdelta3-djw.h:1338-1408 | the limit, base and inorder tables are those of the canonical code, for any lengths within the limit |
| `Canonical.DecodeSymbol` | Baseline/third/xdelta/xdelta3-djw.h:1410-1477 | success means that the input starts with the codeword of the symbol and that just this was consumed; failure, that it starts with no codeword |
| `Canonical.DecodeUnique` | Baseline/third/xdelta/xdelta3-djw.h:1410-1477 | an input starts with at most one codeword |
| `Mtf12.UpdateMtf` | Baseline/third/xdelta/xdelta3-djw.h:324-334 | the symbol at the index moves to the front, the others keep their order |
| `Mtf12.ListIsRecency` | Baseline/third/xdelta/xdelta3-djw.h:324-334 | after any symbols the list has them in the order of their last occurrences, and the others behind them: a place is the number of different symbols since the last occurrence |
| `Mtf12.RunCodesMean` | Baseline/third/xdelta/xdelta3-djw.h:336-356 | the digits of a run have the value of its length in bijective base two |
| `Mtf12.Update12` | Baseline/third/xdelta/xdelta3-djw.h:336-356 | a run of zeros becomes its digits of bijective base two, and each digit is counted |
| `Mtf12.ComputeMtf12` | Baseline/third/xdelta/xdelta3-djw.h:552-603 | the codes are the move-to-front positions with their runs, no more than the symbols, and the frequencies are their exact counts |
| `Mtf12.Decode12` | Baseline/third/xdelta/xdelta3-djw.h:1534-1607 | on the codewords of a list encoded that way, with the entries that the skip offset leaves out, gives back the list and consumes just these bits; whatever it accepts stays within the bound |
| `HuffFormat.SectorCountIs` | Baseline/third/xdelta/xdelta3-djw.h:1678-1679 | the number of sectors is the length divided by the sector size, rounded up |
| `HuffFormat.MultiMatches` | Baseline/third/xdelta/xdelta3-djw.h:639-661 | the symbols that the encoder sends for the tables of all groups are those that the decoder expects if and only if all groups leave out the same symbols |
| `HuffEncode.UnequalZeros` | Baseline/third/xdelta/xdelta3-djw.h:378-504 | two frequency tables in which the same symbols occur, whose lengths leave out different symbols: what is sent for the two groups is not what the decoder expects |
| `HuffEncode.CountFreqs` | Baseline/third/xdelta/xdelta3-djw.h:606-637 | the frequencies are the exact counts of the bytes |
| `HuffEncode.BitsExact` | Baseline/third/xdelta/xdelta3-djw.h:855-953 | the codewords of the data take exactly the total of bits that was computed from the frequencies |
| `HuffEncode.EncodePrefix` | Baseline/third/xdelta/xdelta3-djw.h:674-733 | writes the number of code length codes, their lengths, and the codewords of the lengths, for the best code of at most 15 bits for the counts of the move-to-front codes |
| `HuffEncode.MultiPrefix` | Baseline/third/xdelta/xdelta3-djw.h:639-661 | the first table whole, then of every other the lengths that are not zero |
| `HuffEncode.EncodeSelector` | Baseline/third/xdelta/xdelta3-djw.h:1212-1256 | writes the lengths and codewords of the groups that the sectors use, for the best code of at most 7 bits |
| `HuffEncode.EncodeSectors` | Baseline/third/xdelta/xdelta3-djw.h:1278-1310 | every sector is written with the code of its group |
| `HuffEncode.EncodeOne` | Baseline/third/xdelta/xdelta3-djw.h:855-953 | with one group the section is one that the format allows for the data; it is given up if and only if that is allowed and its codewords, with what the output holds already, are no shorter than the data by 16 bits; and for fewer than 28,656 bytes no prefix code takes fewer bits |
| `HuffEncode.EncodeMulti` | Baseline/third/xdelta/xdelta3-djw.h:956-1330 | with two to eight groups, any tables that cover the data and any choice of groups, the section is the one that the format prescribes for the tables it returns |
| `HuffDecode.DecodePrefix` | Baseline/third/xdelta/xdelta3-djw.h:1609-1627 | gives back the tables of all groups if all leave out the same symbols, and consumes just their bits |
| `HuffDecode.DecodeSelector` | Baseline/third/xdelta/xdelta3-djw.h:1723-1764 | gives back the groups of the sectors, and consumes just their bits |
| `HuffDecode.DecodeSectors` | Baseline/third/xdelta/xdelta3-djw.h:1766-1819 | gives back the data of all sectors, each with the table of its group |
| `HuffDecode.DecodeHuff` | Baseline/third/xdelta/xdelta3-djw.h:1629-1833 | any section of the format is decoded to its data, using all of it; whatever is accepted has the length asked for |
| `HuffDecode.RoundTripOne` | Baseline/third/xdelta/xdelta3-djw.h:855-953 | whatever non-empty string of bytes is encoded with one group is decoded to itself |
| `HuffGroups.GroupsAlike` | Baseline/third/xdelta/xdelta3-djw.h:1120-1165 | with frequencies as the search leaves them, zero exactly for bytes that do not occur, the tables leave out the same symbols if and only if all have words for all symbols or all have words for just those that occur |
| `HuffGroups.LightAlike` | Baseline/third/xdelta/xdelta3-djw.h:1120-1165 | they do whenever the frequencies of every group are light or every byte occurs |
| `PrefixBuild.FewAreLight` | Baseline/third/xdelta/xdelta3-djw.h:378-504 | with code lengths of at most 20, light means fewer than 28,656 counts |
| `HuffGroups.TablesLost` | Baseline/third/xdelta/xdelta3-djw.h:1534-1607 | tables of which one has a word for a symbol that the one before leaves out are never what the decoder reads, whatever the bits |
| `HuffGroups.RoundTripMulti` | Baseline/third/xdelta/xdelta3-djw.h:956-1330 | with several groups, any choice of groups for the sectors: the data comes back whenever the tables leave out the same symbols, and so, with frequencies as the search leaves them, whenever every group has fewer than 28,656 counts or every byte occurs |
| `FgkTree.StepOk` | Baseline/third/xdelta/xdelta3-fgk.h:304-457 | moving a node to the end of its block and counting it keeps the tree (pairs of siblings, children left of parents, weights sorted and summing up), with its parent next to count |
| `FgkTree.InsertOk` | Baseline/third/xdelta/xdelta3-fgk.h:461-542 | giving an unseen symbol a leaf keeps the tree, with the new leaf or its parent next to count |
| `FgkTree.LeaderParent` | Baseline/third/xdelta/xdelta3-fgk.h:328-397 | the only case in which the end of its block is the parent of a node is that of the sibling of the unseen symbols below a node of the same weight |
| `FgkCode.CodeFits` | Baseline/third/xdelta/xdelta3-fgk.h:234-290 | the code of a symbol is shorter than the buffer for it, the alphabet size |
| `FgkCode.Lockstep` | Baseline/third/xdelta/xdelta3-fgk.h:663-712 | from the root, the decoder completes a symbol exactly with the last bit of its code, and it is that symbol |
| `FgkCode.RoundTrip` | Baseline/third/xdelta/xdelta3-fgk.h:783-855 | for every state and every string of symbols, decoding the concatenated codes gives back the string, uses exactly their bits, and leaves any more bits alone |
| `FgkOrder.WeightsAreCounts` | Baseline/third/xdelta/xdelta3-fgk.h:304-326 | after any symbols from the beginning, the weight of the leaf of a symbol is the number of times it was coded, and the unseen ones are those that were not |
| `FgkOrder.OrderedUnlessLoose` | Baseline/third/xdelta/xdelta3-fgk.h:304-326 | the weights are sorted in sibling order if symbols are unseen, and otherwise if and only if the first two are |
| `FgkOrder.OrderKept` | Baseline/third/xdelta/xdelta3-fgk.h:400-457 | from a sorted tree, counting a symbol keeps it sorted if and only if this is not the case: all symbols were seen, the leftmost node is in a block of its own, the symbol is on it, and its weight is that of its sibling |
| `FgkOrder.OrderFails` | Baseline/third/xdelta/xdelta3-fgk.h:400-457 | in every alphabet, that of 256 symbols included, at most 2 * size + 1 symbols from the beginning after which the weights are not sorted |
| `FgkBlocks.Join` | Baseline/third/xdelta/xdelta3-fgk.h:620-638 | a node that enters the block of another keeps the blocks as they must be: nodes are in one block exactly if they have one leader, which the block names |
| `FgkBlocks.Abandon` | Baseline/third/xdelta/xdelta3-fgk.h:620-638 | a block that all its nodes leave can be freed, and the others are kept |
| `FgkBlocks.SomeFree` | Baseline/third/xdelta/xdelta3-fgk.h:620-631 | there is a free block whenever fewer blocks are in use than were allocated |
| `FgkLeaders.LastMoves` | Baseline/third/xdelta/xdelta3-fgk.h:400-457 | the leader of every node after one node at the end of its block is counted |
| `FgkStream.FgkStream.constructor` | Baseline/third/xdelta/xdelta3-fgk.h:159-223 | the links, blocks and counters hold the tree of no symbols, with coder and decoder at its root |
| `FgkStream.FgkStream.MakeBlock` | Baseline/third/xdelta/xdelta3-fgk.h:620-631 | takes the first free block and makes the node its leader |
| `FgkStream.FgkStream.MoveRight` | Baseline/third/xdelta/xdelta3-fgk.h:328-397 | through the sibling and parent links, the node and the leader of its block have changed places, and nothing else of the tree |
| `FgkStream.FgkStream.Promote` | Baseline/third/xdelta/xdelta3-fgk.h:400-457 | the blocks afterwards are those of the tree with the node counted |
| `FgkStream.FgkStream.FactorRemaining` | Baseline/third/xdelta/xdelta3-fgk.h:642-658 | the count of unseen symbols goes down by one and is split into a power of two and a remainder below it |
| `FgkStream.FgkStream.FindNthZero` | Baseline/third/xdelta/xdelta3-fgk.h:548-561 | the index of the symbol in the list of the unseen ones |
| `FgkStream.FgkStream.NthZeroOf` | Baseline/third/xdelta/xdelta3-fgk.h:714-728 | the unseen symbol of that index, or the last one |
| `FgkStream.FgkStream.EliminateZero` | Baseline/third/xdelta/xdelta3-fgk.h:564-587 | the list of unseen symbols without this one, and its length factored |
| `FgkStream.FgkStream.IncreaseZeroWeight` | Baseline/third/xdelta/xdelta3-fgk.h:461-542 | the links then hold the tree with a leaf for the unseen symbol |
| `FgkStream.FgkStream.UpdateTree` | Baseline/third/xdelta/xdelta3-fgk.h:304-326 | the links then hold the tree with the symbol counted up to the root |
| `FgkStream.FgkStream.EncodeData` | Baseline/third/xdelta/xdelta3-fgk.h:234-290 | the bits waiting are the code of the symbol in the old tree, and the tree has the symbol counted |
| `FgkStream.FgkStream.GetEncodedBit` | Baseline/third/xdelta/xdelta3-fgk.h:294-299 | takes the first of the bits waiting |
| `FgkStream.FgkStream.DecodeBit` | Baseline/third/xdelta/xdelta3-fgk.h:663-712 | moves the decoder as the tree says, and says whether a symbol is complete |
| `FgkStream.FgkStream.DecodeData` | Baseline/third/xdelta/xdelta3-fgk.h:734-765 | gives the complete symbol, counts it, and returns to the root |
| `FgkCodec.Encode` | Baseline/third/xdelta/xdelta3-fgk.h:783-808 | the bytes are the codes of all symbols, each in the tree of those before it, and fewer than eight zero bits; the links hold the tree of all symbols |
| `FgkCodec.Decode` | Baseline/third/xdelta/xdelta3-fgk.h:810-855 | on any bytes, gives the symbols that the bits decode to in the tree, the bytes used and the tree of these symbols, or fails if and only if the bits run out |
| `FgkCodec.BytesRoundTrip` | Baseline/third/xdelta/xdelta3-fgk.h:783-855 | encoded bytes decode to the data and use exactly these bytes, whatever follows |
| `FgkCodec.CodeAndDecode` | Baseline/third/xdelta/xdelta3-fgk.h:783-855 | for all data over the alphabet, a second object decodes what the first encoded, the input position is the end of the encoded bytes, and both then hold the same tree |
| `Gf2.RemUnique` | Baseline/src/chunker/rabin_poly.cc:54-74 | the remainder of a polynomial over GF(2) is unique |
| `Rabin.Fls64` | Baseline/src/chunker/rabin_poly.cc:46-52 | the position of the highest bit, counted from 1, and 0 for no bit |
| `Rabin.PolyMod` | Baseline/src/chunker/rabin_poly.cc:54-74 | the remainder of the 128-bit dividend by any divisor that is not 0 |
| `Rabin.PolyMult` | Baseline/src/chunker/rabin_poly.cc:76-91 | the 128-bit product over GF(2) |
| `Rabin.PolyMMult` | Baseline/src/chunker/rabin_poly.cc:93-97 | the remainder of the product |
| `RabinWindow.RabinFPUtil.constructor` | Baseline/src/chunker/rabin_poly.cc:104-124 | both tables hold the remainders that sliding needs, for every window size of 32 bits |
| `RabinWindow.RabinFPUtil.Append8IsRem` | Baseline/src/chunker/rabin_poly.cc:130-132 | appending a byte with one table look-up is the remainder of the shifted polynomial with the byte |
| `RabinWindow.RabinFPUtil.SlideIsRem` | Baseline/src/chunker/rabin_poly.cc:177-186 | dropping the oldest byte and appending the newest gives the remainder of the slid window |
| `RabinWindow.RabinFPUtil.SlideOneByte` | Baseline/src/chunker/rabin_poly.cc:177-186 | after any history of bytes, the fingerprint is the remainder of the last windowSize bytes (with zeros before the first) by the polynomial, and the ring holds them |
| `RabinWindow.WindowDecides` | Baseline/src/chunker/rabin_poly.cc:177-186 | two histories with the same last windowSize bytes have the same fingerprint |
| `RabinWindow.RabinCtx.ResetCtx` | Baseline/src/chunker/rabin_poly.cc:162-167 | the context is again that of no bytes |
| `Basics.RecentDistinct` | Baseline/include/lruCache.h:115-127 | the keys by last use are distinct and are those that were ever used |
| `LruCache.Cache.Get` | Baseline/include/lruCache.h:142-150 | the value of the key, which becomes the most recent; an absent key changes nothing |
| `LruCache.Cache.Insert` | Baseline/include/lruCache.h:115-127 | the key has the value and is the most recent; a new key leaves just the most recent ones that the limit and its elasticity allow, and all of them without a limit |
| `LruCache.Cache.PruneValue` | Baseline/include/lruCache.h:181-187 | the value of the least recently used key |
| `LruCache.Cache.Prune` | Baseline/include/lruCache.h:190-202 | once there are as many keys as limit and elasticity together, drops exactly the least recent ones beyond the limit; without a limit, none |
| `ReadCache.ReadCache.Insert` | Baseline/src/util/readCache.cc:51-65 | a container that is not cached is cached under its name as the most recent; when all slots are taken, the slot of the least recent one is reused and exactly that one is gone |
| `ReadCache.CachedAgain` | Baseline/src/util/readCache.cc:51-65 | a name that is cached already, put into a full cache: all names still give their bytes if and only if it is the least recent one, or that one has the same bytes |
| `ReadCache.ReadCache.Exist` | Baseline/src/util/readCache.cc:74-78 | says whether the container is cached |
| `ReadCache.ReadCache.Read` | Baseline/src/util/readCache.cc:86-89 | the slot starts with the bytes of the container that was inserted last under this name |
| `StorageCore.StorageCore.ReadChunk` | Baseline/src/server/storage_core.cc:38-101 | from the open container, the cache or the disk, gives exactly the bytes of the address, and fails if and only if no such container exists; the cache stays a copy of the disk |
| `StorageCore.StorageCore.WriteChunk` | Baseline/src/server/storage_core.cc:111-141 | the new address gives back the chunk and every address that gave bytes before gives the same; a chunk that fits is added to the open container, and only one that does not has that container saved and begins a new one |
| `StorageCore.StorageCore.SaveContainer` | Baseline/src/server/storage_core.cc:148-166 | the disk has the bytes of the open container under its id, and else what it had |
| `SimilarPolicy.FindBaseChunk` | Baseline/src/reduction/similar_policy.cc:41-88 | no base if and only if no feature is known; else one that a feature names, that no other chunk has more features of, and the first one if none has two |
| `SimilarPolicy.MostFrequent` | Baseline/src/reduction/similar_policy.cc:14-17 | the entry of the greatest count |
| `ServerState.LawsCanBeMet` | Baseline/src/server/data_writer_thd.cc:46-123 | the laws assumed of compression and delta coding are met by some functions on bytes |
| `UploadProtocol.StepKeeps` | Baseline/src/server/data_writer_thd.cc:46-123 | each step of the receiver, the writer or the next upload, with any data, keeps: every fingerprint that is not on its way gives back its chunk, recipes list the chunks sent, and features name stored bases |
| `UploadProtocol.EveryRun` | Baseline/src/server/data_writer_thd.cc:46-123 | in every interleaving, once the writer has left its loop every entry of every recipe is in the index and gives back the chunk sent at that place, and every feature names a chunk stored whole |
| `UploadProtocol.ContentsAreSent` | Baseline/src/server/data_recv_thd.cc:46-186 | in every run, the contents that the recipes list are the chunks with which the receiver left its idle place, in order and with repeated ones, from the beginning of each upload to its end |
| `Server.Server.Receive` | Baseline/src/reduction/dedup_detect.cc:35-52 | the chunk that the client sends is logged, and the receiver asks the index whether its fingerprint is there |
| `Server.Server.StartUpload` | Baseline/src/server/data_recv_thd.cc:46-108 | a new upload starts with an empty container, cache, queue and recipe, and with everything stored before |
| `Server.Server.ReserveEntry` | Baseline/src/reduction/dedup_detect.cc:35-52 | a fingerprint that was not there is entered, before its chunk is stored, as one that is on its way |
| `Server.Server.FinishChunk` | Baseline/src/server/data_recv_thd.cc:115-164 | a new chunk enters the queue and every chunk, new or not, the recipe, so that the recipe lists what was logged and chunks on their way stay in the order in which they will be entered |
| `Server.Server.ProcessRecipe` | Baseline/src/server/data_recv_thd.cc:194-210 | the fingerprint is added to the batch, which is written when it is full |
| `Server.Server.EndUpload` | Baseline/src/server/data_recv_thd.cc:171-186 | the file has the chunks that the client sent, as they were logged, the last batch included |
| `Server.Server.PopChunk` | Baseline/src/server/data_writer_thd.cc:65-106 | the writer takes the oldest chunk of the queue |
| `Server.Server.LeaveLoop` | Baseline/src/server/data_writer_thd.cc:107-123 | once the upload is done and the queue empty, the open container is saved if and only if it has any bytes, and everything stored is found as before |
| `Server.Server.FetchBaseChunk` | Baseline/src/server/data_writer_thd.cc:198-233 | gives the chunk of the base, uncompressed, and changes nothing but the cache |
| `Server.Server.EncodeChunk` | Baseline/src/server/data_writer_thd.cc:131-188 | a chunk is stored as a delta if and only if a feature of it is known, against the base that has the most of them; the bytes are those that compression gives of the chunk or the delta, and give back the chunk |
| `Server.Server.StoreChunk` | Baseline/src/server/data_writer_thd.cc:65-106 | the writer stores the chunk, as a delta if and only if a feature of it is known: one step of the protocol, in which every earlier address keeps its bytes |
| `Server.Server.UpdateFeatures` | Baseline/src/reduction/similar_policy.cc:152-160 | every feature of a chunk stored whole is in the index and names it, every other feature is as it was; a delta changes nothing |
| `Server.Server.EnterAddress` | Baseline/src/server/data_writer_thd.cc:65-106 | the oldest fingerprint on its way gets its address |
| `Server.Server.FetchChunk` | Baseline/src/server/data_reader_thd.cc:92-127 | the stored bytes of a chunk and, for a delta, those of its base |
| `Server.Server.DecodeChunk` | Baseline/src/server/data_decoder_thd.cc:102-172 | refuses exactly a base that is itself a delta; else gives what decompression and delta decoding make of the bytes |
| `Server.Server.Restore` | Baseline/src/server/data_reader_thd.cc:39-84 | after any uploads, a restore of a file gives its chunks as they were sent, in order, and changes nothing; a file that was not uploaded is reported missing |
| `Server.Server.ProcessChunks` | Baseline/src/server/data_recv_thd.cc:115-164 | a batch of chunks that a client may send, repeated ones included, is received and logged in order |
| `Server.Server.RunWriter` | Baseline/src/server/data_writer_thd.cc:46-123 | the writer empties the queue and leaves its loop |
| `Server.Server.Upload` | Baseline/src/server/data_recv_thd.cc:46-108 | after a whole upload the file has exactly the chunks that were sent, and the files of other names what they had |
| `Server.Server.UploadAndRestore` | Baseline/src/server/data_reader_thd.cc:39-84 | any file that is uploaded and then restored comes back as the chunks that were sent, repeated ones included |
| `VcdInt.EmitInteger` | Baseline/third/xdelta/xdelta3-internal.h:215-233 | the base-128 digits, high first, with the continuation bit on all but the last |
| `VcdInt.ReadInteger` | Baseline/third/xdelta/xdelta3-internal.h:186-213 | the value of the digits, with overflow and shortage told apart |
| `VcdInt.RoundTrip` | Baseline/third/xdelta/xdelta3-internal.h:186-233 | what was emitted is read back, with the number of bytes it took, whatever follows |
| `VcdInt.ScanSplit` | Baseline/third/xdelta/xdelta3-internal.h:160-184 | reading an integer in two pieces gives what reading it at once gives, overflow included |
| `VcdInt.SizeofUint64` | Baseline/third/xdelta/xdelta3-internal.h:264-278 | the number of bytes that the integer takes |
| `VcdInput.WholeSplit` | Baseline/third/xdelta/xdelta3-decode.h:808-1217 | reading all input at once is reading a first part and then the rest: shortage goes on, the end stays, a rejected file stays rejected at the same place |
| `VcdInput.Reader.DecodeInteger` | Baseline/third/xdelta/xdelta3-decode.h:26-39 | a number whose bytes arrive in pieces is the number of their concatenation |
| `VcdInput.Reader.DecodeRaw` | Baseline/third/xdelta/xdelta3-decode.h:41-68 | a field or section whose bytes arrive in pieces is their concatenation |
| `VcdInput.Reader.Feed` | Baseline/third/xdelta/xdelta3-decode.h:808-1217 | one piece of input brings the reader to where reading all input so far at once would be, or rejects exactly such input |
| `VcdInput.FeedAll` | Baseline/third/xdelta/xdelta3-decode.h:808-1217 | however a file is cut into pieces, the status, the fields, the sections and the rest are those of the whole file; rejection means that the whole file is rejected |
| `VcdLayout.EmittedIsNumber` | Baseline/third/xdelta/xdelta3-internal.h:215-233 | what is emitted for an integer are digits of the layout that stand for it |
| `VcdLayout.AcceptedIffLaidOut` | Baseline/third/xdelta/xdelta3-decode.h:808-1162 | the reader comes to the end of a window if and only if the input begins with a header and a window of sections 4.1 to 4.3 of RFC 3284, written as bytes from their parts; and its fields, sections and rest are then what these parts say |
| `VcdLayout.FeedFile` | Baseline/third/xdelta/xdelta3-decode.h:808-1162 | the same however the input is cut into pieces |
| `VcdLayout.TrueLength` | Baseline/third/xdelta/xdelta3-decode.h:1111-1131 | a window whose length field is the number of bytes that follow is read if and only if its four lengths are written without leading zeros |
| `VcdLayout.PaddedRefused` | Baseline/third/xdelta/xdelta3-decode.h:1111-1131 | the empty window with the length 0 written in two digits and the true length field is refused |
| `VcdEmit.Decoder.GetBlock` | Baseline/third/xdelta/xdelta3.c:1863-1923 | a block is there exactly when it is the one loaded |
| `VcdEmit.ShortExact` | Baseline/third/xdelta/xdelta3-decode.h:500-556 | when a copy from the source is not refused, what it takes from one block are the bytes of the source |
| `VcdEmit.Decoder.OutputHalf` | Baseline/third/xdelta/xdelta3-decode.h:400-595 | a half-instruction gives its bytes, or as much of them as the block has and the rest of it, or asks for a block with nothing changed, or is refused exactly as the window is |
| `VcdEmit.Decoder.Emit` | Baseline/third/xdelta/xdelta3-decode.h:726-806 | what is left of the window always means what the window meant: a request for a block loses nothing, and the same block is not requested twice without progress |
| `VcdEmit.Decoder.DecodeWindow` | Baseline/third/xdelta/xdelta3-decode.h:726-806 | with every block supplied on request, decoding ends with exactly the meaning of the window, or refuses it exactly if it has none; the tests for its length, for data and address bytes left over and for its checksum are part of the meaning |
| `Adler.Adler32` | Baseline/third/xdelta/xdelta3.c:1084-1117 | in 32 bits, reduced once in 5552 bytes: the checksum of the standard, reduced after every byte |
| `Adler.Fits` | Baseline/third/xdelta/xdelta3.c:1074-1081 | no sum of a stretch of 5552 bytes leaves 32 bits |
| `VcdEmit.EmptyCopy` | Baseline/third/xdelta/xdelta3-decode.h:500-536 | a copy of no bytes is refused if and only if its address lies beyond the end of the source and inside a block |
| `VcdEmit.EmissionIndependent` | Baseline/third/xdelta/xdelta3-decode.h:500-556 | over the block sizes there are, powers of two up to 2^63: a window that blocks of one byte refuse is refused at every size; one that they accept has the same meaning at every size if and only if every copy of no bytes beyond the end of the source lies at a multiple of 2^63 |
| `VcdEmit.BlocksShow` | Baseline/third/xdelta/xdelta3-decode.h:522-536 | such a copy: accepted with blocks of one byte, refused with blocks of two |

## Findings

Properties that one might expect of the code and that do not hold of it, each with an input and with
the exact condition under which they do.

- **A queue of size 0, or of half a word.** For size 0 the constructor makes a single block of one slot;
  a run with `enqueue` loses an element and fails the assertion of the block advance
  (`QueueZero.ZeroBreaks`). From size 2^63 on the rounding wraps around to 0, and the block has no slots
  (`QueueZero.HugeBreaks`). The queue is safe if and only if its size is at least 1 and below 2^63
  (`QueueZero.SafeIffSized`). `LckFreeMQ` only calls `try_enqueue`, which never allocates, so the server does
  not come to the run with size 0.
- **The order of weights in the adaptive tree.** Once all symbols are seen, `fgk_promote` compares the left
  neighbour of the leftmost node with the list of unseen symbols; both are NULL, so that the node
  stays in a block of its own and can grow heavier than its sibling: in every alphabet, that of 256
  symbols included (`FgkOrder.OrderFails`). Whether a count keeps the order is decided before the call
  (`FgkOrder.OrderKept`). Coder and decoder agree all the same: `FgkCode.RoundTrip` and
  `FgkCodec.CodeAndDecode` need no such condition.
- **An empty instruction between two bytes.** A delta may hold instructions of size zero. If one stands
  between two bytes of the output, a copy over it fails the assertion that a source instruction has
  bytes left (`MergeStream.EmptyStops`); all copies inside the output succeed if and only if none does
  (`MergeStream.SmoothDecides`).
- **A copy of no bytes beyond the end of the source.** Whether it is refused depends on the size of the
  blocks in which the source comes (`VcdEmit.EmptyCopy`, `VcdEmit.BlocksShow`). The meaning of a window is
  independent of the block size if and only if all such copies lie at multiples of 2^63
  (`VcdEmit.EmissionIndependent`).
- **Leading zeros in a window's lengths.** The length of the delta encoding is compared with the size that
  its numbers would have without leading zeros (`VcdLayout.PaddedRefused`). A window whose length field is
  the number of bytes that follow is read if and only if its four lengths have none (`VcdLayout.TrueLength`).
- **A container that is cached already.** Inserting its name again into a full cache makes it share the
  slot of the least recent one, which stays in the cache (`ReadCache.CachedAgain`). `StorageCore::ReadChunk`
  asks first and never does.
- **Tables of several groups with different zeros.** `djw_compute_multi_prefix` leaves out the zero lengths
  of every table after the first, and the decoder leaves out a length where the table before has a
  zero; the two agree if and only if all tables have the same zeros (`HuffFormat.MultiMatches`). The
  search gives a zero to the same bytes in every group, but a table that is rescaled gains words for
  all symbols and one that is not does not, so that the tables can differ (`HuffEncode.UnequalZeros`),
  and then the decoder does not get them back (`HuffGroups.TablesLost`). They are alike if and only if all
  were rescaled or none was, or all bytes occur (`HuffGroups.GroupsAlike`); and fewer than
  28,656 counts in each group are never rescaled (`HuffGroups.LightAlike`, `PrefixBuild.FewAreLight`).

## Left out

- HuffGroups.RoundTripMulti: promises the round trip for tables with the same zeros only; for others the decoder reads other tables (`HuffGroups.TablesLost`), and whether it then refuses the section or gives wrong data depends on the bits and is not stated.
- HuffEncode.EncodeMulti: takes the tables' frequencies and the choice of groups as given; the search for them and the efficiency tests are not modelled.
- MergeWindow.WindowReader.DecodeInstruction: the half-instructions are given as read from the sections; the code table and the address cache are not modelled.
- MergeWindow.WindowReader.AppendWindow: for windows that the decoder accepts; on others xd3_whole_append_inst reads the data section unchecked.
- MergeStream.WholeState.MergeInputs: an assertion that does not hold is an outcome of its own; what a build without assertions does then is not stated.
- VcdEmit.Decoder.DecodeWindow: starts from half-instructions that are already read, with the number of address bytes they leave over; target windows (VCD_TARGET) and the flags that skip output or the checksum are not modelled.
- VcdEmit.Decoder.GetBlock: the caller supplies blocks on request; the callback and the bookkeeping of the last block are not modelled.
- VcdInput.FeedAll: the sections are read as they are stored; their secondary decompression is modelled by itself and not joined on.
- ReadCache.ReadCache.Insert: for names that are not cached, which is how the storage calls it; see `ReadCache.CachedAgain`.
- QueueWalk.SizeApproxBounds: for a walk by the consumer's thread, as IsEmpty is called; not for one by the producer.
- Server.Server.Restore: one upload at a time; several clients at once share index and storage in the source.
- Running out of memory, where a call returns ENOMEM, except for the queue's allocation, which may fail at any time.
- Weak memory: every load and store of the queue and the semaphore is sequentially consistent.
- The byte counts of allocations: `make_block` is taken to give the slots it is asked for.
- Queue operations peek, pop and emplace, the move constructor and the destructor; the blocks of the queue are values, so that their addresses and alignment are not captured.
- The 32-bit and 16-bit widths of frequencies and weights in both Huffman coders: they are unbounded here.
- The feature extraction (finesse_util, XXHash), chunking by fingerprints, encryption and key management: foreign functions or flat code without a property of its own.
- Networking, SSL, configuration, logging, statistics and the databases' files: input and output.
- The send buffers and batches of a restore: the chunks are handed over one by one.
- The list of nodes and blocks of the adaptive coder is one sequence per field, not an array of records; zero-copy buffers and their aliasing are copies.
- The delta encoder's string matching: its output is what the decoder's and the merge's theorems quantify over.
