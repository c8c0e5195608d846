# Smews: a verified model

Smews is a web server for devices with a few hundred bytes of RAM. This project models its densest code in
Dafny and proves what each part is for. `dafny verify dfyconfig.toml` checks everything.

| cluster | files | main results |
|---|---|---|
| Dictionary compiler and byte-code walker | `Symbols`, `Trie`, `Ternary`, `Walker`, `Dictionary`, `DictionaryLimits`, `Extensions`, `BlobFormat` | compiling a symbol list and walking the bytes is looking the text up in the list; the bytes read back as the search tree |
| Heap allocator | `FreeList`, `Memory` | free words and live blocks partition the buffer; the free list is a function of the free words; first fit succeeds exactly when a run exists |
| Generated responses, go-back-N by replaying a coroutine | `Http`, `HttpClient`, `Response`, `Replay`, `ReplayRuns`, `InOrder`, `Window`, `OldAcks`, `SegmentSizes`, `Completion`, `GeneratorServer`, `Coroutines`, `HandlerStacks`, `Handlers` | every segment of every run is a slice of one byte stream in which a client of RFC 9112 finds what the handler wrote; exactly when that holds, with and without acknowledgements that go back; loss-free runs deliver under any limits; exactly when a call sends, and that the window is filled; exactly when segments fit the mss; every transparent run can be finished; no block without an owner |
| Internet checksum | `OnesComplement`, `TcpChecksum`, `TcpPeer`, `FileChecksum` | out-of-order sums and precomputed chunk sums equal the RFC 1071 checksum of the bytes in order; the other end reads every field back and accepts exactly this checksum |
| Static files over a bad network | `StaticFile`, `FileWindow`, `FileCompletion` | safety of every run; "acknowledged" means "received" exactly for files below 65536 bytes, and every run of these can be finished; exactly when a send happens |
| Connections | `ConnectionRing`, `AddressCodec` | the ring stays one circular list; round-robin fairness; when the IPv6 zero-run codec is the identity |
| Serial line | `Slip`, `SerialRing`, `Rfc1055` | SLIP round trip, also with a receiver of RFC 1055, and recovery after noise; host and device take the same bytes from every line; the two-pointer ring is a bounded queue |
| IPv6 text | `AddressText`, `AddressCase`, `AddressGrammar`, `AddressPrinter` | every printed form of every address parses back to it; exactly which texts parse, and to what |

Code that works by changing things is modelled as methods and classes over arrays, fields and loops; each is
proved equal to a specification function, and the main theorems are about runs of those functions.

## Where the code falls short of its purpose

Each of these is a lemma with a concrete input, beside a proof of what does hold, or the exact condition.

- The walker adds offsets in `unsigned char` (core/input.c:1222-1267), so it is the sum of a node's jumps that
  must fit a byte, not each offset. A jump goes where the compiler put the child if and only if it fits
  (`Walker.JumpsAreRightIffFit`); `DictionaryLimits.OffsetSumsOverflow` is a list of three symbols with all offsets
  below 256 of which the last is not found.
- A text that continues after a complete symbol can select another one, as `bab` does among `ab`, `b` and `c`
  (`DictionaryLimits.LongerTextsCanMisroute`); its walk is refused where the symbol's node has no `>` child
  (`Extensions.ExtensionIsRefused`).
- Retransmission regenerates the first segment with the limit of later ones (core/output.c:791, 805). Replay is
  transparent if and only if the two limits agree or the body fits the first segment:
  `ReplayRuns.TransparentIffUniform`. Targets whose output buffer is about as large as the MTU (linux,
  mbed_ethernet) are on the wrong side.
- The same first segment, sent again with the larger limit and the larger header, can exceed the mss, against the
  comment at core/output.c:203: a body of more than 1400 bytes, mss 1460, an output buffer of 1500 bytes and
  128-byte chunks give a segment of 1480 bytes. `SegmentSizes.SegmentsFitMssIff` is the exact condition; where it holds,
  `SegmentSizes.SendFits` keeps every send within the client's window as well.
- Acknowledgements below the last accepted one are taken (core/input.c:554). With them, replay is transparent if and
  only if the whole body fits the first segment (`OldAcks.TransparentIffOneSegment`); `OldAcks.OldAckRun` is the run
  that ends every longer response short. For files of 65536 bytes or more such an acknowledgement can hide a loss, as
  `inflight` has 16 bits (`StaticFile.OldAckHidesLoss`).
- `compress_ip` does not forget a run that was not the longest (core/connections.c:101-107), so shorter runs add up
  over the bytes between them: `AddressCodec.ShortRunsAddUp`; `AddressCodec.RoundTripIffLastGroupIsOneRun` says which
  addresses come back.
- Freeing a connection moves the head of the ring (core/connections.c:188), so frees behind a waiting connection can
  pass it over for ever, in any ring: `ConnectionRing.AnyRingCanStarve`.
- A SLIP escape stays pending until an escape code comes, even across END: `Slip.NextPacketAfterNoise` says exactly
  which packets survive that.
- The build step's end-around carry looks at bits 16 to 31 only, so it is complete for every file exactly when chunks
  have at most 131074 bytes: `FileChecksum.FoldsIffSmall`.
- `mem_alloc` rounds in 16 bits, so requests above 65532 bytes wrap to none: `Memory.UnitsIsCeiling`.

## Model

| member | source | states |
|---|---|---|
| Symbols.LessIff | tools/GenBlob.py:210-211 | the order of `sort`: a proper prefix first, otherwise the first different character decides |
| Symbols.CanBeSorted | tools/GenBlob.py:210-211 | every list without duplicates has a strictly sorted form, so what the compiler assumes of its sorted copy can always be had |
| Trie.NotYetEntered | tools/GenBlob.py:78-84 | sorted order makes no symbol entered so far start with the next one, so its last node is new and `newNode` is the node to mark |
| Trie.NewCharacterIsLargest | tools/GenBlob.py:80-82 | a new sibling is larger than all siblings present, so child lists stay sorted |
| Trie.FindChild | tools/GenBlob.py:75-78 | finds the child for a character, or that there is none |
| Trie.EnterSymbol | tools/GenBlob.py:72-82 | the node returned is fresh, spells the symbol, and every other node keeps its meaning |
| Trie.BuildTree | tools/GenBlob.py:68-86 | the node store unfolds to the trie of exactly the given symbols with their original indexes |
| Ternary.CompactTernaryIsNeutral | tools/GenBlob.py:103-112 | for every ternary tree the compacted tree has the same bytes |
| Ternary.CompactTreeIsNeutral | tools/GenBlob.py:89-97 | for every trie, compaction keeps the bytes of each node, given its number of brothers |
| Ternary.CompactionIsNeutral | tools/GenBlob.py:225-241 | both compactions together change no byte of the blob |
| Ternary.ChainBlob | tools/GenBlob.py:189-199 | a non-final node whose only child is `=` is written without a flag byte |
| Walker.WalkByte | core/input.c:1220-1279 | the loop computes the walk function for every memory, position and character, reading no byte outside the memory unless it says so |
| Walker.Walk | core/input.c:1151-1161 | the walk over a whole text, stepping over reference bytes |
| Walker.WalkFollowsTree | core/input.c:1234-1268 | the byte-sized offset sums lead the walker to the node the search tree leads to, or to the refusal |
| Dictionaries.SiblingsWellFormed | tools/GenBlob.py:115-129 | for siblings from a sorted list there is never a `>` child without a `<` child |
| Dictionaries.LocateSibling | tools/GenBlob.py:120-127 | searching the ternary tree finds exactly the sibling for a character |
| Dictionaries.OrderIsKept | tools/GenBlob.py:120-127 | the search tree lists the siblings in their order |
| Dictionaries.SearchIsLogarithmic | tools/GenBlob.py:120-127 | at most floor(log2 k) + 1 comparisons per character among k siblings |
| Dictionaries.FeedFollowsTrie | core/input.c:1151-1279 | one received character moves from trie node to trie node, or is refused exactly when no symbol goes on with it |
| Dictionaries.RunFollowsTrie | core/input.c:1151-1279 | along any prefix of a symbol the walk stands on the trie node of that prefix |
| Dictionaries.WalkAcceptsPrefixes | core/input.c:1089-1161 | after a symbol the walk stands on 128 plus its original index, after a proper prefix on a plain character |
| Dictionaries.WalkRefusesOthers | core/input.c:1253-1278 | the walk is refused at the first character that leaves the set, whatever follows |
| Dictionaries.WalkIsLookup | core/input.c:1089-1279 | for every text not extending a complete symbol, what the walk selects is the list lookup |
| Dictionaries.GenBlobTree | tools/GenBlob.py:209-245 | from any duplicate-free list and its sorted form: the bytes of the ternary tree of a trie that numbers the original list |
| Dictionaries.PrefixFreeIsSteppable | core/input.c:1154 | a prefix-free set never needs the step over flags that the source does not make |
| Dictionaries.ServedFromList | tools/GenBlob.py:209-245 | end to end: for every prefix-free list whose jumps fit, the selected reference is the position of the text in the list, or none |
| Dictionaries.SmallBlobFits | core/input.c:1222-1223 | in a blob of at most 256 bytes all jumps fit |
| Walker.JumpsAreRightIffFit | core/input.c:1234-1268 | for all sizes of a node's children, the byte-sized sums are the intended jumps if and only if they fit |
| Walker.WalkerEqJump | core/input.c:1236-1241 | fitting or not, where the walker goes for a matched character |
| Walker.WalkerGtJump | core/input.c:1266-1268 | fitting or not, where the walker goes for a larger character |
| BlobFormat.ReadsBack | tools/GenBlob.py:173-201 | a reader of the byte format, with the values 1, 2, 4, 32 and 128 spelled out, recovers every well-formed search tree, and its length, from its bytes wherever they stand |
| BlobFormat.DictionaryReadsBack | tools/GenBlob.py:209-245 | so does it recover the search tree of every compiled dictionary |
| DictionaryLimits.BlobIsDetermined | tools/GenBlob.py:209-245 | all tries that hold a numbered list have the same bytes and the same offsets |
| DictionaryLimits.OffsetSumsOverflow | core/input.c:1222-1268 | a prefix-free list compiled with all recorded offsets below 256, jumps that do not fit, and a symbol that is not found |
| DictionaryLimits.LongerTextsCanMisroute | core/input.c:1154 | compiled from `ab`, `b` and `c`, the text `bab` selects `ab` |
| Extensions.NodeOfSymbol | tools/GenBlob.py:115-129 | every symbol has its node in the search tree, final, with its index, and without an `=` child exactly if no symbol extends it |
| Extensions.RunStopsAtNode | core/input.c:1151-1279 | the walk of a text stops on the byte behind the character of the text's node |
| Extensions.ExtensionIsRefused | core/input.c:1154-1278 | behind a symbol that no other extends and whose node has no `>` child, the walk refuses every printable character, whatever follows, if text stands behind the blob (the space, `?`, `&` and `=` do not reach the walk there) |
| FreeList.RunInOneBlock | core/memory.c:117-124 | any run of free words lies within one block: coalescing leaves no seam |
| FreeList.CanonicalIsUnique | core/memory.c:79-158 | two free lists with the same free words are the same list |
| FreeList.GivesCommute | core/memory.c:128-158 | frees commute |
| FreeList.TotalCountsFreeWords | core/memory.c:49-57 | the sizes in the list add up to the number of free words |
| Memory.UnitsIsCeiling | core/memory.c:84-87 | the rounding is the ceiling up to 65532 bytes and 0 above |
| Memory.Heap.constructor | core/memory.c:72-75 | one block over the whole buffer, nothing live |
| Memory.Heap.Alloc | core/memory.c:79-114 | NULL exactly when no run of that many free words exists; otherwise the lowest run becomes live; no word of a live block is written |
| Memory.ChainJoins | core/memory.c:117-124 | chaining two blocks links them, or their union if they touch, to what followed the second, and changes one word |
| Memory.Heap.Free | core/memory.c:128-158 | exactly the block's words become free, the list stays canonical, no word outside free blocks is written |
| Memory.Heap.GetFreeMem | core/memory.c:49-57 | 4 times the number of free words |
| Memory.Heap.GetMaxFreeMem | core/memory.c:60-69 | a request of k words would succeed exactly if it is at most the reported size |
| Memory.Heap.AllocThenFree | core/memory.c:79-158 | an allocation and its free restore the free list |
| Memory.FirstFit | core/memory.c:89-92 | the block the walk stops at begins the lowest run that is long enough, or there is none |
| Memory.LargestRun | core/memory.c:60-69 | the largest block bounds every run of free words |
| Memory.NothingLiveIsReset | core/memory.c:72-75 | with nothing live the list is the one of `mem_reset` |
| Memory.WordsAreConserved | core/memory.c:79-158 | free words plus live words are all words |
| Memory.TakeHeadersFrame | core/memory.c:94-108 | taking words writes only inside free blocks |
| Memory.GiveHeadersFrame | core/memory.c:145-156 | giving words back writes only the freed block and the free block before it |
| Http.WriteDigits | core/output.c:493-516 | the digit loop writes the fixed-width number |
| Http.PayloadLength | core/output.c:170-189 | the announced segment length is the number of bytes emitted |
| Http.DigitsRoundTrip | core/output.c:493-516 | written digits read back as the number |
| Http.DigitsAt | core/output.c:493-516 | digit i is the lower-case digit of weight base to the number of digits after it |
| Http.DigitTable | core/output.c:493-516 | the sixteen digits one by one, written in lower case and read in either |
| HttpClient.StandardReads | core/output.c:95-96 | by the rules of RFC 9112 the response with a length reads as "HTTP/1.1 200 OK" with the fields Content-Length, on six digits, and Content-Type, and its content |
| HttpClient.ChunkedReads | core/output.c:97 | and the chunked one as "HTTP/1.1 200 OK" with Content-Type and Transfer-Encoding, and the data of its chunks |
| HttpClient.ChunkDecodes | core/output.c:565-589 | a chunk decodes to its content, then the rest decodes |
| HttpClient.LastChunkDecodes | core/output.c:565-589 | the empty chunk ends the body |
| Response.ResponseReads | core/output.c:927-942 | for every body, every size of the first segment and every size of the others, the segments in order are one response of RFC 9112: "200 OK", the length on six digits or the chunked coding, and as body exactly what the handler wrote |
| Response.ResponseDecodes | core/output.c:927-942 | a client that asked for the page takes exactly the body |
| Response.OneEmptyChunk | core/output.c:938-942 | with any two sizes, exactly one chunk is empty, the last |
| Response.WireSlice | core/output.c:620-629 | each segment occupies its slot of the stream |
| Response.PieceFacts | core/output.c:785-805 | which bytes and which header kind the k-th segment has, the first cut at its own limit |
| Replay.SelectEntry | core/coroutines.c:154-160 | the lookup finds the context of exactly the recorded segments |
| Replay.PruneEntries | core/service.c:40-75 | an acknowledgement keeps exactly the contexts from the acknowledged segment on |
| Replay.PruneIsFilter | core/service.c:40-75 | on any decreasing list the cut keeps exactly the entries not below the acknowledgement |
| ReplayRuns.StepKeepsList | core/coroutines.c:193-198 | under any limits, acknowledgements and failures, every step keeps the list strictly decreasing in sequence number and below what was sent |
| Replay.ResumeGivesPiece | core/output.c:204-245 | resuming the context from before segment k yields segment k and the context before segment k + 1 |
| Replay.HeaderIsPlanned | core/output.c:1073-1089 | the header switch gives every segment its planned kind |
| SegmentSizes.SegmentsFitMssIff | core/output.c:787-805 | every segment of every run fits the mss if and only if the first segment also fits when it is cut the second way, a condition on body length, mss and buffer size |
| Replay.AckMovesBase | core/input.c:545-557 | from any state, which acknowledgements are ignored, which take the connection back, and where the others put the window base, in 16 bits |
| Replay.BackIn32Bits | core/smews.c:43-54 | the 32-bit subtractions, at zero included |
| Window.SendsIff | core/output.c:669 | from every state of the invariant a call emits a segment if and only if one is left, `inflight + mss` is within the window, and exactly the allocations it needs are granted |
| Window.FirstSendIff | core/output.c:669-805 | the same before the service exists |
| Window.SegmentsAreFull | core/output.c:791-805 | every data segment but the last is as long as the mss, the checksum chunks, the header and the output buffer allow |
| Window.FillsWindow | core/output.c:636-670 | without any acknowledgement the next piece goes out as long as a full segment fits besides what is in flight; after that, calls change nothing |
| SegmentSizes.SendFits | core/output.c:636-670 | under that condition, from any state at all, a send fits the mss and the client's window |
| Replay.SendsEmptyChunk | core/output.c:932-938 | past the data the empty chunk is sent, without allocation or run |
| Replay.SendsNew | core/output.c:938-970 | a first transmission backs a context up and sends the planned segment, or fails and leaves the plan as it was |
| Replay.SendsAgain | core/output.c:904-920 | a retransmission restores the context and sends the same segment |
| Replay.GenerateStep | core/output.c:869-1141 | the send step keeps the invariant under every failure, and what it sends is the segment due |
| ReplayRuns.AckKeeps | core/input.c:545-573 | boundary acknowledgements and duplicates keep the invariant |
| ReplayRuns.TimeoutKeeps | core/smews.c:43-54 | so does the timer |
| ReplayRuns.StepKeeps | core/output.c:677-1141 | one step of any kind keeps the invariant, and a segment it sends carries the stream's bytes |
| ReplayRuns.RunCarries | core/output.c:677-1141 | in every run that cuts its first segment one way, each segment carries the bytes of one stream at its sequence number |
| ReplayRuns.TransparentIffUniform | core/output.c:791-805 | one stream explains every run if and only if the two limits agree or the body fits the first segment, also in numbers: the output buffer or the body is at most the mss, less its part below a chunk, less 80 |
| ReplayRuns.ClientHoldsPrefix | core/output.c:565-589 | whatever the network does, the client holds a prefix of the stream |
| ReplayRuns.ClientGetsBody | core/output.c:677-1141 | in such a run a client assembles a prefix of the response, and with the whole of it decodes exactly what the handler wrote |
| InOrder.InOrderDelivers | core/output.c:785-1141 | under any two limits, as long as nothing is sent again, failed allocations included: the segments sent are those of the response in order, the end is declared exactly after the last, and a client that has them decodes what the handler wrote |
| Completion.LossFreeDownload | core/output.c:677-1141 | under any two limits and any window of at least the mss, a run from the start delivers the whole response and closes the handler |
| Completion.CanFinish | core/input.c:545-573 | from any state of the invariant in which the first segment, if due again, is cut as before: a run to the end, that closes the handler and gives any client that holds what it acknowledged the whole response |
| Completion.EveryRunCanFinish | core/input.c:545-573 | under equal limits every run can be continued to such an end, with any window of at least the mss |
| ReplayRuns.ClosesWhenAllAcknowledged | core/input.c:559-573 | the handler is released exactly when everything is acknowledged |
| OldAcks.OldAckTruncates | core/input.c:554-557 | an older acknowledgement and a timeout after the handler returned make the server send an empty chunk in place of data and take it for the end |
| OldAcks.OldAckRun | core/input.c:545-573 | for every response of more than one segment, whatever its limits, a run from the start in which that happens |
| OldAcks.TransparentIffOneSegment | core/input.c:545-573 | with acknowledgements in any order, one stream explains every run if and only if the body fits the first segment, also in numbers |
| GeneratorServer.CurrOutput.OutC | core/output.c:192-246 | a byte is stored unless the segment is full |
| GeneratorServer.CurrOutput.Run | core/output.c:204-245 | the handler's loop fills the segment and stops at the context the step machine says |
| GeneratorServer.Server.CleanService | core/service.c:40-75 | in every state, keeps exactly the entries not below the acknowledgement, in order, and frees exactly what the others own |
| GeneratorServer.Server.IfSelect | core/coroutines.c:154-160 | the entry with that sequence number, if any |
| GeneratorServer.Server.ContextBackup | core/coroutines.c:163-201 | on success one record owning its blocks is in front of the list; on failure nothing is kept |
| GeneratorServer.Server.BackupNew | core/output.c:948-970 | record, context and stack, or none of them |
| GeneratorServer.Server.SmewsSend | core/output.c:677-1141 | state and segment are those of the step machine, and every allocated block has one owner, whichever allocations fail |
| GeneratorServer.Server.HandleAck | core/input.c:545-573 | the acknowledgement step, with the acknowledged blocks freed |
| GeneratorServer.Server.CloseService | core/service.c:40-75 | nothing stays allocated |
| GeneratorServer.Server.Retransmit | core/smews.c:43-54 | the timer step |
| Coroutines.Stacks.Prepare | core/coroutines.c:117-142 | no coroutine's stack, pointer or status changes, even if the allocation fails |
| HandlerStacks.ContextBackup | core/coroutines.c:163-201 | the recorded entry has the handler position the stack stands for, for any deterministic handler |
| HandlerStacks.ContextRestore | core/coroutines.c:204-214 | the stack afterwards stands for the position of the entry the protocol selects; other coroutines are unchanged |
| Coroutines.Stacks.Backup | core/coroutines.c:163-201 | the copy is the coroutine's stack at that moment |
| Coroutines.Stacks.Restore | core/coroutines.c:204-214 | the coroutine is as it was saved, all others are unchanged |
| Coroutines.Stacks.RestoreAfter | core/coroutines.c:117-214 | whatever is swapped and run in between, a restore brings back pointer, status and bytes |
| OnesComplement.Checksum.Add | core/checksum.inl:55-61 | the state's number grows by the byte at its parity, up to multiples of 65535 |
| OnesComplement.Checksum.Add16 | core/checksum.inl:65-75 | grows by the word |
| OnesComplement.Checksum.Add32 | core/checksum.inl:79-89 | grows by the sum of the four bytes |
| OnesComplement.Checksum.End | core/checksum.inl:92-95 | ends with no carry, at the folded sum |
| OnesComplement.FoldIsNorm | core/checksum.inl:92-95 | end-around carry of any sum is its representative modulo 65535 |
| OnesComplement.SumIsWords | core/checksum.inl:55-61 | byte weights by parity add up to the big-endian words of RFC 1071 |
| OnesComplement.SumSplit | core/checksum.inl:55-61 | the sum of a concatenation, with the parity the first part leaves |
| TcpChecksum.HeaderConstants | core/output.c:94-100 | the two header constants are the folded sums of the header texts |
| TcpChecksum.CoveredSum | core/output.c:445-476 | what the source adds for pseudo header and TCP header is the sum over their bytes |
| TcpChecksum.AddDigits | core/output.c:492-517 | digits fed backwards between two zero bytes weigh as in the emitted text |
| TcpChecksum.AddStandard | core/output.c:489-502 | the Content-Length header: the constant and the digits |
| TcpChecksum.AddFrame | core/output.c:485-528 | everything a segment's payload weighs besides the body, for each header kind |
| TcpChecksum.AddChunk | core/output.c:505-527 | the chunk frame, with the byte-swapped CRLF after an odd body |
| TcpChecksum.BodyChecksum | core/output.c:241-244 | the checksum kept while the handler writes is that of the body |
| TcpChecksum.PayloadSum | core/output.c:565-589 | the sum of the emitted payload, part by part |
| TcpChecksum.SegmentChecksum | core/output.c:445-559 | for every header kind, body and length the checksum field is the RFC 1071 checksum of the bytes in emission order |
| TcpPeer.CoveredReads | core/output.c:420-448 | the other end reads back every header field at its place in pseudo and TCP header, with port 80, window 4096 and protocol 6, and the payload |
| TcpPeer.ReadsCovered | core/output.c:420-448 | and no other bytes read so |
| TcpPeer.AcceptedIff | core/output.c:553-559 | of all 16-bit values in the checksum field the other end accepts the one the server sends, and 0xFFFF for 0 |
| FileChecksum.FoldLow | tools/GenApps.py:646-647 | the loop computes the fold it stands for |
| FileChecksum.FoldsBelow | tools/GenApps.py:646-647 | below 2^32 that fold is the one's-complement number |
| FileChecksum.FoldsIffSmall | tools/GenApps.py:637-649 | every chunk of every file is folded completely if and only if chunks have at most 131074 bytes |
| FileChecksum.ChunkSums | tools/GenApps.py:637-649 | for every even chunk size the table holds the folded sum of every chunk, the short last one included |
| FileChecksum.TableIsSummed | tools/GenApps.py:637-649 | so for chunks of at most 131074 bytes it holds the numbers the server adds |
| FileChecksum.SumBlocks | core/output.c:537-551 | adding the table entries of an aligned segment in 32 bits gives the sum of its bytes |
| FileChecksum.FileSegmentChecksum | core/output.c:445-559 | the checksum field of every aligned file segment is the RFC 1071 checksum of its bytes |
| StaticFile.SendIsSafe | core/output.c:308-316 | a send stays in the window and carries the file's bytes from boundary to boundary |
| StaticFile.AckIsSafe | core/input.c:545-557 | an acknowledgement moves the window base to a boundary, and to the acknowledged byte itself below 65536 bytes |
| StaticFile.AcceptIsSafe | core/output.c:598-606 | the receiver keeps a prefix of the file |
| StaticFile.StepKeeps | core/output.c:636-670 | every step of server, network and receiver keeps the invariant |
| StaticFile.EveryRunIsSafe | core/output.c:598-629 | in every run the sequence numbers stay in order on chunk boundaries, every segment is the file's slice and fits the checksum table, the receiver holds a prefix |
| StaticFile.HonestIffShort | core/input.c:554-557 | for a file, "acknowledged means received" holds in all runs if and only if it is shorter than 65536 bytes |
| StaticFile.OldAckHidesLoss | core/input.c:554-557 | the run that breaks it for every longer file |
| FileCompletion.Reaches | core/input.c:545-557 | below 65536 bytes the window base can be brought to any place that was ever acknowledged, however far stale acknowledgements took it back |
| FileCompletion.EveryRunCanFinish | core/output.c:598-629 | below 65536 bytes every run can be continued so that the receiver has the whole file and the response is closed |
| FileWindow.SendsIff | core/output.c:636-670 | from every state of the invariant a send emits the next bytes, as many as a segment holds, if and only if some are left and `inflight + mss` is within the window |
| FileWindow.FillsWindow | core/output.c:598-629 | without any acknowledgement the segments of the file go out in order, each whole and at its place, as long as a full one fits the window; after that, sends change nothing |
| StaticFile.FileConnection.SmewsSend | core/output.c:636-670 | the file branch of the send |
| StaticFile.FileConnection.TakeAck | core/input.c:545-573 | the acknowledgement step |
| StaticFile.FileConnection.Retransmit | core/smews.c:46-54 | the timer step |
| ConnectionRing.Ring.AddConnection | core/connections.c:147-179 | the new connection is last in the round, the ring stays one circular doubly linked list |
| ConnectionRing.Ring.FreeConnection | core/connections.c:182-190 | the connection is cut out and the head moves behind it |
| ConnectionRing.Ring.CopyBack | core/input.c:1445 | the whole-struct copy leaves the ring alone if the copy has the current links |
| ConnectionRing.Ring.FinishReceive | core/input.c:1401-1450 | adding, patching the copy's links, freeing and copying back together keep the ring |
| ConnectionRing.Ring.SelectConnection | core/output.c:692-707 | the first able connection is selected and the head moves behind it |
| ConnectionRing.LinkedTurns | core/output.c:707 | moving the head keeps the ring |
| ConnectionRing.ServedInTurn | core/output.c:692-759 | a connection at place j that stays able is served within j + 1 selecting sends, whatever is added, whoever ends after being served, and whoever before it is freed |
| ConnectionRing.FreesBehindStarve | core/connections.c:185-189 | three connections, and rounds in which a free behind it passes the second one over |
| ConnectionRing.AnyRingCanStarve | core/connections.c:185-189 | in any ring any connection can be passed over through any number of selecting sends once frees behind it are allowed |
| AddressCodec.WindowLength | core/connections.c:94-107 | the window lies inside the address and both its numbers fit a nibble |
| AddressCodec.CompressIp | core/connections.c:91-120 | the loops compute the address without its window, and the two nibbles |
| AddressCodec.DecompressIp | core/connections.c:73-89 | the loops put zeros back in the window |
| AddressCodec.ComesBackCleared | core/connections.c:73-120 | what comes back is the address with its window cleared, from the stored bytes alone |
| AddressCodec.RoundTripIffWindowIsZero | core/connections.c:73-120 | for all addresses the round trip is the identity if and only if the chosen window holds only zeros |
| AddressCodec.RoundTripIffLastGroupIsOneRun | core/connections.c:94-107 | in terms of the address: group the lengths of the closed zero runs, closing a group when its sum beats that of the last one; the round trip is the identity if and only if the last group is a single run |
| AddressCodec.GrowingRunsComeBack | core/connections.c:94-107 | in particular when each zero run followed by a non-zero byte is longer than all before it |
| AddressCodec.ShortRunsAddUp | core/connections.c:101-107 | a family of addresses that lose their seventh byte |
| Slip.ForwardToSlip | panManager/plugins/slip/slip.c:64-80 | writes the encoded packet, which a receiver of RFC 1055 takes back to exactly the packet |
| Slip.PeerReadsAll | panManager/plugins/slip/slip.c:64-80 | for any list of packets a receiver of RFC 1055 gets exactly these |
| Slip.Reader.TakeByte | panManager/plugins/slip/slip.c:101-143 | one byte through the decoder, in place |
| Slip.Reader.ReadFromSlip | panManager/plugins/slip/slip.c:83-146 | however the bytes are split into reads, the result is that of the bytes in a row |
| Slip.FeedPacket | panManager/plugins/slip/slip.c:101-143 | an encoded packet flushes what was pending, then is forwarded, cut at the buffer size |
| Slip.RoundTrip | panManager/plugins/slip/slip.c:64-146 | any list of packets is forwarded exactly, in order, if and only if all have 1 to dev_mtu bytes |
| Slip.NextPacketAfterNoise | panManager/plugins/slip/slip.c:112-127 | after any bytes, the next packet gets through if and only if no escape is pending or its first special byte is itself escaped |
| SerialRing.QueuePuts | targets/Arduino_slip/drivers/serial_line.c:96-104 | moving the writer, and nulling it at the reader, appends one byte for every position of the pointers |
| SerialRing.QueueTakes | targets/Arduino_slip/drivers/serial_line.c:115-121 | moving the reader, and nulling it at the writer, removes the oldest byte for every position of the pointers |
| SerialRing.SerialLine.Write | targets/Arduino_slip/drivers/serial_line.c:96-104 | appends to the queue, or drops the byte when full |
| SerialRing.SerialLine.Receive | targets/Arduino_slip/drivers/serial_line.c:69-108 | the interrupt: unescape, then append |
| SerialRing.SerialLine.ReadByteFromBuffer | targets/Arduino_slip/drivers/serial_line.c:111-125 | takes the oldest byte |
| SerialRing.SerialLine.DevGet | targets/Arduino_slip/drivers/serial_line.c:128-136 | the oldest byte, or -1 exactly when nothing came |
| SerialRing.DevPut | targets/Arduino_slip/drivers/serial_line.c:147-157 | the escape sequence, which the device's own decoding and a receiver of RFC 1055 take back to the byte |
| SerialRing.NothingIsLost | targets/Arduino_slip/drivers/serial_line.c:69-125 | for every interleaving of arrivals and reads without overflow: bytes read plus bytes waiting are the bytes received, unescaped, in order |
| SerialRing.HostAndDeviceAgree | targets/Arduino_slip/drivers/serial_line.c:69-108 | on every line, noise included, the device takes the bytes the host's reader puts into packets |
| SerialRing.RoomIsEnough | targets/Arduino_slip/drivers/serial_line.c:96-104 | up to INBUF_SIZE bytes never overflow |
| SerialRing.HostToDevice | targets/Arduino_slip/drivers/serial_line.c:69-125 | packets the host encodes come out on the device as their bytes |
| AddressText.EightGroupsParse | tools/IPy.py:1008-1026 | eight groups, padded or not, parse to the address |
| AddressText.GapParses | tools/IPy.py:962-1006 | eight groups with any run of zero groups written `::` parse to the address |
| AddressText.MappedParses | tools/IPy.py:992-998 | `::ffff:a.b.c.d` parses to the mapped address |
| AddressText.DottedParses | tools/IPy.py:1075-1085 | dotted text parses to the IPv4 address |
| AddressCase.CaseDoesNotMatter | tools/IPy.py:908-1026 | every text parses as its lower-case form does, errors included |
| AddressGrammar.ScanIff | tools/IPy.py:963-990 | splitting succeeds exactly on the texts of groups with at most one `::`, and gives these groups and its place |
| AddressGrammar.DottedIff | tools/IPy.py:1075-1085 | the dotted branch accepts exactly one to four decimal numbers below 256 between dots, the missing ones being zero, except in texts of 32 characters |
| AddressGrammar.ParseIff | tools/IPy.py:908-1026 | the parser accepts exactly the texts of eight groups below 65536, one `::` standing for one or more zeros and a dotted tail for two groups, and returns the number they make up |
| AddressPrinter.IntToIp | tools/IPy.py:1100-1129 | the digit and byte loops print the groups of the number; out of range is an error |
| AddressPrinter.FullTextParses | tools/IPy.py:377-389 | for all 2^128 addresses the full text parses back |
| AddressPrinter.StrNormal | tools/IPy.py:354-375 | the text without leading zeros parses back |
| AddressPrinter.FullShape | tools/IPy.py:377-389 | the full text has eight groups of four lower-case digits |
| AddressPrinter.NormalShape | tools/IPy.py:354-375 | the groups of the other texts have lower-case digits and no leading zeros |
| AddressPrinter.FindLongest | tools/IPy.py:333-338 | the first of the longest zero runs |
| AddressPrinter.StrCompressed | tools/IPy.py:309-352 | for all 2^128 addresses the compressed text parses back, and cuts the first longest run of two or more zero groups |
| AddressPrinter.ParseAddressIPv6 | tools/IPy.py:908-1026 | the loops compute the parser, its errors included, for every text |

## Left out

- `mem_realloc` (core/memory.c:175-189): an allocation, a byte copy and a free; the heap model keeps headers, not the contents of live blocks.
- The body of `list.sort`: `GenBlobTree` takes the sorted list as a parameter and requires only that it is sorted and has the same elements.
- The compaction and ternary steps of GenBlob.py rewrite Python dictionaries in place; they are modelled on tree values, which does not show aliasing between nodes.
- The C text around the blob, symbol statistics and the readable blob of GenBlob.py.
- The 255 POST marker of URLs, query arguments, POST bodies and multipart parsing.
- Texts that continue after a complete symbol: outside the lookup law, see `LongerTextsCanMisroute`.
- The stack switch inside `cr_run` (assembly): resuming the handler until it yields at a full buffer or returns. `Replay` and `GeneratorServer` stand for the stack by the handler's position; `HandlerStacks` shows that backup and restore of stack bytes keep that position.
- The handler is deterministic and not persistent; retransmission from persistent buffers, comet and streaming, general-purpose IP handlers and the DISABLE_COROUTINES build are not modelled.
- The in-flight list is a sequence of records, not linked nodes; ownership of blocks is tracked.
- GeneratorServer.Server.CloseService: frees the in-flight records and the service; the live coroutine's own stack buffer, whose pointer `context_restore` overwrites (core/coroutines.c:208), is not tracked.
- Sequence numbers do not wrap during a response, and a response does not start at sequence number 0, which the acknowledgement test treats as "no acknowledgement".
- Completion.EveryRunCanFinish: under unequal limits only from the states `Completion.CanFinish` names; where the first segment would be sent again with another cut, its bytes change (`ReplayRuns.TransparentIffUniform`).
- FileCompletion.EveryRunCanFinish: longer files, where an acknowledgement can be taken for a later one, are the subject of `StaticFile.HonestIffShort` only.
- ReplayRuns.RunCarries: acknowledgements are at segment boundaries and not below one already accepted; what holds without the second condition is `OldAcks.TransparentIffOneSegment`.
- An mss below the chunk size (no file data could be sent) or with no room for the largest generated header plus data (the 16-bit limits would wrap): the response models require more.
- `StaticFile` starts with `inflight` 0 and has no acknowledgements from before the response in the network; the receiver keeps or ignores whole segments.
- The checksum of IPv6 segments and of SYN and reset segments: the same additions with other constants.
- Which chunk sizes are powers of two does not matter to the proofs; masks and shifts by the chunk bits are division and remainder.
- The wait loop of `dev_get` and the interrupt enabling around the ring: methods run one at a time.
- AddressPrinter.ParseAddressIPv6: a group with a sign, spaces or `0x`, which Python's `int` and `long` accept, is an error here; that syntax belongs to the interpreter, not to this code.
- Prefix lengths and the branches of `parseAddress` for plain numbers.
- The memory blocks behind connections; `AddConnection` takes the success of the allocation as a parameter.
- Device drivers, ARP-like tables, timers beyond the retransmission step, DHCP and ICMP.
