# Verification of the trace pipeline

A malloc trace is a file of records: buffers that threads handed over, deaths of threads, and
barriers. Inside a buffer are the allocator calls of one thread, delta-coded in varints. The
post-processor decodes the buffers, merges the threads into one legal allocation history (the
serializer), gives every live object a register (the receiver with its id tree), and writes
instructions, which replay carries out. This project models these pieces and proves what they
promise, each one and all of them together.

## How the model is organised

Two layers. The *specification* layer is made of datatypes and functions, and carries the theorems;
the *program* layer is made of classes and methods in the form of the source, proved against it.

| file | what it models |
|---|---|
| `Words`, `Varint` | 64-bit words as numbers with explicit wrap-around; zigzag; the branch-free varint codec against a byte-serial reference; the encoder that stores into a caller's array |
| `TraceCodec`, `ThreadCodec` | delta coding of allocator calls, type tags, clocks; whole buffers and whole threads |
| `WireFormat`, `RecordMeaning` | the formats in numbers: what each first word is read as, in bits and bytes; which token and which clock each record of a thread stands for |
| `MemStream`, `OuterStream`, `ThreadState` | the windowed reader, the reader of outer records, and the thread object with its queue of buffers |
| `Events`, `Calls` | allocator calls, legal orderings of the calls of several threads, and what a receiver can learn from the calls made on it |
| `Machine`, `MachineInvariant`, `MachineTheorems`, `Said` | the serializer as a state machine, its invariant, its theorems over every run, and the calls each operation makes on the receiver |
| `Serializer`, `Serialize`, `FileInputs` | the serializer as a program over thread objects and a receiver, step by step in simulation with the state machine, up to the outer loop over a whole file; and which files it can take, whole or cut |
| `IdTree`, `Receiver`, `Replay` | the four-level bitmap, the receiver, and replay's register machine |
| `ReplayInput`, `ReplayTrace`, `ReplayPointers` | replay's input buffer over a file that may be read in small pieces, the layout of an instruction, the replay loop, and what becomes of the pointers it is given |
| `Linked`, `Retelling`, `Determinism`, `Session`, `Widths`, `EndToEnd`, `Counterexamples` | the results that span the pieces, and the files on which expectations of the source fail |

A state of the machine holds everything decoded so far per thread (`prog`), whose events were
delivered (`sched`), the heap, the sleepers, and the log of calls on the receiver. A run is a list of
operations: a buffer arrives, a thread dies, the entry at the top of the heap has its turn, a round
ends. Which of several least entries is at the top is left open, so every theorem holds for every way
of breaking ties. `Serializer.Valid(s, ops)` says that the program is in state `s`, and that the
operations `ops` lead there; so what is proved of reachable states is proved of the program.

What is assumed of traces (`Machine.Enabled`, `History.WellFormed`): a token is allocated at most
once and consumed at most once and is not the "no token" marker; no buffer or second death comes after
a thread's death; thread ids are not reused and are not the "no thread" marker. The clock of a new
thread object is uninitialised in the source; here it is an arbitrary value per thread, and
`Determinism.BytesDecide` shows that it does not matter. What the uninitialised tail of a copied varint
holds is the parameter `junk`.

## Where the source's own expectations fail

Four expectations do not hold of the code. Each has a concrete input and an exact condition. The inputs
are files that the serializer accepts; `SerializeMallocEvents` shows that it makes a run of each.

- `events-serializer.cc:727` asserts that a doomed thread is drained. In every run over the file of
  `Counterexamples.DeadSleeper`, a round ends while a doomed thread still sleeps
  (`DrainedAssertionFails`); the assertion holds exactly when no doomed thread sleeps
  (`DrainedUnlessAsleep`). The model goes on past it, as the code does without assertions.
- `replay.cc:99` asserts that a switch goes to another thread. In every run over the file of
  `Counterexamples.LateDeath`, the end of the last round switches to the current thread
  (`RedundantSwitchHappens`); a run does so exactly when a round's first kill is the thread the receiver
  was last told of (`SwitchesAreCrisp`, `RunIsCrisp`, `PipelineIsCrisp`).
- `replay.cc:348-349` aborts on a file without a whole record. The output of the trace that holds only
  an end record is such a file (`EmptyTraceIsRefused`); the output is empty exactly when no event was
  delivered and no thread killed (`WrittenIsEmpty`).
- `decode-events.rb:130` takes the size delta of a realloc record from the wrong bits, on every such
  record (`ScriptMisreadsRealloc`). The model follows `malloc_trace_encoder.h`.

A record is read back as what it means exactly when its delta keeps its bits under the type tag
(`EventRoundTrip`); sizes below 2^57 and tokens below 2^60 are sufficient (`ModestCarries`).

## Model

| member | source | states |
|---|---|---|
| `Words.ZigzagBits` | altvarint_codec.h:105-108 | the shift, the sign-copying shift and the exclusive or of the source send a value v to 2v, or to -2v - 1 if it is negative |
| `Words.UnzigzagBits` | altvarint_codec.h:110-113 | its shift and exclusive or halve an even word, and halve and flip an odd one |
| `Words.ZigzagRoundTrip` | altvarint_codec.h:99-113 | zigzag and unzigzag, as bit operations, undo each other on every 64-bit word, in both directions |
| `Words.ZigzagSmall` | altvarint_codec.h:99-108 | values close to zero, of either sign, get small codes |
| `Varint.MaskIsOnes` | altvarint_codec.h:201-208 | every entry of the mask table keeps exactly seven bits for each byte |
| `Varint.DecodersAgree` | altvarint_codec.h:176-210 | wherever nine bytes can be read, the branch-free decoder gives the value and the length that reading byte by byte gives, for every first byte including zero |
| `Varint.ParseIsLocal` | altvarint_codec.h:176-210 | a decode depends only on the bytes it advances over |
| `Varint.ParseNeedsAll` | altvarint_codec.h:54-65 | no proper prefix of an encoding holds a word |
| `Varint.VarintRoundTrip` | altvarint_codec.h:120-210 | every 64-bit word is read back from its encoding, whatever follows it in memory |
| `Varint.SignedRoundTrip` | altvarint_codec.h:116-118 | every signed word is read back from the encoding of its zigzag, whatever follows it in memory |
| `Varint.EncodingIsShortest` | altvarint_codec.h:54-65 | the encoding has the least number of bytes up to eight that have room for the word at seven bits each, and nine bytes exactly when eight have not |
| `WireFormats.ShortFormat` | altvarint_codec.h:54-65 | bytes, one to eight, whose bits are the word above a one above one zero less than there are bytes, are read as that word, whatever follows |
| `WireFormats.LongFormat` | altvarint_codec.h:54-65 | a zero byte and the eight bytes of any word, low bytes first, are read as that word |
| `Varint.StreamRoundTrip` | altvarint_codec.h:120-210 | encodings written one after another are read back as the list of words |
| `Varint.EncodeUnsigned` | altvarint_codec.h:120-166 | the bytes up to the returned place are the encoding, and nothing beyond nine bytes from the start is touched, although eight or nine bytes are always stored |
| `Varint.EncodeStream` | altvarint_codec.h:120-166 | stores that overwrite the tail of the one before leave exactly the concatenated encodings |
| `Varint.ReadVarint` | decode-events.rb:76-100 | the script's loop over single bytes finds the word that is encoded, or that bytes are missing (first byte not zero) |
| `TraceCodec.TagRoundTrip` | malloc_trace_encoder.h:80-154 | a three-bit type is read back, and the payload is exactly when it is below 2^61 |
| `TraceCodec.ExtTagRoundTrip` | malloc_trace_encoder.h:102-160 | an eight-bit type is told apart and read back, and the payload is exactly when it is below 2^56 |
| `TraceCodec.BundleRoundTrip` | malloc_trace_encoder.h:70-78 | the timestamp comes back without its low ten bits, the cpu in its low ten bits |
| `WireFormats.ClockWord` | malloc_trace_encoder.h:70-78 | a clock word is the sum of its time, a multiple of 1024, and its cpu, which is below 1024 |
| `TraceCodec.DeltaRoundTrip` | malloc_trace_encoder.h:80-120 | a delta restores its value against the same previous value, and no other delta does |
| `TraceCodec.RoundUpIsLeast` | malloc_trace_encoder.h:80-87 | the decoded size is the least multiple of eight that is not below the recorded one, exactly for sizes that have one in 64 bits; the seven greatest sizes become zero |
| `TraceCodec.EventRoundTrip` | malloc_trace_encoder.h:80-234 | any record is read as what it means if and only if its delta keeps its bits; encoder and meaning have the same previous values after it |
| `WireFormats.ReadsMalloc` | malloc_trace_encoder.h:162-170 | a buffer whose first word leaves 0 by 8 goes on with an allocation: the word divided by 8 is the zigzag of the difference to the previous size, sizes being counted in eighths; its token is the thread's next |
| `WireFormats.ReadsFree` | malloc_trace_encoder.h:172-178 | one that leaves 1 by 8, with a free, whose token is told by its difference to the previous one |
| `WireFormats.ReadsFreeSized` | malloc_trace_encoder.h:180-187 | one that leaves 4 by 8, with a sized free of such a token |
| `WireFormats.ReadsToken` | malloc_trace_encoder.h:222-227 | 2 by 8 is a token record: no event, but the next token, and the clock in the second word, for what follows |
| `WireFormats.ReadsRealloc` | malloc_trace_encoder.h:189-201 | 23 by 256 is a realloc: size in the first word, old token in the second, new token the thread's next |
| `WireFormats.ReadsMemalign` | malloc_trace_encoder.h:203-212 | 31 by 256 is an aligned allocation, with the alignment in the second word |
| `WireFormats.ReadsNothingElse` | events-serializer.cc:426-463 | any other first word breaks off the reading of a buffer |
| `TraceCodec.ModestCarries` | malloc_trace_encoder.h:80-154 | sizes below 2^57 and tokens below 2^60 always keep their bits, from any state such records lead to |
| `TraceCodec.ScriptDelta` | decode-events.rb:110-147 | decoding with unbounded integers gives the 64-bit value exactly when it does not leave the 64-bit range |
| `TraceCodec.ScriptMisreadsRealloc` | decode-events.rb:129-138 | from no realloc record does the script take the size delta that was recorded |
| `ThreadCodec.RecordsRoundTrip` | malloc_trace_encoder.h:80-234 | a buffer of records that keep their bits is read as its events, in order, with the previous values in step at its end |
| `ThreadCodec.ModestAllCarry` | malloc_trace_encoder.h:80-154 | records with sizes below 2^57 and tokens below 2^60 all keep their bits, in any order |
| `ThreadCodec.TraceRoundTrip` | events-serializer.cc:336-479 | a thread's records that keep their bits, split over any number of buffers, are read as what they mean, with the clock each event happened at |
| `ThreadCodec.ModestChunksCarry` | malloc_trace_encoder.h:80-154 | for that, sizes below 2^57 and tokens below 2^60 are enough, however the records are split |
| `ThreadCodec.SplitDoesNotMatter` | events-serializer.cc:466-479 | the events do not depend on where the records were split into buffers |
| `RecordMeanings.ChunkRecordMeans` | malloc_trace_encoder.h:162-234 | every record of every buffer of a thread: it is the event behind those of all records before it; the tokens of allocations count on, by one in 64 bits, from the last token record in any buffer; its clock is that of the last token record of its own buffer, or else that of the hand-over of the buffer before |
| `RecordMeanings.SessionRecordMeans` | events-serializer.cc:466-479 | the same for every thread of a recorded session, whose tokens start at zero |
| `ThreadCodec.DecodeBufsConcat` | events-serializer.cc:593-611 | buffers that arrive later are decoded from where the earlier ones end |
| `MemStreams.TailIsUnseen` | events-serializer.cc:188-202 | a complete varint is read as if the uninitialised bytes behind it were not there, and an incomplete one claims more bytes than there are |
| `MemStreams.MemStream.HasMore` | events-serializer.cc:73-79 | true exactly when a byte is left in the data, whatever the window |
| `MemStreams.MemStream.AdvanceBy` | events-serializer.cc:132-156 | moves by the amount if the data has it; otherwise panics, or in permissive mode stops just past the window |
| `MemStreams.MemStream.MustReadVarint` | events-serializer.cc:158-165 | fast and slow path give the word at the position, and a panic exactly when it is incomplete |
| `MemStreams.MemStream.TryReadVarint` | events-serializer.cc:167-186 | succeeds exactly when a complete varint remains, with its value and length, on both paths and whatever the uninitialised bytes hold |
| `MemStreams.MemStream.TryAdvanceBy` | events-serializer.cc:81-91 | succeeds exactly when the data has the amount |
| `OuterStream.Next` | events-serializer.cc:262-323 | gives the next record of the bytes that are left; when it is incomplete, gives nothing and uses up the stream; panics on an unknown type or a torn death |
| `WireFormats.ReadsBuffer` | events-serializer.cc:262-323 | a file whose first word leaves 3 by 8 goes on with a buffer: its thread is the word divided by 8; then come the clock word, the length, and as many bytes |
| `WireFormats.ReadsDeath` | events-serializer.cc:262-323 | 7 by 256 is a death: thread and clock |
| `WireFormats.ReadsEnd` | events-serializer.cc:262-323 | 15 by 256 is the end |
| `WireFormats.ReadsBarrier` | events-serializer.cc:262-323 | 39 by 256 is a barrier with its clock |
| `WireFormats.ReadsNoOther` | events-serializer.cc:262-323 | any other first word is a panic |
| `OuterStream.RecordCut` | malloc_trace_encoder.h:122-154 | a record cut anywhere reads as itself when it is whole and as nothing when it is torn, except a death cut behind its first word |
| `OuterStream.CutFile` | events-serializer.cc:262-323 | a file cut at any byte yields exactly its complete records, in order, and then the end; the one exception is a cut inside the rest of a death record |
| `ThreadStates.RefillDecodes` | events-serializer.cc:420-479 | moving on takes the first of the events that the whole queue of buffers decodes to, through token records and used-up buffers |
| `ThreadStates.FullThreadState.UpdateLastEventInner` | events-serializer.cc:420-464 | finds the next event of the active buffer, past token records, or that there is none |
| `ThreadStates.FullThreadState.UpdateLastEventRaw` | events-serializer.cc:466-479 | finds the next event of the queue, or leaves the thread without buffers and stream |
| `ThreadStates.FullThreadState.UpdateLastEvent` | events-serializer.cc:466-479 | drops exactly the first pending event; the result tells whether one is left |
| `ThreadStates.FullThreadState.AddBuffer` | events-serializer.cc:593-611 | appends the buffer's events to the pending ones; the result tells whether an idle thread became runnable |
| `History.LiveIffGivenNotTaken` | events-serializer.cc:634-690 | along a legal ordering a token is alive exactly when it was allocated and not yet consumed |
| `History.StuckIsMaximal` | events-serializer.cc:634-718 | an ordering that can go no further contains every event of every legal ordering |
| `History.StuckIsUnique` | events-serializer.cc:634-718 | any two orderings that can go no further deliver the same events and leave the same tokens alive, whatever the clocks |
| `History.StuckIsComplete` | events-serializer.cc:634-718 | if everything can be ordered legally, an ordering that can go no further is everything |
| `History.ToldInOrder` | events-serializer.cc:634-718 | what a legal ordering tells of a thread is a prefix of what the thread does |
| `MachineInvariant.ArriveKeeps` | events-serializer.cc:593-611 | a buffer's arrival keeps the whole invariant |
| `MachineInvariant.DieKeeps` | events-serializer.cc:613-618 | a death keeps the whole invariant |
| `MachineInvariant.NobodyElseWaits` | events-serializer.cc:700-706 | the token a thread goes to sleep on is awaited by no other thread, as the source asserts |
| `MachineInvariant.StepKeeps` | events-serializer.cc:634-718 | every turn of the drain loop keeps the whole invariant, and never makes a switch that replay would reject |
| `MachineInvariant.ReapKeeps` | events-serializer.cc:724-745 | the end of a round keeps the whole invariant and changes only the table, the doomed list, the log and the current thread |
| `MachineInvariant.RunKeeps` | events-serializer.cc:580-746 | the invariant holds in every state of every run |
| `MachineTheorems.EarliestFirst` | events-serializer.cc:495-499 | the thread at the top of the heap has an event, and the least timestamp of all threads in the heap as they are now, although keys change while they are in the heap |
| `MachineTheorems.NoLostWakeUp` | events-serializer.cc:534-543 | a thread with events left is in the heap, once, or asleep under exactly the token its next event takes, never both, and that token is not alive |
| `MachineTheorems.NothingDangles` | events-serializer.cc:724-743 | the heap, the sleeping queue and the doomed list name only threads that are in the table |
| `MachineTheorems.DrainEnds` | events-serializer.cc:634-718 | every turn of the drain loop delivers an event or, delivering none, shrinks the heap |
| `SaidCalls.WhatIsSaid` | events-serializer.cc:520-745 | the calls each operation of a run makes on the receiver, told from the calls made before: a turn switches if another thread is current, tells the clock if it is another one, tells the event, and kills a dead thread behind its last event; the end of a round buries, in order, every dead thread with nothing left that was not killed before, keeps the others doomed, and ends with one barrier; arrivals and deaths say nothing |
| `SaidCalls.KilledAtOnce` | events-serializer.cc:692-704 | a dead thread is killed in the turn that delivers its last event, and the kill is the last thing said there |
| `SaidCalls.DoomedInOrder` | events-serializer.cc:613-618 | in every run the threads still to be buried are the dead ones of the table, in the order in which their deaths were read |
| `SaidCalls.ClocksAreNews` | events-serializer.cc:520-532 | over every run, each clock the receiver is told of differs from the one it was told last |
| `MachineTheorems.BarrierIsMaximal` | events-serializer.cc:634-718 | at a barrier no legal ordering of the events read so far gets further with any thread |
| `MachineTheorems.BarrierIsConfluent` | events-serializer.cc:634-718 | two runs over the same events agree at the barrier on what was delivered, what is alive, who sleeps and on what, whatever the timestamps, ties and wake-ups |
| `MachineTheorems.BarrierIsComplete` | events-serializer.cc:634-722 | no deadlock: if the events read so far can be ordered legally at all, all of them have been delivered and nobody sleeps |
| `MachineTheorems.HeardInOrder` | events-serializer.cc:520-532 | the receiver hears a prefix of every thread's events, in order, each while the thread is the current one and the clock is the thread's own |
| `MachineTheorems.DeathsAtBarrier` | events-serializer.cc:724-743 | after a barrier exactly the dead threads with nothing left have been killed, once each, and have left the table; the others are carried over |
| `MachineTheorems.KilledIsSilent` | events-serializer.cc:692-699 | a thread is killed after its last event, and nothing is heard of it afterwards, in any continuation of the run |
| `MachineTheorems.DrainedUnlessAsleep` | events-serializer.cc:725-733 | the source's assertion that doomed threads are drained holds if and only if none of them sleeps |
| `Counterexamples.DrainedAssertionFails` | events-serializer.cc:727 | a file that is accepted, and in every run of which a round ends while a doomed thread still has an event |
| `MachineTheorems.SwitchesAreCrisp` | events-serializer.cc:733-737 | an operation makes a switch that replay rejects if and only if it ends a round whose first kill is the thread the receiver was last told of |
| `Counterexamples.RedundantSwitchHappens` | replay.cc:98-100 | a file that is accepted, and in every run of which the receiver is told to switch to the thread that is already current |
| `Counterexamples.EmptyTraceIsRefused` | replay.cc:347-349 | a file that is accepted, and every run of which writes nothing although no round ends badly |
| `LinkedLogs.EmitFollows` | events-serializer.cc:642-686 | an event is delivered only when the receiver can follow it: the token it takes is alive and the one it gives is new |
| `LinkedLogs.PipelineIsSafe` | postprocess.cc:295-361 | after any run the instructions find every target register empty and every source register full with the right size; full registers, live tokens and taken ids agree one to one; replay's counter and the receiver's counters equal the number of live tokens; the registers named are exactly those below the peak number of objects alive at once |
| `LinkedLogs.RunIsCrisp` | replay.cc:98-123 | replay's thread assertions hold over a run if and only if no round of it ended with a redundant switch |
| `LinkedLogs.PipelineIsCrisp` | replay.cc:98-123 | the same for the instructions the receiver wrote since the start |
| `Retellings.OutputIsFaithful` | postprocess.cc:275-361 | replay is told to do exactly what the receiver was told of: the same calls in the same order, with the same sizes and alignments, on the same threads, at the same times and cpus |
| `Retellings.OutputTranscribes` | postprocess.cc:275-361 | instruction by instruction: what is written for each call, and nothing for a barrier; allocations go to the lowest register that is free, a realloc's while the old one is taken; both kinds of free are written as a sized free of the object's register with the size the object has by the calls before |
| `Retellings.RunIsTranscribed` | postprocess.cc:275-361 | that holds for all that is written in any run |
| `Retellings.TraceIsRetold` | events-serializer.cc:634-718 | after any run what replay does is a legal ordering of what the traced threads did |
| `Retellings.ReplayMirrorsProgram` | replay.cc:129-203 | at every moment replay holds an object of the same size for every live object of the traced program, each in its own register, and no others |
| `Retellings.CountersCount` | postprocess.cc:295-365 | each of the six counters counts the calls of its own kind |
| `Retellings.OneBarrierPerRound` | events-serializer.cc:745 | the receiver is told of a barrier once for every round, and at no other time |
| `IdTrees.FullBelow` | id_tree.h:22-29 | a level without available bits has all the words it can have below it, none of them available |
| `IdTrees.FirstBelow` | id_tree.h:96-130 | the first available bit of a level points to the word that holds the first available bit of the level below, or to the next word to be made |
| `IdTrees.SetBitKeepsLinks` | id_tree.h:48-79 | setting or clearing an id keeps every summary bit: non-zero for a word that exists, set for one that does not yet |
| `IdTrees.GrowTop` | id_tree.h:85-94 | when the top level is full, all levels below it are completely grown, as the source asserts, and one more word keeps the summary bits |
| `IdTrees.Descend2` | id_tree.h:96-108 | the same for the second level, reached through the first available bit above it |
| `IdTrees.Descend1` | id_tree.h:110-120 | the same for the third level |
| `IdTrees.Descend0` | id_tree.h:121-130 | the same for the lowest level |
| `IdTrees.LeastFree` | id_tree.h:82-134 | the least id that is not live exists and is at most the number of live ids |
| `IdTrees.TakeFirst` | id_tree.h:121-133 | the first available bit of the lowest level, grown or not, is the least id that is not live, and clearing it takes exactly that id |
| `IdTrees.IdTree.FindSetBit` | id_tree.h:36-45 | finds the first available bit of a level, or that it has none |
| `IdTrees.IdTree.SetBit` | id_tree.h:65-79 | changes the bit of the id and the summary bits above it as far as words become zero or non-zero |
| `IdTrees.IdTree.AllocateId` | id_tree.h:82-134 | returns the least natural number that is not live and adds exactly it; the assertions on level sizes hold on the way |
| `IdTrees.IdTree.FreeId` | id_tree.h:136-140 | removes exactly the given id |
| `Receiver.HearKeeps` | postprocess.cc:275-365 | every call keeps tokens, registers and ids in one-to-one agreement, the instructions tidy and the counters exact |
| `Receiver.HearAllKeeps` | postprocess.cc:275-365 | the receiver can follow every orderly list of calls, and keeps all of that |
| `Receiver.NamedIffBelowPeak` | id_tree.h:82-134 | the registers the output names are exactly those below the peak number of objects alive at once, counting both objects of a realloc |
| `Receiver.MatchedMove` | postprocess.cc:318-333 | a realloc, which takes the new register before it returns the old one, leaves tokens, ids and registers in one-to-one agreement |
| `Receiver.FreesAreTidy` | postprocess.cc:225-234 | the final frees, in whatever order, each find a full register, and empty exactly those of the tokens freed |
| `Receiver.FreesAt` | postprocess.cc:225-234 | each of the final frees is an unsized free of the register of its token |
| `Receiver.DumpLeavesNothing` | postprocess.cc:225-234 | after the final frees no register is full and the count of allocated objects is zero |
| `Receiver.SimpleReceiver.KillCurrentThread` | postprocess.cc:275-278 | the receiver's new state is the one specified for the call |
| `Receiver.SimpleReceiver.SwitchThread` | postprocess.cc:280-284 | the receiver's new state is the one specified for the call |
| `Receiver.SimpleReceiver.SetTS` | postprocess.cc:286-293 | the receiver's new state is the one specified for the call |
| `Receiver.SimpleReceiver.Malloc` | postprocess.cc:295-304 | the token gets the least free register; table, ids, output and counters change as specified |
| `Receiver.SimpleReceiver.Memalign` | postprocess.cc:306-316 | the same for an aligned allocation |
| `Receiver.SimpleReceiver.Realloc` | postprocess.cc:318-333 | the new token gets the least register that is free while the old one is still taken; the old register is returned |
| `Receiver.SimpleReceiver.Free` | postprocess.cc:335-347 | the token's register is returned, and a sized free with the size it was defined with is written |
| `Receiver.SimpleReceiver.FreeSized` | postprocess.cc:349-361 | the same, counted apart |
| `Receiver.SimpleReceiver.DumpAllDeallocations` | postprocess.cc:225-234 | writes one unsized free of its register for every live token, each once, behind what was written before |
| `Replay.CountIsFull` | replay.cc:126-203 | over a tidy trace the counter is the number of full registers |
| `Replay.TidyMeans` | replay.cc:129-203 | in a tidy trace, allocations go to registers that are empty, a realloc from a full one to an empty one, frees concern full registers, and sized frees tell their size |
| `Replay.SizeStays` | replay.cc:129-203 | a register is full with the size asked for by the last instruction to fill it |
| `Replay.StaysEmpty` | replay.cc:129-203 | a register that nothing filled since it was emptied is not full |
| `Replay.Player.ReplayInstruction` | replay.cc:98-218 | an instruction is carried out if and only if its registers exist, the source's assertions hold of registers and thread, and the allocator does not fail; then the pointer the allocator returned is in the target register, the register that gave its pointer up is null and no other has changed, the allocator has been asked for exactly what the instruction says with exactly the pointer that was held, and thread and counter have followed; otherwise registers and thread are untouched |
| `ReplayInputs.Input.Rebase` | replay.cc:274-280 | moving the rest to the front loses and repeats nothing, and the two places do not overlap |
| `ReplayInputs.Input.RefillBuffer` | replay.cc:274-298 | for every pattern of short and interrupted reads, the bytes to come stay the same, and 1024 new ones are there unless the file has ended |
| `ReplayInputs.Input.BufferRead` | replay.cc:300-310 | hands out exactly the next bytes of the file; a request for up to 1024 bytes fails only when the file has fewer left, a larger one also when a refill that stopped at 1024 new bytes was not enough |
| `ReplayTraces.InstructionRoundTrip` | instruction.h:7-42 | an instruction is read back from its 24 bytes if its register fits 56 bits and its words fit 64 |
| `ReplayTraces.InstructionLayout` | instruction.h:7-42 | the bytes of each instruction: its type number, seven bytes of register, and its two words, unused ones zero |
| `ReplayTraces.RecordRead` | instruction.h:7-42 | what any 24 bytes are read as, by the number in the first |
| `ReplayTraces.DumpRoundTrip` | postprocess.cc:257-258 | what was written is read back as the same instructions, even if the last record is torn |
| `ReplayTraces.TidyPlays` | replay.cc:129-218 | a tidy trace within the register file plays to its end if and only if its thread switches pass replay's assertions |
| `ReplayTraces.ReplayFile` | replay.cc:347-381 | the loop that reads one record ahead carries out the records of the file from its beginning, once and in order, and its registers then hold the pointers the allocator returned to the instructions that filled them; without failures of reading and allocating it reaches the end if and only if the file has a record and all instructions play, and otherwise it stops, registers untouched, at the first record that is unknown or does not play |
| `ReplayPointers.PointerStays` | replay.cc:129-203 | a register holds what the allocator returned to the last instruction that filled it, until it is emptied |
| `ReplayPointers.PointersKept` | replay.cc:129-203 | over a tidy trace the pointers the allocator has returned are those it was given back and those in registers, each as often: none is lost and none is freed twice |
| `Serializers.Serializer.constructor` | events-serializer.cc:501-518 | the program starts in the state every run starts from |
| `Serializers.Serializer.MaybeSwitchThread` | events-serializer.cc:520-532 | the receiver has been told of the thread and its clock, and of nothing it knew before (see `ClocksAreNews`) |
| `Serializers.Serializer.Deliver` | events-serializer.cc:642-686 | the receiver has heard the thread's event, on the thread and at the time it happened |
| `Serializers.Serializer.AddAllocated` | events-serializer.cc:534-543 | the thread that waits for the token, if any, is runnable again; all other threads are as before |
| `Serializers.Serializer.Requeue` | events-serializer.cc:692-704 | a drained thread leaves the heap and is killed if it is dead (see `KilledAtOnce`); any other takes its new place |
| `Serializers.Serializer.GoToSleep` | events-serializer.cc:705-711 | the thread has left the heap and waits for the token |
| `Serializers.Serializer.Turn` | events-serializer.cc:634-718 | thread objects, queues and receiver follow one step of the state machine |
| `Serializers.Serializer.DrainOne` | events-serializer.cc:634-718 | the same, picking any thread with the least timestamp, as part of a run from the start |
| `Serializers.Serializer.Drain` | events-serializer.cc:634-718 | the drain loop terminates with an empty heap, having taken only turns |
| `Serializers.Serializer.HandleBuffer` | events-serializer.cc:593-611 | a buffer record is an arrival of the events it decodes to |
| `Serializers.Serializer.HandleDeath` | events-serializer.cc:613-618 | a death record is a death |
| `Serializers.Serializer.BuryAll` | events-serializer.cc:724-742 | the loop over the doomed list computes what the end of a round does; threads that are erased are drained, as the source asserts |
| `Serializers.Serializer.EndRound` | events-serializer.cc:724-745 | the end of a round, as part of a run from the start |
| `Serializers.BuryingNext` | events-serializer.cc:724-742 | at every point of that loop the next doomed thread is in the table and dead, and sleeps or has nothing left |
| `SerializeTraces.TraceExtends` | events-serializer.cc:580-625 | reading further only adds events |
| `SerializeTraces.ReadRound` | events-serializer.cc:582-625 | takes in the records up to the next barrier or the end, and nothing else |
| `SerializeTraces.SerializeMallocEvents` | events-serializer.cc:557-746 | the program panics exactly on a wrong magic word; otherwise it makes a run of the state machine whose inputs are exactly the records of the file, in order, and which ends with an empty heap |
| `WireFormats.MagicNumber` | events-serializer.cc:557-571 | a file is taken for a trace exactly if its first four bytes are 0x6CBD63E4, low byte first |
| `FileInputs.FileIsTaken` | events-serializer.cc:582-625 | the records of a file can be taken in if and only if, up to the end record, no buffer or death follows the death of its thread, only threads that handed over a buffer die, every buffer decodes behind the thread's earlier ones, and no death record is torn |
| `FileInputs.FileIsRead` | events-serializer.cc:582-625 | then one input arrives for each record before the end record, in order, with the events that the buffer adds to its thread's, and a last round is ended behind them |
| `FileInputs.CutFileIsTaken` | events-serializer.cc:262-323 | a file cut at any byte can be taken in if and only if it is not cut in a death record behind its first word and before any end record; what arrives is then what arrived for the records that are complete, and a last round, and events stay well formed |
| `Determinism.TraceAlike` | events-serializer.cc:325-334 | the events read from a file do not depend on what uninitialised clocks hold |
| `Determinism.BytesDecide` | events-serializer.cc:557-746 | any two runs over the same bytes deliver the same events, leave the same tokens alive and the same threads asleep, whatever uninitialised clocks, ties and wake-ups |
| `Sessions.SessionRoundTrip` | malloc_trace_encoder.h:80-234 | the file of a recorded session of any number of threads, whose records keep their bits, is read as what the session means |
| `Sessions.ModestItemsCarry` | malloc_trace_encoder.h:80-154 | for that, sizes below 2^57 and tokens below 2^60 are enough |
| `Sessions.ThreadOfSession` | malloc_trace_encoder.h:80-234 | a thread's events in the trace are those of what it handed over, in order |
| `Sessions.SessionIsAcceptable` | events-serializer.cc:557-571 | such a file meets what the serializer assumes of its input |
| `Sessions.SessionIsDelivered` | events-serializer.cc:557-746 | if the events of a recorded session can be ordered legally, the receiver hears every event of every thread, in order, at the time and cpu it happened |
| `Widths.TraceFits` | events-serializer.cc:420-464 | every size, alignment and clock that is decoded is a 64-bit word |
| `Widths.RunFits` | events-serializer.cc:520-532 | so is everything the receiver is told in any run |
| `Widths.HearAllFits` | postprocess.cc:275-361 | so is everything the receiver writes, apart from registers |
| `EndToEnd.WrittenIsSafe` | postprocess.cc:438-456 | everything written for a finished run is tidy, leaves no register full and names exactly the registers below the peak |
| `EndToEnd.WrittenIsEmpty` | postprocess.cc:438-456 | nothing is written if and only if no event was delivered and no thread killed |
| `EndToEnd.WrittenIsReplayed` | replay.cc:347-381 | the output file is read back as written, even if its last record is torn; all of it plays if and only if at most 2^30 objects were alive at once and no round ended with a redundant switch |
| `EndToEnd.AllIsGivenBack` | replay.cc:347-381 | whatever the allocator returns, replaying the whole output gives every pointer back exactly as often as it was returned |
| `EndToEnd.ReplayOutput` | replay.cc:347-381 | replaying the output file of a run, with neither reading nor allocating failing, reaches the end if and only if something was written, at most 2^30 objects were alive at once and no round ended with a redundant switch; then every register is null, the count is zero, and every pointer the allocator returned was given back, as often as it was returned |
| `EndToEnd.Postprocess` | postprocess.cc:438-456 | the program's output for a file is that of some run whose inputs are the records of the file, followed by one free for every live token |

## Left out

- Mapped files (`fd-input-mapper.cc`): the mapper supplies what is asked for or all there is, as `ConstMapper::Realize` does.
- Memory release behind the reader (`events-serializer.cc:204-219`): a no-op on the window.
- The buckets of the token table and the internals of the priority queue: a finite map, and a multiset from which any least entry is taken.
- `events-tally.cc`, `PrintReceiver`, progress output, statistics, signals, pipe sizes and the build.
- Thread caches, prefetching and the clearing of memory in replay. The allocator is its answers: what it returns is a parameter, what it is asked is recorded.
- The inline assembly: the functions it computes. The bit scan is the one of x86_64.
- Overflow of ids and of pointers for buffers near 2^64 bytes: ids and positions are unbounded.
- The heap, the doomed list and the sleeping queue hold thread ids where the source holds pointers; `NothingDangles` says the pointers stay valid.
- The words of `IdTree` are lists of 64 bits; the steps of `allocate_id` are methods of their own.
- Errors of `read` other than an interruption abort replay; what `errno` says beyond that is not modelled.
- Serializers.Serializer.HandleBuffer: takes only buffers that decode, since the source panics on any other in the middle of a round.
- SerializeTraces.SerializeMallocEvents: assumes that the records can be taken in and that the events are well formed. Some excluded files make the source panic or fail an assertion: a buffer that does not decode, the death of an unknown thread, a buffer or a second death before the barrier after a death, a token allocated again while it is alive, two threads asleep on one token. On others the source runs through, and the model does not say what it does: a token allocated again after its free, a token freed twice with one thread waiting (which sleeps for good), the "no token" marker as a token (which wakes nobody), a thread id used again after the barrier that buried its thread, the "no thread" marker as a thread id. For those the theorems about uniqueness and completeness would not hold as stated.
- Varint.ReadVarint: only for a first byte that is not zero; the other branch of the script returns a name it never assigns.
- OuterStream.Next: what is left of the stream after a panic is not stated, since the process has ended.
- ReplayInputs.Input.BufferRead: for requests up to half of what fits between the front of the buffer and its last 1024 bytes; after larger ones the leftover that is moved to the front could overlap itself, and the source's `memcpy` does not allow that. Replay asks for 24.
- EndToEnd.WrittenIsReplayed: for at most 2^56 objects alive at once, since a record has 56 bits for a register and loses the rest.
