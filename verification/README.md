# Verification of Avidemux cores

A Dafny 4.11 project that models six stateful parts of Avidemux and proves what they do; `dafny verify
dfyconfig.toml` takes the whole of it. The code is modelled as it is written; where it does not do what its
documentation or a standard says, the project states exactly when it does.

## What is modelled

**PacketQueue** (`PacketRing`, `PacketQueue`, `PacketProtocol`, `PacketCalls`, `PacketRuns`, `PacketSignal`). A blocking queue between threads: packets
of any size lie end to end in a byte ring, described by a ring of slots. `PacketRing` holds the layout
invariant for a queue of any length, `PacketQueue` the object with its two arrays and the critical sections
of `Push`, `Pop`, `Finished` and `Abort`, and `PacketProtocol` a step relation for any number of threads over
the mutex and condition classes of `ADM_threads.cpp`. A mutex is recursive; `wait` on a live condition drops
the mutex, sleeps, clears its flag and drops the mutex again, and on an aborted condition returns with the
mutex held. One step is one critical section, so steps interleave in every order the mutex allows, wakeups
pick any sleeper and may be spurious. Abort sends its last signal without the mutex; `PacketSignal` lets other
threads run between its accesses and shows that no state is reached that the protocol does not have. Results a
reader may not expect:

* The slot guard (`ADM_packetQueue.cpp:111`) blocks when one slot is used, so a queue never holds more than
  one packet, and the ambiguity of the free-space formula never matters.
* Push leaves the write position at the buffer size when a packet ends there, Pop wraps its own. Pop's
  position check then stops the program: exactly when a packet is queued and the bytes popped before are a
  positive multiple of the buffer size. A run shows that this happens (`PositionCheckCanFail`).
* With one producer and one consumer no wakeup is lost. With a second consumer or a second producer it can be:
  `NoWakeupIsLostIff` gives the exact numbers of threads, and a run shows each failure.

**The H.264 encoder of the libVA plugin.** `Bits` and `VaBitstream` model the bit writer as an object over an
array of words, with the exact effect of values that are too large for their field. `H264Syntax` is a decoder
that knows nothing of the writer: descriptors u(n), ue(v), se(v) and syntax tables of sections 7.3.2.1.1,
7.3.2.2 and 7.3.3 of ITU-T H.264 (`H264ParameterSets`, `H264SliceHeader`). `H264Printers` and
`ParameterSetUnits` hold the printers themselves and prove that they emit the field sequences the decoder reads back.
`H264Meaning` says what decoded fields mean, with the values section 7.4 infers for absent ones, and gives the
meaning of everything the encoder prints, value by value.
`ConfigurationRecord` adds the AVC configuration record and parsers of section 5.2.4.1 of ISO/IEC 14496-15,
one for the whole record and one that stops behind the parameter sets.
`ReferenceSort` and `ReferenceLists` hold the two in-place quicksorts and the lists of section 8.2.4.2.3.
`PictureOrder`, `GopRuns`, `SlidingWindow` and `EncodedHeaders` describe whole runs in closed form, with the
decoder's side of each rule. `Encoder` is the encoder object, whose invariant between two frames is that
closed form. `BitstreamMemory` holds what is handed to the driver, a bit length and the bytes in memory; over
any run of calls these bytes are a stream of parameter sets and packed headers (`EncodeAll`). `DecodedStream`
decodes such a stream from its bits alone: the sets first, the headers with what the sets say, and from the
headers the picture order, the frame numbers and the reference lists. Results a reader may not expect:

* `put_ui` does not mask. From order count 256 on, the high bits of the order count run into frame_num in
  front of it: a decoder reads frame_num or-ed with the count divided by 256. All headers of a run are read
  back as meant, and the numbers read follow section 7.4.3, iff the IDR period is at most 256; the settings
  dialog allows 1000 (`libvaencPlugin.cpp:73`).
* With these numbers the encoder's P lists are the beginnings of the decoder's iff the period is at most 258.
  Frames 256 and 257 of a longer group are both read as 257, and before frame 258 the buffer holds both. For
  periods 257 and 258 the numbers already break section 7.4.3, so a decoder that conceals gaps in frame_num
  may build other lists; the statement is about marking and list initialisation alone.
* Sets and headers activate one reference for every P slice, however many the encoder keeps.
* The order count itself survives: the encoder counts modulo 512, announces 256, and a decoder recovers the
  same counts on every run.
* The cropped size a decoder derives is the frame size rounded up to even numbers.
* The configuration record of a High profile stream ends behind the picture parameter sets, where the
  standard goes on with chroma format and bit depths: a full parser accepts the record iff the profile is Main.
* The parameter sets in the configuration record carry nal_ref_idc 0, those of the Annex B stream 3.
* `build_packed_pic_buffer` never calls `stop`; memory is right nevertheless, because the second start code
  it appends happens to end one byte into a word.

**BVector** (`BVector`). The growing array as an object, refining a sequence, with a count of the elements
that `setCapacity` copies. The expected bound of fewer than 3 copies per inserted element is false:
appending whole vectors that fill the buffer exactly loses a rounding each time (`ThreeIsNotEnough`). Inserting one
by one it holds on every run. On other runs it is a matter of the growths from a full buffer of odd capacity,
which a caller can see before each call: `size()` equals `getCapacity()`, that is odd, and the call makes
room. Fewer than m such growths are enough for the bound iff m is at most 10 (`ThreeHoldsIff`). For all runs 4
is the smallest whole number that bounds the copies per element. Assigning a vector to itself empties it.

**ADM_ptrQueue** (`PtrQueue`). The linked list over heap nodes, refining a sequence; the nodes are linked in
order from head to tail without repetition.

**The libmkv video writer** (`LmkvWriter`). The two-buffer look-ahead: the last packet of a source is never
written.

**admSerialization.py** (`AdmSerialization`). The generator's main loop with its three outputs. Each output is
read by a reader of its own, and for every input the JSON writer and the table describe the declared tree,
while the header has the members that C makes of it: C puts the members of a nameless struct into the struct
around it. The names in the table and in the JSON writer are the members of the C struct iff a variable is in
no nameless struct or directly inside a lone one; that lone struct is also the one case in which a table name
is not the dotted path of the tree.

`Arithmetic` and `Guards` are helpers; a predicate written behind `Guards.Opened` is carried as a whole by the
proofs that do not look inside.

The number of kept references is 1 in the source (`ADM_libVaEncodingContextH264.cpp:85`); the model takes any
number from 1 to 16, which is what the arrays hold. A period below 1 acts as 1. `calc_poc` keeps its history
in function statics: the model takes one run of one encoder, with arbitrary statics before it.

## Model

| member | source | states |
|---|---|---|
| PacketRing.UsedSlotsCounts | avidemux/common/ADM_toolkit/ADM_packetQueue.cpp:111 | for a queue of any length below the slot count, the occupancy formula counts the queued packets, and head equals tail iff there are none |
| PacketRing.AvailableSpaceMeasures | avidemux/common/ADM_toolkit/ADM_packetQueue.cpp:233-241 | the free-space formula is exact for a queue of any length, except that a full byte ring reads as an empty one |
| PacketRing.CommitAppends | avidemux/common/ADM_toolkit/ADM_packetQueue.cpp:124-143 | laying a packet down, split or not, keeps every queued byte and slot and appends exactly this packet; only slot and space must be there |
| PacketRing.FrontIsOldest | avidemux/common/ADM_toolkit/ADM_packetQueue.cpp:188-213 | taking the front slot yields the oldest packet, every byte, size and sample, and leaves the rest laid out; the position check fails iff the packet was laid down with the write position at the buffer size |
| PacketRing.HeadAfterTotal | avidemux/common/ADM_toolkit/ADM_packetQueue.cpp:132-143 | the write position after any packets is the total length modulo the buffer size, represented in 1..size |
| PacketRing.HeadAtEndIff | avidemux/common/ADM_toolkit/ADM_packetQueue.cpp:132-136 | the write position is left at the buffer size iff the total pushed is a positive multiple of it |
| PacketSections.PushKeepsShape | avidemux/common/ADM_toolkit/ADM_packetQueue.cpp:104-158 | one pass of Push on a queue of at most one packet: what it answers in every case, and that the queue afterwards holds exactly the old packet or the new one |
| PacketSections.PopKeepsShape | avidemux/common/ADM_toolkit/ADM_packetQueue.cpp:167-226 | one pass of Pop: waits, ends, fails its position check or delivers the queued packet, each exactly when it should |
| PacketQueues.PacketQueue.constructor | avidemux/common/ADM_toolkit/ADM_packetQueue.cpp:31-47 | both rings are allocated at their sizes and the queue is empty |
| PacketQueues.PacketQueue.QueryIsEmpty | avidemux/common/ADM_toolkit/ADM_packetQueue.cpp:71-81 | true iff no packet is queued |
| PacketQueues.PacketQueue.QueryIsEof | avidemux/common/ADM_toolkit/ADM_packetQueue.cpp:256-263 | true iff finished or aborted and nothing is queued |
| PacketQueues.PacketQueue.QueryAvailableSpace | avidemux/common/ADM_toolkit/ADM_packetQueue.cpp:233-241 | the whole buffer when nothing is queued |
| PacketQueues.PacketQueue.CopyIn | avidemux/common/ADM_toolkit/ADM_packetQueue.cpp:132-143 | the one or two memcpy calls write the payload cyclically and change no other byte; the write position is not wrapped at the very end |
| PacketQueues.PacketQueue.CopyOut | avidemux/common/ADM_toolkit/ADM_packetQueue.cpp:201-213 | the one or two memcpy calls read the payload cyclically and leave the rest of the target alone; the read position is wrapped |
| PacketQueues.PacketQueue.Store | avidemux/common/ADM_toolkit/ADM_packetQueue.cpp:124-143 | slot and payload in place: the object's state becomes that of PacketRing.Commit |
| PacketQueues.PacketQueue.Fetch | avidemux/common/ADM_toolkit/ADM_packetQueue.cpp:188-213 | the object hands out the front packet and its state becomes that of PacketRing.RemoveFront |
| PacketQueues.PacketQueue.PushPass | avidemux/common/ADM_toolkit/ADM_packetQueue.cpp:109-157 | Push between taking the mutex and waiting or returning: accepted only into an empty queue, which then holds exactly the caller's bytes; otherwise nothing changes |
| PacketQueues.PacketQueue.PopPass | avidemux/common/ADM_toolkit/ADM_packetQueue.cpp:172-225 | Pop between taking the mutex and waiting or returning: delivers exactly the queued packet; the position check fails iff it was laid down at the buffer size |
| PacketQueues.PacketQueue.MarkFinished | avidemux/common/ADM_toolkit/ADM_packetQueue.cpp:91 | the end-of-stream flag is set and nothing else changes |
| PacketQueues.PacketQueue.MarkAborted | avidemux/common/ADM_toolkit/ADM_packetQueue.cpp:247-251 | the abort flag is set and the queue is empty |
| PacketProtocol.SafeStep | avidemux/common/ADM_toolkit/ADM_packetQueue.cpp:87-263 | every step of any thread keeps the safety invariant: free mutex, popped a prefix of pushed, ring laid out with the rest |
| PacketProtocol.RunIsSafe | avidemux/common/ADM_toolkit/ADM_packetQueue.cpp:87-263 | the safety invariant holds in every state of every run of any number of threads |
| PacketProtocol.FifoInEveryRun | avidemux/common/ADM_toolkit/ADM_packetQueue.cpp:104-241 | pushed packets equal popped packets followed by those queued, byte for byte and in order, with at most one queued |
| PacketProtocol.RefusedPushLeavesNoTrace | avidemux/common/ADM_toolkit/ADM_packetQueue.cpp:104-158 | in every run a critical section of Push adds its packet to an empty queue and returns 1, or leaves queue and histories alone; a Push that returns 0 changes nothing but its own thread, and only after the end of the stream |
| PacketProtocol.MutexIsAlwaysReleased | avidemux_core/ADM_core/src/ADM_threads.cpp:78-88 | no reachable step waits on an aborted condition, where wait returns with the mutex still held; the mutex is free between critical sections |
| PacketProtocol.SpaceIsMeasuredOnEmptyRing | avidemux/common/ADM_toolkit/ADM_packetQueue.cpp:111-121 | whenever the slot guard lets a push through, the free space is the whole buffer, so the formula's ambiguity never decides a push |
| PacketProtocol.PositionCheckFailsIff | avidemux/common/ADM_toolkit/ADM_packetQueue.cpp:194-199 | in every run Pop's check fails iff a packet is queued and the push before it left the write position at the buffer size, which is iff the bytes popped so far are a positive multiple of that size |
| PacketRuns.PositionCheckCanFail | avidemux/common/ADM_toolkit/ADM_packetQueue.cpp:194-199 | a run of one producer and one consumer that stops the program: a packet of exactly the buffer size is pushed and popped, any packet is pushed, and the next Pop fails its position check |
| PacketProtocol.OnlyThePositionCheckFails | avidemux/common/ADM_toolkit/ADM_packetQueue.cpp:194-223 | of the two assertions in Pop only the position check can stop the program, in every step of every run; the second always holds |
| PacketCalls.PushIs | avidemux/common/ADM_toolkit/ADM_packetQueue.cpp:104-158 | every section of Push in every run, in terms of what is queued: asleep behind a packet or for space that never comes, returning 0 without a trace at the end of the stream, else its packet alone is queued and a waiting consumer woken |
| PacketCalls.PopIs | avidemux/common/ADM_toolkit/ADM_packetQueue.cpp:167-226 | every section of Pop likewise: asleep on an empty queue, returning 0 at the end of the stream, the position check, or the packet is out and a waiting producer woken |
| PacketCalls.ReturnIs | avidemux_core/ADM_core/src/ADM_threads.cpp:84-86 | a woken thread clears the flag and looks again in the loop in which it slept, with its packet |
| PacketCalls.FinishedIs | avidemux/common/ADM_toolkit/ADM_packetQueue.cpp:87-96 | Finished, also as the first part of Abort, sets the end of the stream, aborts the poppers' condition and wakes its sleeper |
| PacketCalls.AbortIs | avidemux/common/ADM_toolkit/ADM_packetQueue.cpp:246-251 | Abort's own section leaves an empty ring with all positions 0 and goes on to the signal |
| PacketCalls.SignalIs | avidemux/common/ADM_toolkit/ADM_packetQueue.cpp:252 | the signal aborts the pushers' condition, wakes its sleeper and ends the call |
| PacketCalls.FinishedForGood | avidemux/common/ADM_toolkit/ADM_packetQueue.cpp:87-96 | behind a section of Finished or of Abort's call of it, end of stream and aborted condition hold in every later state |
| PacketCalls.AbortedForGood | avidemux/common/ADM_toolkit/ADM_packetQueue.cpp:242-255 | behind Abort's section the queue is empty for good, and no Push and no Pop succeeds in any continuation of the run |
| PacketProtocol.RunIsAwake | avidemux/common/ADM_toolkit/ADM_packetQueue.cpp:109-158 | with one producer and one consumer the waiting flags mirror the sleepers, and each sleeper's reason to sleep still holds, in every reachable state |
| PacketProtocol.NeverBothAsleep | avidemux/common/ADM_toolkit/ADM_packetQueue.cpp:111-154 | with one producer and one consumer no reachable state has both asleep |
| PacketProtocol.PopWakesProducer | avidemux/common/ADM_toolkit/ADM_packetQueue.cpp:215-223 | every Pop that delivers a packet wakes a sleeping producer |
| PacketCalls.FinishedReleasesPop | avidemux/common/ADM_toolkit/ADM_packetQueue.cpp:87-96 | behind a section of Finished the only consumer is never asleep, and its next critical section returns, with the queued packet or with 0 |
| PacketCalls.AbortReleasesBoth | avidemux/common/ADM_toolkit/ADM_packetQueue.cpp:242-255 | behind the signal of Abort neither the only producer nor the only consumer is ever asleep again, whoever else aborts |
| PacketSignal.SectionIgnoresPusher | avidemux_core/ADM_core/src/ADM_threads.cpp:78-104 | behind Abort's reset no critical section tests or changes the pushers' condition, whatever is done to it meanwhile, so a signal without the mutex may fall inside one |
| PacketSignal.FineRunIsMatched | avidemux_core/ADM_core/src/ADM_threads.cpp:98-104 | with setting the flag, testing for a waiter and waking as three steps among those of other threads, every state of every run is, up to a signal on its way, that of a run in which the signal is one step |
| PacketSignal.FineRunIsSafe | avidemux_core/ADM_core/src/ADM_threads.cpp:98-104 | so the safety invariant and first-in first-out hold there too |
| PacketRuns.SecondConsumerCanBeForgotten | avidemux_core/ADM_core/src/ADM_threads.cpp:78-104 | with two or more consumers a run exists that ends with a queued packet, a producer and a consumer asleep and no wakeup pending, because waiting is a single flag |
| PacketRuns.SecondProducerCanBeForgotten | avidemux_core/ADM_core/src/ADM_threads.cpp:78-104 | with two or more producers a run exists that ends with an empty queue, a producer and a consumer asleep and no wakeup pending: the same flag forgets a producer as well |
| PacketRuns.NoWakeupIsLostIff | avidemux_core/ADM_core/src/ADM_threads.cpp:78-104 | for any numbers of producing and consuming threads and any initial state: no run reaches a state in which nothing is on its way and a thread sleeps on although its packet or its space is there, iff nobody produces, nobody consumes, or exactly one thread does each |
| Bits.ShiftAndOr | avidemux_core/ADM_coreVideoEncoder/ADM_hwAccelEncoder/ADM_coreLibVAEnc/src/ADM_coreLibVA_bitstream.cpp:153 | shifting a word up and or-ing an unmasked value in: which bits come out where |
| Bits.SwapTwice | avidemux_core/ADM_coreVideoEncoder/ADM_hwAccelEncoder/ADM_coreLibVAEnc/src/ADM_coreLibVA_bitstream.cpp:107-116 | the byte swap is its own inverse |
| Bits.SwappedInMemory | avidemux_core/ADM_coreVideoEncoder/ADM_hwAccelEncoder/ADM_coreLibVAEnc/src/ADM_coreLibVA_bitstream.cpp:107-116 | a swapped word lies in little-endian memory with its bits in writing order |
| VaBitstreams.VaBitstream.constructor | avidemux_core/ADM_coreVideoEncoder/ADM_hwAccelEncoder/ADM_coreLibVAEnc/src/ADM_coreLibVA_bitstream.cpp:118-123 | an empty stream in a zeroed buffer |
| VaBitstreams.VaBitstream.Grow | avidemux_core/ADM_coreVideoEncoder/ADM_hwAccelEncoder/ADM_coreLibVAEnc/src/ADM_coreLibVA_bitstream.cpp:159-162 | 4096 more words, the old ones kept |
| VaBitstreams.VaBitstream.EmitBits | avidemux_core/ADM_coreVideoEncoder/ADM_hwAccelEncoder/ADM_coreLibVAEnc/src/ADM_coreLibVA_bitstream.cpp:141-166 | the words hold the stream with the value's bits appended, its bits above the size or-ed into the current word |
| VaBitstreams.VaBitstream.PutUi | avidemux_core/ADM_coreVideoEncoder/ADM_hwAccelEncoder/ADM_coreLibVAEnc/src/ADM_coreLibVA_bitstream.cpp:141-166 | one more call in the trace, and the buffer still shows what the trace renders to |
| VaBitstreams.VaBitstream.CountBits | avidemux_core/ADM_coreVideoEncoder/ADM_hwAccelEncoder/ADM_coreLibVAEnc/src/ADM_coreLibVA_bitstream.cpp:170-176 | the loop counts the bits of the value |
| VaBitstreams.VaBitstream.PutUe | avidemux_core/ADM_coreVideoEncoder/ADM_hwAccelEncoder/ADM_coreLibVAEnc/src/ADM_coreLibVA_bitstream.cpp:168-180 | writes the exp-Golomb code of the value |
| VaBitstreams.VaBitstream.PutSe | avidemux_core/ADM_coreVideoEncoder/ADM_hwAccelEncoder/ADM_coreLibVAEnc/src/ADM_coreLibVA_bitstream.cpp:182-192 | writes the exp-Golomb code of the value mapped as section 9.1.1 of ITU-T H.264 does |
| VaBitstreams.VaBitstream.ByteAlign | avidemux_core/ADM_coreVideoEncoder/ADM_hwAccelEncoder/ADM_coreLibVAEnc/src/ADM_coreLibVA_bitstream.cpp:194-211 | fills the last byte with ones or zeros, nothing when it is full |
| VaBitstreams.VaBitstream.RbspTrailingBits | avidemux_core/ADM_coreVideoEncoder/ADM_hwAccelEncoder/ADM_coreLibVAEnc/src/ADM_coreLibVA_bitstream.cpp:213-217 | a one and zeros up to the byte boundary |
| VaBitstreams.VaBitstream.NalHeader | avidemux_core/ADM_coreVideoEncoder/ADM_hwAccelEncoder/ADM_coreLibVAEnc/src/ADM_coreLibVA_bitstream.cpp:224-229 | forbidden_zero_bit, nal_ref_idc and nal_unit_type |
| VaBitstreams.VaBitstream.Stop | avidemux_core/ADM_coreVideoEncoder/ADM_hwAccelEncoder/ADM_coreLibVAEnc/src/ADM_coreLibVA_bitstream.cpp:129-139 | afterwards memory shows all bits of the stream in writing order, the last byte filled with zeros |
| VaBitstreams.VaBitstream.OneByteNeedsNoStop | avidemux_core/ADM_coreVideoEncoder/ADM_hwAccelEncoder/ADM_coreLibVAEnc/src/ADM_coreLibVA_bitstream.cpp:129-139 | memory is right without stop when the last word holds a single byte |
| VaBitstreams.PaddedBytes | avidemux_core/ADM_coreVideoEncoder/ADM_hwAccelEncoder/ADM_coreLibVAEnc/include/ADM_coreLibVA_bitstream.h:68-69 | the bytes handed out are those of the bit string padded to whole bytes |
| H264Syntax.ReadBack | avidemux_core/ADM_coreVideoEncoder/ADM_hwAccelEncoder/ADM_coreLibVAEnc/src/ADM_coreLibVA_bitstream.cpp:141-192 | a decoder's u(n), ue(v) or se(v) reads each written value back, whatever follows |
| H264Syntax.RenderAppends | avidemux_core/ADM_coreVideoEncoder/ADM_hwAccelEncoder/ADM_coreLibVAEnc/src/ADM_coreLibVA_bitstream.cpp:141-192 | calls with values in range just append their code words to what is there |
| H264Syntax.DecodeThrough | myOwnPlugins/videoEncoder/ADM_libVaEncodingContextH264_misc.cpp:64-329 | a table-driven decoder reads a printed field list back if the table asks for these fields in this order |
| H264Printers.SpsRbsp | myOwnPlugins/videoEncoder/ADM_libVaEncodingContextH264_misc.cpp:64-177 | prints exactly the field sequence of SpsFields and trailing bits |
| H264Printers.PpsRbsp | myOwnPlugins/videoEncoder/ADM_libVaEncodingContextH264_misc.cpp:183-214 | prints exactly the field sequence of PpsFields and trailing bits |
| H264Printers.PutSliceFields | myOwnPlugins/videoEncoder/ADM_libVaEncodingContextH264_misc.cpp:220-323 | prints exactly the field sequence of SliceFields |
| H264Printers.BuildPackedSliceBuffer | myOwnPlugins/videoEncoder/ADM_libVaEncodingContextH264_packed.cpp:172-194 | start code, NAL unit header, slice header and alignment, in memory in writing order |
| H264ParameterSets.SpsReadsBack | myOwnPlugins/videoEncoder/ADM_libVaEncodingContextH264_misc.cpp:64-177 | a decoder of section 7.3.2.1.1 reads every field back, both profiles, with and without cropping, all field values |
| H264ParameterSets.PpsReadsBack | myOwnPlugins/videoEncoder/ADM_libVaEncodingContextH264_misc.cpp:183-214 | a decoder of section 7.3.2.2 reads every field back, finding the fields behind more_rbsp_data |
| H264Meaning.HeadSays | myOwnPlugins/videoEncoder/ADM_libVaEncodingContextH264_misc.cpp:66-91 | for any parameters: profile_idc 100 or 77, the one constraint flag of the profile, level and id |
| H264Meaning.FormatSays | myOwnPlugins/videoEncoder/ADM_libVaEncodingContextH264_misc.cpp:93-100 | both profiles decode to 4:2:0 with 8 bits, without lossless mode and scaling lists, printed or inferred |
| H264Meaning.PictureSays | myOwnPlugins/videoEncoder/ADM_libVaEncodingContextH264_misc.cpp:102-124 | each number of the set is found under its own name: bits of frame_num and order count, references, size in macroblocks, frames only |
| H264Meaning.CroppingSays | myOwnPlugins/videoEncoder/ADM_libVaEncodingContextH264_misc.cpp:126-177 | each cropping offset is found under its own name, and no VUI is announced |
| H264Meaning.FilledSpsSays | myOwnPlugins/videoEncoder/ADM_libVaEncodingContextH264_render.cpp:194-226 | the set the encoder sends, value by value: level 4.1, id 0, 16 references, 16 and 8 bits |
| H264Meaning.DecodedSize | myOwnPlugins/videoEncoder/ADM_libVaEncodingContextH264_render.cpp:194-226 | the size a decoder derives by section 7.4.2.1.1, with the cropping units of the chroma format it reads, is the frame size with both sides rounded up to even, from the upper left corner on; so exact iff both are even |
| H264Meaning.FilledPpsSays | myOwnPlugins/videoEncoder/ADM_libVaEncodingContextH264_misc.cpp:183-214 | the picture set the encoder sends, all 18 values, and it refers to the id of the sequence set |
| H264Meaning.PrintedSliceSays | myOwnPlugins/videoEncoder/ADM_libVaEncodingContextH264_misc.cpp:220-329 | for every P, B and I slice each of the 20 values is found under its own name or absent; IDR pictures become short-term references and drop no output |
| ParameterSetUnits.SpsUnitReadsBack | myOwnPlugins/videoEncoder/ADM_libVaEncodingContextH264_misc.cpp:64-177 | the set with its trailing bits fills whole bytes and decodes to its fields and a correct trailing pattern |
| ParameterSetUnits.PpsUnitReadsBack | myOwnPlugins/videoEncoder/ADM_libVaEncodingContextH264_misc.cpp:183-214 | the same for the picture parameter set |
| ParameterSetUnits.BuildPackedSeqBuffer | myOwnPlugins/videoEncoder/ADM_libVaEncodingContextH264_packed.cpp:82-89 | start code, NAL unit header and set, in memory in writing order |
| ParameterSetUnits.PackedSpsReadsBack | myOwnPlugins/videoEncoder/ADM_libVaEncodingContextH264_packed.cpp:82-89 | a decoder finds start code, nal_ref_idc 3, type 7 and every field |
| ParameterSetUnits.PackedPpsLength | myOwnPlugins/videoEncoder/ADM_libVaEncodingContextH264_packed.cpp:68-75 | set and unit header take 72 bits, so the second start code ends one byte into a word |
| ParameterSetUnits.BuildPackedPicBuffer | myOwnPlugins/videoEncoder/ADM_libVaEncodingContextH264_packed.cpp:68-75 | memory is right in every byte although stop is not called |
| ParameterSetUnits.PackedPpsReadsBack | myOwnPlugins/videoEncoder/ADM_libVaEncodingContextH264_packed.cpp:68-75 | a decoder finds the set with nal_ref_idc 3 and type 8, and behind it one more start code |
| BitstreamMemory.MemoryShowsBits | avidemux_core/ADM_coreVideoEncoder/ADM_hwAccelEncoder/ADM_coreLibVAEnc/src/ADM_coreLibVA_bitstream.cpp:129-139 | the bytes in memory, taken bit by bit, are the bit string and the zeros that fill its last byte |
| BitstreamMemory.HandOver | myOwnPlugins/videoEncoder/ADM_libVaEncodingContextH264_packed.cpp:205-225 | what the driver is given: the number of bits, and exactly the bytes in memory that they fill |
| BitstreamMemory.PackedBits | myOwnPlugins/videoEncoder/ADM_libVaEncodingContextH264_packed.cpp:205-225 | whoever takes that many bits of these bytes gets the bits that were written |
| ConfigurationRecord.PutSet | myOwnPlugins/videoEncoder/ADM_libVaEncodingContextH264.cpp:266-279 | length in 16 bits, NAL unit header byte and the unit's bytes are appended, nothing before them changes |
| ConfigurationRecord.GenerateExtraData | myOwnPlugins/videoEncoder/ADM_libVaEncodingContextH264.cpp:241-286 | the array's first bytes are the record with both sets, and fit its allocation |
| ConfigurationRecord.RecordReadsBack | myOwnPlugins/videoEncoder/ADM_libVaEncodingContextH264.cpp:260-280 | a parser of section 5.2.4.1 of ISO/IEC 14496-15, with the fields the section adds for the High profiles, accepts the record iff its profile byte asks for none of them; the part up to the picture parameter sets holds exactly one set of each kind, the profile bytes and NAL unit sizes of 4 bytes |
| ConfigurationRecord.FirstByteIsProfile | myOwnPlugins/videoEncoder/ADM_libVaEncodingContextH264.cpp:260-264 | the profile byte of the record is profile_idc of the set printed: 77 or 100 |
| ConfigurationRecord.ExtraDataReadsBack | myOwnPlugins/videoEncoder/ADM_libVaEncodingContextH264.cpp:241-286 | for every frame size the record is accepted iff the profile is Main, because the fields that follow for High are never written; a reader that stops behind the sets finds them for both profiles, they decode to the fields printed, and their header bytes carry nal_ref_idc 0 |
| ConfigurationRecord.PutNalSize | myOwnPlugins/videoEncoder/ADM_libVaEncodingContextH264.cpp:340-344 | the frame is one size-prefixed NAL unit iff the driver delivered at least four bytes |
| H264SliceHeader.SliceReadsBack | myOwnPlugins/videoEncoder/ADM_libVaEncodingContextH264_misc.cpp:220-329 | a decoder of section 7.3.3 reads every field back for P, B and I slices when frame number and order count fit their fields |
| H264PackedSlice.SliceUnitReadsBack | myOwnPlugins/videoEncoder/ADM_libVaEncodingContextH264_packed.cpp:172-194 | with nal_ref_idc and type from the NAL unit header, which are given as numbers, a decoder reads every field of the unit and finds the slice data right behind it |
| H264PackedSlice.AlignmentIsSkipped | myOwnPlugins/videoEncoder/ADM_libVaEncodingContextH264_misc.cpp:325-328 | with CABAC the header ends in ones up to the byte boundary, which section 7.3.4 asks for |
| H264PackedSlice.OverflowIsOr | myOwnPlugins/videoEncoder/ADM_libVaEncodingContextH264_misc.cpp:227-241 | an order count above 255 put into 8 bits is the same as its low 8 bits behind the frame number or-ed with the rest |
| H264PackedSlice.SliceUnitIsWritten | myOwnPlugins/videoEncoder/ADM_libVaEncodingContextH264_misc.cpp:220-329 | the whole unit with a large order count is bit for bit the unit of the altered header |
| H264PackedSlice.SliceUnitReadsWritten | myOwnPlugins/videoEncoder/ADM_libVaEncodingContextH264_misc.cpp:220-329 | what a decoder reads from any P or B header: every field as set, the low 8 bits of the order count, and the frame number or-ed with its high bits |
| H264PackedSlice.FrameNumsSurviveIff | myOwnPlugins/videoEncoder/ADM_libVaEncodingContextH264_misc.cpp:227-241 | all frame numbers of a group survive iff the group has at most 256 frames |
| ReferenceSort.ScanUp | myOwnPlugins/videoEncoder/ADM_libVaEncodingContextH264_render.cpp:61-81 | the unguarded upward scan stops at its sentinel at the latest, at the first element not before the key |
| ReferenceSort.ScanDown | myOwnPlugins/videoEncoder/ADM_libVaEncodingContextH264_render.cpp:61-81 | the unguarded downward scan stops at its sentinel at the latest |
| ReferenceSort.Partition | myOwnPlugins/videoEncoder/ADM_libVaEncodingContextH264_render.cpp:61-81 | with something to stop at on both sides the macro ends, stays in the range, permutes it, and separates it by the key |
| ReferenceSort.SortOne | myOwnPlugins/videoEncoder/ADM_libVaEncodingContextH264_render.cpp:92-116 | for every range, key and direction: ends, stays in the range, which comes out an ordered permutation; everything outside is untouched |
| ReferenceSort.SortTwo | myOwnPlugins/videoEncoder/ADM_libVaEncodingContextH264_render.cpp:129-147 | with keys on both sides of the given key and none equal: a permutation whose front is one side in one order and whose rest is the other side in the other |
| ReferenceSort.StrictOrderIsUnique | myOwnPlugins/videoEncoder/ADM_libVaEncodingContextH264_render.cpp:92-116 | a strictly ordered list is determined by its elements |
| ReferenceLists.SortAroundPoc | myOwnPlugins/videoEncoder/ADM_libVaEncodingContextH264_render.cpp:180-187 | the copied and sorted references are list 0 or list 1 of section 8.2.4.2.3, the rest of the list is untouched |
| ReferenceLists.List0IsUnique | myOwnPlugins/videoEncoder/ADM_libVaEncodingContextH264_render.cpp:180-184 | section 8.2.4.2.3 leaves one list 0, so the list built is it |
| ReferenceLists.List1IsUnique | myOwnPlugins/videoEncoder/ADM_libVaEncodingContextH264_render.cpp:186-187 | section 8.2.4.2.3 leaves one list 1 |
| ReferenceLists.SortByFrameIdx | myOwnPlugins/videoEncoder/ADM_libVaEncodingContextH264_render.cpp:177-180 | the P list is the references by descending frame_idx; the sort is the identity when they are so already |
| PictureOrder.PocIsInWindow | myOwnPlugins/videoEncoder/ADM_libVaEncodingContextH264_render.cpp:286-295 | the reconstructed order count is congruent to its low part and lies in (prev - M/2, prev + M/2] |
| PictureOrder.PocIsUnique | myOwnPlugins/videoEncoder/ADM_libVaEncodingContextH264_render.cpp:286-295 | no other integer does |
| PictureOrder.RunIsRecoveredIff | myOwnPlugins/videoEncoder/ADM_libVaEncodingContextH264_render.cpp:272-304 | over any run of IDR, reference and other pictures, a decoder recovers every order count iff every picture lies in the window of the reference before it |
| PictureOrder.ModuliAgree | myOwnPlugins/videoEncoder/ADM_libVaEncodingContextH264.cpp:89-91 | for any two moduli, decoders agree on every run whose steps fit the smaller one |
| GopRuns.NextFrame | myOwnPlugins/videoEncoder/ADM_libVaEncodingContextH264_misc.cpp:346-358 | the offset test continues the group or starts the next, for every period including those below 1 |
| GopRuns.ClosedForm | myOwnPlugins/videoEncoder/ADM_libVaEncodingContextH264_misc.cpp:337-360 | frame n is IDR iff n mod P is 0, its number is n mod P and its group n div P, for every n and P |
| GopRuns.StoredIsShifted | myOwnPlugins/videoEncoder/ADM_libVaEncodingContextH264_render.cpp:153-166 | the kept references are the newest r of the group, shifted by one each frame |
| GopRuns.ReferencesAreOrdered | myOwnPlugins/videoEncoder/ADM_libVaEncodingContextH264_render.cpp:177-180 | the references of every frame of every run are strictly descending in frame_idx |
| GopRuns.SurfaceIsFreeIff | myOwnPlugins/videoEncoder/ADM_libVaEncodingContextH264_render.cpp:308-316 | the surface of frame n holds a live reference iff 16 frames are live |
| GopRuns.SurfacesAreFreeIff | myOwnPlugins/videoEncoder/ADM_libVaEncodingContextH264_render.cpp:153-166 | no frame of a run overwrites a live reference iff at most 15 are kept or groups have at most 16 frames |
| GopRuns.FrameNumsFollowIff | myOwnPlugins/videoEncoder/ADM_libVaEncodingContextH264_render.cpp:335 | where pic_param.frame_num holds more than 16 bits, the numbers put into it follow section 7.4.3 and stay in its range iff the period is at most 65536 |
| GopRuns.CutFrameNumsFollow | myOwnPlugins/videoEncoder/ADM_libVaEncodingContextH264_render.cpp:335 | where it holds 16 bits, they follow the section modulo 65536 for every period |
| GopRuns.IdrIdsDiffer | myOwnPlugins/videoEncoder/ADM_libVaEncodingContextH264_packed.cpp:445-446 | IDR pictures in a row are a period apart and carry different idr_pic_id, also in 16 bits |
| GopRuns.OrderIsRecovered | myOwnPlugins/videoEncoder/ADM_libVaEncodingContextH264.cpp:89-91 | on every run and from whatever history, counting modulo 512 and modulo the announced 256 recover the same order count, the frame's offset in its group |
| SlidingWindow.MarkSlides | myOwnPlugins/videoEncoder/ADM_libVaEncodingContextH264_render.cpp:205 | one step of the decoder's sliding window keeps the last pictures while their frame numbers, whatever they are, rise; the last step may stand still |
| SlidingWindow.DpbIsRecent | myOwnPlugins/videoEncoder/ADM_libVaEncodingContextH264_render.cpp:205 | as long as the numbers of a group rise, the decoder's buffer of section 8.2.5.3 behind its frame n holds the last frames of the group, oldest first |
| SlidingWindow.RisingListIsPrefix | myOwnPlugins/videoEncoder/ADM_libVaEncodingContextH264_render.cpp:172-180 | for a P frame whose group's numbers rise, the encoder's list is, picture by picture, the beginning of the initial list of section 8.2.4.2.1 |
| SlidingWindow.ListIsPrefix | myOwnPlugins/videoEncoder/ADM_libVaEncodingContextH264_render.cpp:172-180 | about pic_param.frame_num cut to 16 bits, not about the packed headers: with these numbers the list of every P frame is such a beginning for every period up to 65536 |
| SlidingWindow.InitialListIsUnique | myOwnPlugins/videoEncoder/ADM_libVaEncodingContextH264_render.cpp:172-180 | that initial list is determined by the buffer |
| EncodedHeaders.FrameIsRead | myOwnPlugins/videoEncoder/ADM_libVaEncodingContextH264_packed.cpp:172-194 | what a decoder reads from the header of frame n of a run, IDR or P, all 20 values as numbers, and the slice data behind it |
| EncodedHeaders.HeaderSays | myOwnPlugins/videoEncoder/ADM_libVaEncodingContextH264_packed.cpp:442-500 | the slice parameters of any frame, also of a B frame: type, no override of list lengths, no change of quantizer, filter on with offsets 0 |
| EncodedHeaders.FrameNumsReadBackIff | myOwnPlugins/videoEncoder/ADM_libVaEncodingContextH264_misc.cpp:227 | every frame number of a run is read back as meant iff the period is at most 256, although periods up to 1000 can be configured |
| DecodedStream.SetsAreRead | myOwnPlugins/videoEncoder/ADM_libVaEncodingContextH264_packed.cpp:68-89 | a decoder that is given only the bits of the packed sequence and picture headers activates frame numbers of 16 bits, order counts of 8 bits, 16 reference frames, CABAC and deblocking control |
| DecodedStream.HeaderIsRead | myOwnPlugins/videoEncoder/ADM_libVaEncodingContextH264_packed.cpp:172-194 | with the sets read from the stream, the header of frame n says: IDR or not, a short-term reference, one active reference, the order count's low 8 bits, and the frame number or-ed with the count's high bits; and the slice data are found whatever they are |
| DecodedStream.SentIsReceived | myOwnPlugins/videoEncoder/ADM_libVaEncodingContextH264_packed.cpp:172-194 | every stream that is sent, with any slice data, is received: its sets are activated and the header of every frame is read, as long as no frame's offset leaves 16 bits |
| DecodedStream.OrderIsDecoded | myOwnPlugins/videoEncoder/ADM_libVaEncodingContextH264_misc.cpp:241 | one decoder over the bits of sets and headers, which takes IDR and reference pictures from the NAL unit headers, recovers each frame's offset in its group from any history, for every period up to 65536 |
| DecodedStream.NumbersFollowIff | myOwnPlugins/videoEncoder/ADM_libVaEncodingContextH264_misc.cpp:227 | the frame numbers read from the stream follow section 7.4.3 on every run iff the period is at most 256, although periods up to 1000 can be configured |
| DecodedStream.ListsAreRightIff | myOwnPlugins/videoEncoder/ADM_libVaEncodingContextH264_render.cpp:172-180 | by sections 8.2.5.3 and 8.2.4.2.1 alone, that is without the concealment of gaps of section 8.2.5.2, with the frame numbers read from the headers and the window read from the sequence parameter set: every P frame of every run has an initial list that begins with the encoder's references iff the period is at most 258 |
| DecodedStream.LongGroupsAreNot | myOwnPlugins/videoEncoder/ADM_libVaEncodingContextH264_misc.cpp:227 | the failing run: before frame 258 of a longer group the buffer holds frames 256 and 257 with one number, and no initial list exists |
| DecodedStream.OneReferenceIsActive | myOwnPlugins/videoEncoder/ADM_libVaEncodingContextH264_packed.cpp:461-468 | however many references are kept, the sets and headers activate one, and in groups up to 258 frames it is the frame before |
| Encoders.Encoder.constructor | myOwnPlugins/videoEncoder/ADM_libVaEncodingContextH264.cpp:66-100 | the invariant holds before frame 0, whatever gop_start and the statics contain |
| Encoders.Encoder.EncodingToDisplayOrder | myOwnPlugins/videoEncoder/ADM_libVaEncodingContextH264_misc.cpp:337-360 | gop_start becomes n - n mod P and the frame is IDR iff that is n, never B |
| Encoders.Encoder.CalcPoc | myOwnPlugins/videoEncoder/ADM_libVaEncodingContextH264_render.cpp:272-304 | the result is congruent to the lsb, in the window of the reference before it or of 0 for IDR, and becomes the history unless the frame is B |
| Encoders.Encoder.FillPps | myOwnPlugins/videoEncoder/ADM_libVaEncodingContextH264_render.cpp:308-339 | current picture, references for the driver, frame number, flags and history for the frame; IDR empties the references |
| Encoders.Encoder.UpdateRefPicList | myOwnPlugins/videoEncoder/ADM_libVaEncodingContextH264_render.cpp:172-192 | P: the sorted references; B: lists 0 and 1 of section 8.2.4.2.3; in place |
| Encoders.Encoder.UpdateReferenceFrames | myOwnPlugins/videoEncoder/ADM_libVaEncodingContextH264_render.cpp:153-166 | the current picture enters in front, the others shift, the oldest falls out at the limit; B changes nothing |
| Encoders.Encoder.RenderSlice | myOwnPlugins/videoEncoder/ADM_libVaEncodingContextH264_packed.cpp:430-506 | the lists and the part of them the driver sees, idr_pic_id counted on every IDR but frame 0, and the packed header handed over byte for byte |
| Encoders.Encoder.RenderPackedSlice | myOwnPlugins/videoEncoder/ADM_libVaEncodingContextH264_packed.cpp:199-232 | bit length and bytes of the packed slice header as they lie in memory |
| Encoders.Encoder.StartFrame | myOwnPlugins/videoEncoder/ADM_libVaEncodingContextH264_packed.cpp:537-560 | before the slice call the references are the last min(r, n - gop_start) frames, newest first, and the order count is n - gop_start |
| Encoders.Encoder.RenderFrame | myOwnPlugins/videoEncoder/ADM_libVaEncodingContextH264_packed.cpp:561 | the P sort is the identity, the driver sees its beginning, and the header handed over is, byte for byte, the one of frame n in closed form |
| Encoders.Encoder.SendFrame | myOwnPlugins/videoEncoder/ADM_libVaEncodingContextH264_packed.cpp:548-561 | the packed parameter sets are handed over with key frames and only with them, and the slice header with every frame, byte for byte |
| Encoders.Encoder.FinishFrame | myOwnPlugins/videoEncoder/ADM_libVaEncodingContextH264_packed.cpp:572-573 | the invariant holds again for the next frame |
| Encoders.Encoder.Encode | myOwnPlugins/videoEncoder/ADM_libVaEncodingContextH264_packed.cpp:527-577 | one call keeps the invariant, for every frame: the key flag and the bytes of parameter sets and header handed over, the references, the P list and the stored picture are those of frame n; a failed upload hands over nothing and leaves the frame number |
| Encoders.EncodeAll | myOwnPlugins/videoEncoder/ADM_libvaEncoder.cpp:130-143 | call after call, whichever uploads fail: one outcome for every upload that succeeds, each holding, byte for byte, the sets of an IDR frame and the packed header of its frame; the bits of the bytes handed over are a stream of the kind the theorems of DecodedStream are about |
| Encoders.OutputsAreSent | myOwnPlugins/videoEncoder/ADM_libVaEncodingContextH264_packed.cpp:68-194 | outcomes with these bytes, taken for bits, are such a stream |
| BVectorCost.StepIsBounded | avidemux_core/ADM_core/include/BVector.h:229-247 | every operation keeps the bounds between copies, capacity and insertions, and capacity never shrinks |
| BVectorCost.RunIsBounded | avidemux_core/ADM_core/include/BVector.h:116-276 | so does every run |
| BVectorCost.ThreePerElement | avidemux_core/ADM_core/include/BVector.h:229-247 | fewer than 3 copies an element on every run with fewer than ten growths from a full buffer of odd capacity |
| BVectorCost.ThreeHoldsIff | avidemux_core/ADM_core/include/BVector.h:229-247 | fewer than m such growths are enough for fewer than 3 copies an element on every run iff m is at most 10 |
| BVectorCost.ThreePerElementOneByOne | avidemux_core/ADM_core/include/BVector.h:116-121 | fewer than 3 copies an element on every run that inserts one element at a time |
| BVectorCost.ThreeIsNotEnough | avidemux_core/ADM_core/include/BVector.h:127-135 | a run of whole-vector appends that makes 8328 copies for 2776 elements |
| BVectorCost.FourIsTheBound | avidemux_core/ADM_core/include/BVector.h:229-247 | a whole number bounds the copies per element on every run iff it is at least 4 |
| BVectors.BVector.constructor | avidemux_core/ADM_core/include/BVector.h:54-58 | empty, capacity 5, nothing copied |
| BVectors.BVector.WithCapacity | avidemux_core/ADM_core/include/BVector.h:65-69 | empty, with the capacity asked for |
| BVectors.BVector.Move | avidemux_core/ADM_core/include/BVector.h:183 | memcpy and memmove, overlapping or not |
| BVectors.BVector.SetCapacity | avidemux_core/ADM_core/include/BVector.h:229-247 | contents kept, capacity never less and at least what was asked, cost as counted |
| BVectors.BVector.Append | avidemux_core/ADM_core/include/BVector.h:116-121 | the value is appended |
| BVectors.BVector.AppendAll | avidemux_core/ADM_core/include/BVector.h:127-135 | the other vector's contents are appended |
| BVectors.BVector.Assign | avidemux_core/ADM_core/include/BVector.h:220-224 | the other vector's contents; assigned to itself the vector ends up empty |
| BVectors.BVector.PopBack | avidemux_core/ADM_core/include/BVector.h:171-176 | the last element goes, none when empty |
| BVectors.BVector.PopFront | avidemux_core/ADM_core/include/BVector.h:180-186 | the first element goes, none when empty |
| BVectors.BVector.PushFront | avidemux_core/ADM_core/include/BVector.h:200-208 | the value is put in front |
| BVectors.BVector.Insert | avidemux_core/ADM_core/include/BVector.h:249-263 | the value is put at the position |
| BVectors.BVector.RemoveAt | avidemux_core/ADM_core/include/BVector.h:266-276 | the element at the position goes |
| PtrQueues.PtrQueue.constructor | avidemux_core/ADM_core/include/ADM_ptrQueue.h:32-36 | empty |
| PtrQueues.PtrQueue.IsEmpty | avidemux_core/ADM_core/include/ADM_ptrQueue.h:44-49 | true iff empty; its assertion holds |
| PtrQueues.PtrQueue.Clear | avidemux_core/ADM_core/include/ADM_ptrQueue.h:50-61 | the walk over all nodes ends and the queue is empty |
| PtrQueues.PtrQueue.Push | avidemux_core/ADM_core/include/ADM_ptrQueue.h:62-77 | appended behind the tail by a new node, all other nodes and contents kept |
| PtrQueues.PtrQueue.PushBack | avidemux_core/ADM_core/include/ADM_ptrQueue.h:78-93 | the same |
| PtrQueues.PtrQueue.Pop | avidemux_core/ADM_core/include/ADM_ptrQueue.h:94-108 | the head is removed and returned |
| PtrQueues.PtrQueue.PopBack | avidemux_core/ADM_core/include/ADM_ptrQueue.h:109-137 | the tail is removed and returned after a walk that ends at the node before it; nothing when empty |
| LmkvWriter.Muxer.SetupVideo | myOwnPlugins/muxer/muxerLmkvVideo.cpp:78-124 | fails iff the codec is unknown, the track is not created or the source is empty, with nothing fetched; else the first packet is pending |
| LmkvWriter.Muxer.WriteVideo | myOwnPlugins/muxer/muxerLmkvVideo.cpp:135-181 | writes the pending packet with the time up to the next, and the next is pending in the buffer not selected |
| LmkvWriter.Muxer.Save | myOwnPlugins/muxer/muxerLmkv.cpp:87-109 | all packets but the last are written, each with its own bytes, key flag and times, and the last stays in its buffer |
| LmkvWriter.FrameAt | myOwnPlugins/muxer/muxerLmkvVideo.cpp:147-173 | frame i has the bytes and the key flag of packet i, 1000 times its pts or 0 if that is unknown, and the time up to packet i + 1 modulo 2^64 or 0 |
| LmkvWriter.DurationsTelescope | myOwnPlugins/muxer/muxerLmkvVideo.cpp:168-173 | with all DTS known the durations add up to 1000 times the distance from first to last DTS, modulo 2^64 whatever the steps |
| LmkvWriter.DurationsAddUp | myOwnPlugins/muxer/muxerLmkvVideo.cpp:168-173 | and exactly, when no single step leaves int64 |
| AdmSerialization.FullNameIsPath | cmake/admSerialization.py:78-81 | the dotted name is the joined path iff the variable is not directly inside a lone struct without a name |
| AdmSerialization.NamesMemberIff | cmake/admSerialization.py:77-85 | the name that the table gives to offsetof, and the JSON writer to its calls, is the member of the C struct iff the variable is inside no nameless struct or directly inside a lone one |
| AdmSerialization.InCIsWith | cmake/admSerialization.py:64-85 | without empty names the C struct has every variable where it is declared |
| AdmSerialization.TablesMatch | cmake/admSerialization.py:17-43 | the three type tables know the same types |
| AdmSerialization.RowsMatch | cmake/admSerialization.py:17-43 | for each of the eight types the three tables name the C type, its parameter kind and its JSON call as they belong together |
| AdmSerialization.CombinedMember | cmake/admSerialization.py:77 | a member enters the innermost open struct of the header, a member of a nameless struct the one around it, and a member without a name none |
| AdmSerialization.CombinedClose | cmake/admSerialization.py:185-187 | closing a struct in the header under the name it was opened with changes no member path |
| AdmSerialization.FieldAgrees | cmake/admSerialization.py:64-85 | a variable enters struct, table and JSON writer with the same path |
| AdmSerialization.OpenAgrees | cmake/admSerialization.py:179-182 | a nested struct is opened in header and JSON writer alike |
| AdmSerialization.CloseAgrees | cmake/admSerialization.py:184-187 | and closed alike |
| AdmSerialization.Generator.WriteHeads | cmake/admSerialization.py:170-176 | the three files are begun and agree |
| AdmSerialization.Generator.ProcessLine | cmake/admSerialization.py:64-85 | refused iff the type is unknown, else one more variable in all three files |
| AdmSerialization.Generator.OpenStruct | cmake/admSerialization.py:177-182 | the struct is pushed |
| AdmSerialization.Generator.CloseStruct | cmake/admSerialization.py:183-189 | the innermost struct is popped, if any |
| AdmSerialization.Generator.ReadLine | cmake/admSerialization.py:157-210 | one line does to the declared tree what it says, the first opening line naming the struct, and the files stay in agreement |
| AdmSerialization.Generator.Generate | cmake/admSerialization.py:134-217 | for every input: succeeds iff every line is accepted; then the replayed JSON calls and the table are the declared tree, in order and with the types of their tables, the members of the struct are what C makes of it, all files carry the struct's name, and the struct is whole iff the lines close what they open |
| AdmSerialization.AcceptsIff | cmake/admSerialization.py:157-210 | the script gets through iff no line is invalid and every variable has a known type and an opening line before it |
| AdmSerialization.NamedByFirstOpen | cmake/admSerialization.py:166-176 | the struct is named by the first opening line, and by the file only without one |
| AdmSerialization.DescriptionReadsBack | cmake/admSerialization.py:157-210 | a description written from any tree declares that tree, depth first, under its name, and leaves nothing open |

## Left out

- PacketProtocol: fairness and timing of the threads; a thread that may run need not be chosen.
- PacketProtocol.OnlyThePositionCheckFails: about the two assertions in Pop; the assertion in `admCond::wait` that the mutex is locked (`ADM_threads.cpp:82`) is not a step of the model, whose sections wait with the mutex in hand.
- PacketQueues.PacketQueue.PushPass: one critical section; the loops around the waits, the mutex and the conditions are in PacketProtocol, which runs the same sections.
- PacketQueues.PacketQueue.MarkFinished: the flag only; the poppers' condition is aborted in PacketProtocol, whose Finished step does both.
- PacketQueues.PacketQueue.constructor: slot counts of 0 and 1, a buffer size of 0 and sizes from 2^31 on, where 32-bit sums wrap or the modulus is 0.
- VaBitstreams.VaBitstream.EmitBits: a 32-bit value at an aligned offset behind other words shifts by 32, which C leaves undefined; the precondition excludes it, and the bit offset is unbounded rather than a C int.
- VaBitstreams.VaBitstream.PutUi: the same 32-bit value at an aligned offset other than 0.
- VaBitstreams.VaBitstream.PutUe: values from 2^31 - 1 on, on which the source's loop does not end.
- VaBitstreams.VaBitstream.PutSe: values whose code number is 2^31 - 1 or more, for the same reason.
- H264Syntax: syntax that the encoder never announces (field coding, slice groups, scaling lists, weighted prediction, list modification, long-term marking) is an Unsupported branch of the decoder tables.
- H264Printers.SpsRbsp: profiles other than Main and High stop the program in the source, and so do the other assertions of the printers about fields that fillSeqParam fixes.
- ConfigurationRecord.GenerateExtraData: its call of fillPPS also overwrites the current picture and the statics of calc_poc of the encoder object; the first frame, an IDR one, starts from neither (Encoders.Encoder.constructor takes any gop_start and statics).
- GopRuns.FrameNumsFollowIff: the width of pic_param.frame_num comes from libva's headers, which are not part of this model; for a 16-bit field GopRuns.CutFrameNumsFollow holds instead.
- SlidingWindow.ListIsPrefix: about the numbers meant, cut to 16 bits; what a decoder makes of the packed headers is DecodedStream.ListsAreRightIff.
- DecodedStream.OrderIsDecoded: periods above 65536, far beyond what the settings dialog allows, in which the frame number itself leaves its field.
- Encoders.Encoder.RenderSlice: idr_pic_id is unbounded; its 16-bit width comes from libva's headers, which are not part of this model. FRAME_I, on which the source stops, is excluded, and order counts are those of a C int.
- Encoders.Encoder.FillPps: the coded buffer and the quantizer, which are the driver's; entries of pic_param.ReferenceFrames that are marked invalid are left out of the sequence.
- Encoders.Encoder.UpdateRefPicList: for B frames the scans need an order count on each side of the current one and none equal to it; no B frame is ever coded (GopRuns.ClosedForm), so the precondition is never asked for.
- Encoders.Encoder.Encode: frame numbers from 2^31 - 1 on; a failing libva call in the middle of a frame; two encoders that share the statics of calc_poc; the AVC flavour, which makes the same steps without packed headers.
- DecodedStream.ListsAreRightIff: the inference of frames for gaps in frame_num (section 8.2.5.2), which a decoder may apply from period 257 on.
- H264Meaning.DecodedSize: frame sizes from 2^30 on; the width of picture_width_in_mbs comes from libva's headers, which are not part of this model, and may be less.
- libva calls, surfaces and coded buffers: a surface is its slot index. Emulation prevention bytes are left to the driver.
- SEI messages and render_hrd: not reached from encode.
- BVectors.BVector.Append: a value that is a reference into the vector's own buffer would dangle after growth; values are copied here.
- BVectors.BVector.AppendAll: a non-empty vector appended to itself, on which the source's loop does not end.
- BVectors.BVector.SetCapacity: growth of capacities from 2^31 / 3 on, where three times the capacity leaves a C int.
- PtrQueues.PtrQueue.Pop: on an empty queue the source stops the program. Freed nodes are simply no longer reachable.
- LmkvWriter: codec lookup and track creation are two answers given to SetupVideo; the output of the libmkv calls is the sequence of frames handed over.
- AdmSerialization: regular expressions and files; input starts from classified lines, and a variable line with more than one colon, on which the script raises an exception, counts as invalid. Fixed boilerplate text is reduced to its place in the output. A name is taken for an identifier or for nothing.
- The wtv demuxer, the audio muxer, dialogs, navigation, renderers and build scripts are not part of this model.
