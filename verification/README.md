# WebRTC building blocks in Dafny

A model of the stateful core of a slice of the WebRTC library, and proofs about it:

- **Packets over TCP** (`framing.dfy`, `tcp_socket.dfy`, `tcp_link.dfy`): `AsyncTCPSocket` puts packets on a byte
  stream behind a 16-bit length (section 2 of RFC 4571), writes them in pieces, drops packets while it is blocked, and
  takes them off again from a growing buffer. The main result is end to end, over every run.
- **AsyncInvoker's life cycle** (`async_invoker*.dfy`): closures in calls, queues and on thread stacks, flushes of the
  own thread and of others, a counter, an event, and a destructor that waits for the last closure, as a transition
  system over any number of threads and closures.
- **Bit buffers** (`bits.dfy`, `bit_codes.dfy`, `bit_buffer.dfy`, `bit_fields.dfy`): reads and writes at any bit
  offset, and the Exp-Golomb and non-symmetric codes. Machine words are bit strings, so masks and shifts are modelled
  as such and the codes are proved on the stream of bits.
- **Ring buffer** (`ring_buffer.dfy`), **FIR filters** (`fir_*.dfy`), **WAV files** (`wav_*.dfy`), **channel buffers**
  (`channel_buffer.dfy`, `if_channel_buffer.dfy`) and **RTP header extension filtering** (`rtp_extensions.dfy`).

Objects with fields are classes whose methods are proved to compute a function on values; what the source promises
is then proved about those functions. Sockets, files and schedulers appear as parameters: scripts of answers, byte
sequences, sequences of events.

Where code and documentation differ, the model follows the code:

- `rtc_base/bit_buffer.h` describes the Exp-Golomb reader as adding one to the number it reads; the code subtracts one.
- `common_audio/ring_buffer.h` sets no limit to the number of elements; `MoveNeverOverflowsIff` gives the one that the
  code's `int` arithmetic has.
- `common_audio/wav_file.cc` announces a check for payloads that do not match the header; `ReadLoopEndsIff` shows when
  the loop has none.
- `common_audio/channel_buffer.h` says the two buffers are kept in sync; `WideningShowsStaleSamples` is the exception.
- `rtc_base/async_tcp_socket.cc` accepts packets of 65536 to 65538 bytes, whose length the field cannot hold, and goes
  on using a stream after a frame was torn; `FrameFaithfulIffLengthFits` and `NextPacketSafeIffNotTorn`.
- `rtc_base/async_invoker.h` warns of calls from outside a functor during destruction, but not of a functor that flushes
  the thread on which the invoker is destroyed; `DestructorCanReturnIff` and `DeadlockIsReachable`.

## Model

| member | source | states |
|---|---|---|
| `Framing.FrameFirst` | workspace/webrtc/rtc_base/async_tcp_socket.cc:305-344 | A frame at the front of a stream is taken off as the packet it was made from, and the rest is left as it was. |
| `Framing.FrameBytes` | workspace/webrtc/rtc_base/async_tcp_socket.cc:305-307 | A frame is the length, high byte first, and the packet. |
| `Framing.ParseRebuilds` | workspace/webrtc/rtc_base/async_tcp_socket.cc:325-344 | For every byte stream: the packets taken off, framed again and followed by the residue, are the stream byte for byte; the residue never holds a whole frame. |
| `Framing.ParseFrames` | workspace/webrtc/rtc_base/async_tcp_socket.cc:305-344 | Parsing inverts framing for every list of packets whose lengths fit 16 bits, whatever incomplete bytes follow. |
| `Framing.ParseInPieces` | workspace/webrtc/rtc_base/async_tcp_socket.cc:219-260 | Segment boundaries do not matter: parsing a stream in two pieces, carrying the residue over, delivers the packets of the whole. |
| `Framing.ParseOfPrefix` | workspace/webrtc/rtc_base/async_tcp_socket.cc:325-344 | A stream cut anywhere delivers a prefix of the packets of the whole. |
| `Framing.CutFrameIncomplete` | workspace/webrtc/rtc_base/async_tcp_socket.cc:329-334 | No proper prefix of a frame is taken for a frame. |
| `Framing.FrameFaithfulIffLengthFits` | workspace/webrtc/rtc_base/async_tcp_socket.cc:296-307 | Of the packets that Send accepts (up to 65538 bytes), exactly those shorter than 65536 come out as they went in; the others lose the top bit of their length in the cast. |
| `TcpSocket.Drain` | workspace/webrtc/rtc_base/async_tcp_socket.cc:154-167 | The flush loop ends with an error exactly if bytes are left, for every script of partial writes. |
| `TcpSocket.DrainAt` | workspace/webrtc/rtc_base/async_tcp_socket.cc:154-167 | What the loop writes is the sum of the answers before the first failure, or all; and its outcome is whether that failure is EWOULDBLOCK. |
| `TcpSocket.SomeStop` | workspace/webrtc/rtc_base/async_tcp_socket.cc:154-167 | Every script of answers has such a point. |
| `TcpSocket.AsyncTcpSocket.constructor` | workspace/webrtc/rtc_base/async_tcp_socket.cc:64-74 | A fresh socket: nothing buffered, sent or delivered, and 128 bytes of input capacity. |
| `TcpSocket.AsyncTcpSocket.FlushOutBuffer` | workspace/webrtc/rtc_base/async_tcp_socket.cc:151-188 | The loop over partial writes computes Flush: bytes taken move from buffer to stream in order, the unwritten ones stay, and the result tells success, progress before EWOULDBLOCK, or the error. |
| `TcpSocket.AsyncTcpSocket.AppendToOutBuffer` | workspace/webrtc/rtc_base/async_tcp_socket.cc:190-194 | The bytes are added behind those already buffered. |
| `TcpSocket.AsyncTcpSocket.Send` | workspace/webrtc/rtc_base/async_tcp_socket.cc:293-323 | Computes SendPacket: too long is refused, a busy socket drops the packet and claims success, no progress drops it and reports, anything else announces it as sent. |
| `TcpSocket.PacketNotTaken` | workspace/webrtc/rtc_base/async_tcp_socket.cc:296-303 | A packet over 65538 bytes, or one that comes while another is being written, changes nothing; only the first is reported. |
| `TcpSocket.PacketTaken` | workspace/webrtc/rtc_base/async_tcp_socket.cc:305-322 | On an idle socket: the packet is announced and its unwritten bytes stay buffered exactly if some bytes were taken and the failure, if any, is EWOULDBLOCK; else it is given up, the bytes taken stay on the stream and the result tells of it. |
| `TcpSocket.BufferWrittenOn` | workspace/webrtc/rtc_base/async_tcp_socket.cc:262-272 | A write event writes on exactly where the last flush stopped. |
| `TcpSocket.AsyncTcpSocket.MakeRoom` | workspace/webrtc/rtc_base/async_tcp_socket.cc:221-225 | A buffer with room for less than 128 bytes is doubled, up to its largest size. |
| `TcpSocket.AsyncTcpSocket.OnWriteEvent` | workspace/webrtc/rtc_base/async_tcp_socket.cc:262-272 | Flushes what is buffered, and signals readiness exactly if nothing is left. |
| `TcpSocket.AsyncTcpSocket.ProcessInput` | workspace/webrtc/rtc_base/async_tcp_socket.cc:325-344 | Delivers exactly the packets that parsing the input buffer yields, in order, and leaves the residue. |
| `TcpSocket.AsyncTcpSocket.Receive` | workspace/webrtc/rtc_base/async_tcp_socket.cc:219-243 | The growing input buffer takes a prefix of the stream within its limits, something whenever the stream offers something, and everything that fits when the socket hands over all it has; it grows no further than to twice what it holds and one more call needs. |
| `TcpSocket.AsyncTcpSocket.OnReadEvent` | workspace/webrtc/rtc_base/async_tcp_socket.cc:200-260 | However the bytes arrive and the buffer grows, the packets delivered are those of residue and new bytes parsed together; the residue again holds no whole frame. |
| `TcpSocket.ResidueLeavesRoom` | workspace/webrtc/rtc_base/async_tcp_socket.cc:33-43 | The residue of a read always leaves room in a buffer of full size, so a read event cannot stall on a full buffer. |
| `TcpLink.SendKeepsWriterInv` | workspace/webrtc/rtc_base/async_tcp_socket.cc:293-323 | Sending keeps the stream and the buffered bytes equal to the frames of the packets announced as sent, plus at most one frame that was given up half-way; bytes on the stream are never taken back. |
| `TcpLink.FlushMovesBytes` | workspace/webrtc/rtc_base/async_tcp_socket.cc:151-188 | Flushing loses, duplicates and reorders no byte. |
| `TcpLink.ReadKeepsReaderInv` | workspace/webrtc/rtc_base/async_tcp_socket.cc:219-260 | Reading any amount keeps the receiver at the parse of the part of the stream it has read. |
| `TcpLink.StepKeepsInv` | workspace/webrtc/rtc_base/async_tcp_socket.cc:200-344 | Every send, write event and read event keeps both invariants. |
| `TcpLink.RunKeepsInv` | workspace/webrtc/rtc_base/async_tcp_socket.cc:200-344 | So does every run. |
| `TcpLink.DeliveredIsPrefixOfSent` | workspace/webrtc/rtc_base/async_tcp_socket.cc:200-344 | End to end, over every run from the start with any partial writes, blocking, drops and segmentation: the packets delivered are, in order and byte for byte, a prefix of those announced as sent, and all of them once everything is flushed and read. |
| `TcpLink.BlockingSocketDelivers` | workspace/webrtc/rtc_base/async_tcp_socket.cc:200-344 | Over every run in which the socket fails with EWOULDBLOCK only, no frame is ever torn and the same holds without any further condition but that packets fit the length field. |
| `TcpLink.OnlyBlockingTearsNothing` | workspace/webrtc/rtc_base/async_tcp_socket.cc:178-187 | Such a socket tears no frame, over every run. |
| `TcpLink.TornIff` | workspace/webrtc/rtc_base/async_tcp_socket.cc:309-314 | A packet tears the stream if and only if the socket takes part of its frame and then fails with another error than EWOULDBLOCK. |
| `TcpLink.WritingAfterTornFrameMisdelivers` | workspace/webrtc/rtc_base/async_tcp_socket.cc:309-314 | After a frame torn by an error that is not EWOULDBLOCK: from every such state, one more packet that the socket takes whole can leave the receiver with deliveries that are not a prefix of what was announced as sent. |
| `TcpLink.NextPacketSafeIffNotTorn` | workspace/webrtc/rtc_base/async_tcp_socket.cc:293-323 | The exact condition: whatever is sent next, however the socket takes it and however much is read, the deliveries stay a prefix of the packets sent if and only if no frame is torn. |
| `TcpLink.TornFrameIsReachable` | workspace/webrtc/rtc_base/async_tcp_socket.cc:309-314 | A torn frame is reached from the start by one packet of which the socket takes one byte before it fails. |
| `AsyncInvoker.CounterKept` | workspace/webrtc/rtc_base/async_invoker.cc:104-113 | Every step of every thread keeps the pending counter equal to the number of live closures. |
| `AsyncInvoker.CalledKept` | workspace/webrtc/rtc_base/async_invoker.cc:40-88 | Every step, flushes of the own and of other threads included, keeps the stacks well formed: what is above depth one was called by a functor running below it. |
| `AsyncInvoker.OwnerKept` | workspace/webrtc/rtc_base/async_invoker.cc:23-37 | Once destruction has begun, the destructing thread runs no functor; its stack only destroys what it clears. |
| `AsyncInvoker.OwnerServesKept` | workspace/webrtc/rtc_base/async_invoker.cc:49-68 | Once destruction has begun, the destructing thread carries out no flush that another thread asked for. |
| `AsyncInvoker.WakerKept` | workspace/webrtc/rtc_base/async_invoker.cc:23-37 | While the destructor is clearing or waiting and the event is unset, every step leaves a closure whose death would set it, on another thread when the destructor waits. |
| `AsyncInvoker.WakerSurvives` | workspace/webrtc/rtc_base/async_invoker.cc:30-37 | A closure posted to the waiting thread's own queue, which nobody will clear, is not the waker: its caller is still there. |
| `AsyncInvoker.StepKeepsInv` | workspace/webrtc/rtc_base/async_invoker.cc:18-122 | Every enabled step keeps the whole invariant. |
| `AsyncInvoker.ReachableInv` | workspace/webrtc/rtc_base/async_invoker.cc:18-122 | The invariant holds in every reachable state. |
| `AsyncInvoker.CounterIsLiveClosures` | workspace/webrtc/rtc_base/async_invoker.cc:104-113 | In every reachable state the counter is the number of closures alive. |
| `AsyncInvoker.WaitingHasWaker` | workspace/webrtc/rtc_base/async_invoker.cc:30-37 | In every reachable state, a destructor that waits on an unset event has a closure left on another thread. |
| `AsyncInvoker.OnlySetAfterReturn` | workspace/webrtc/rtc_base/async_invoker.cc:109-122 | After the destructor has returned, the only possible step is a closure setting the reference-counted event. |
| `AsyncInvoker.NothingTouchesReturnedInvoker` | workspace/webrtc/rtc_base/async_invoker.cc:23-47 | Over every run: when the destructor has returned, no closure is alive, the counter is zero, and nothing that follows reads or writes the invoker. |
| `AsyncInvoker.DestroyingArmsNothing` | workspace/webrtc/rtc_base/async_invoker.cc:78-85 | Over every run from the start of destruction, no closure becomes runnable that was not already: chains of invocations end. |
| `AsyncInvokerClosures.RunsOnTargetOnly` | workspace/webrtc/rtc_base/async_invoker.cc:74-102 | Over every run: a closure invoked for a thread is queued, taken and run on that thread and no other, whoever invokes it and whoever flushes. |
| `AsyncInvokerClosures.GoneMeansRun` | workspace/webrtc/rtc_base/async_invoker.cc:40-68 | Over every run in which nobody clears, refuses or destroys: a closure that is gone has run to its end. |
| `AsyncInvokerClosures.StartsOnce` | workspace/webrtc/rtc_base/async_invoker.cc:40-68 | Over every run: no closure is started twice. |
| `AsyncInvokerClosures.StartedByDispatch` | workspace/webrtc/rtc_base/async_invoker.cc:40-68 | Taking a message off a queue, by the loop or in a flush, starts its functor. |
| `AsyncInvokerClosures.FlushedIsTaken` | workspace/webrtc/rtc_base/async_invoker.cc:62-67 | A flush takes its messages off the queue to the stack of their thread. |
| `AsyncInvokerClosures.ClearedNeverRuns` | workspace/webrtc/rtc_base/async_invoker.cc:23-37 | Over every run: what Clear or the destructor has cleared, or a thread refused, never runs. |
| `AsyncInvokerClosures.QueuesClearedFirst` | workspace/webrtc/rtc_base/async_invoker.cc:23-30 | Over every run: a message that is queued when destruction begins is off its queue before the destructor first looks at the counter. |
| `AsyncInvokerStacks.StepKeepsStacks` | workspace/webrtc/rtc_base/async_invoker.cc:49-68 | Every step keeps one active frame at each depth of a stack, and every functor that waits for another thread on top of its stack. |
| `AsyncInvokerStacks.RunKeepsStacks` | workspace/webrtc/rtc_base/async_invoker.cc:49-68 | So does every run. |
| `AsyncInvokerMeasure.StepLowers` | workspace/webrtc/rtc_base/async_invoker.cc:23-122 | Every step of a destruction, of any thread, other than a functor's new call on the invoker lowers a measure of the work left; each turn of the destructor's loop uses up an event. |
| `AsyncInvokerProgress.NoEndlessRun` | workspace/webrtc/rtc_base/async_invoker.cc:23-38 | So no schedule of a destruction goes on forever without new calls. |
| `AsyncInvokerProgress.TopOfStack` | workspace/webrtc/rtc_base/async_invoker.cc:49-68 | Every non-empty stack has a closure on top, with the messages still to be run below it. |
| `AsyncInvokerProgress.SomeWaiterIsNext` | workspace/webrtc/rtc_base/async_invoker.cc:55-60 | If every busy thread has a functor that waits and they are not deadlocked, one of them waits for a thread that runs nothing. |
| `AsyncInvokerProgress.SomeStep` | workspace/webrtc/rtc_base/async_invoker.cc:23-38 | In every state of a destruction that satisfies the invariants, without a deadlock and not finished, some step is possible. |
| `AsyncInvokerProgress.DeadlockIsForever` | workspace/webrtc/rtc_base/thread.cc:887-967 | Functors that wait only for the destructing thread and for one another wait forever, and the destructor with them, whatever else happens. |
| `AsyncInvokerProgress.DestructorCanReturnIff` | workspace/webrtc/rtc_base/async_invoker.cc:23-60 | In every reachable state after destruction has begun, some schedule lets the destructor return if and only if there is no such deadlock. |
| `AsyncInvokerProgress.RestMeansReturned` | workspace/webrtc/rtc_base/async_invoker.cc:23-38 | Without a deadlock, however the destruction goes on, it comes to rest only with the destructor returned. |
| `AsyncInvokerProgress.DeadlockedIffOwnerAwaited` | workspace/webrtc/rtc_base/thread.cc:912-918 | Without a cycle of waiting threads, which Thread::Send asserts, there is a deadlock if and only if some functor is in a flush of the destructing thread. |
| `AsyncInvokerProgress.DeadlockIsReachable` | workspace/webrtc/rtc_base/async_invoker.cc:49-60 | A deadlock is reached from the start: a functor sees the flag unset in a flush of the owner's thread, destruction begins, and the functor sends its request. |
| `BitMath.ValConcat` | workspace/webrtc/rtc_base/bit_buffer.cc:129-139 | Bits are read most significant first: what stands in front weighs more. |
| `BitBuffers.LowMaskIsPow2Minus1` | workspace/webrtc/rtc_base/bit_buffer.cc:21-24 | The mask has the value 2^count - 1. |
| `BitBuffers.LowestBitsKept` | workspace/webrtc/rtc_base/bit_buffer.cc:21-24 | The result is the low bits and nothing else. |
| `BitBuffers.HighestBitsKept` | workspace/webrtc/rtc_base/bit_buffer.cc:28-33 | The result is the high bits, moved down. |
| `BitBuffers.HighestByteKept` | workspace/webrtc/rtc_base/bit_buffer.cc:36-38 | The result is the top eight bits. |
| `BitBuffers.WritePartialByteWrites` | workspace/webrtc/rtc_base/bit_buffer.cc:43-60 | Exactly the bits at the target offset change, to the top bits of the source, provided the source has no other bits set that would reach the byte. |
| `BitBuffers.CountBits` | workspace/webrtc/rtc_base/bit_buffer.cc:63-70 | The loop computes the bit length. |
| `BitBuffers.ReadFromReads` | workspace/webrtc/rtc_base/bit_buffer.cc:129-139 | The byte-wise shift-and-or loop collects the bits of the stream in order. |
| `BitBuffers.PeekReads` | workspace/webrtc/rtc_base/bit_buffer.cc:118-140 | At every offset and for every width up to 32, masks and shifts yield the bits of the stream at the position. |
| `BitBuffers.BitBuffer.constructor` | workspace/webrtc/rtc_base/bit_buffer.cc:76-80 | A buffer starts at bit 0. |
| `BitBuffers.BitBuffer.PeekBits` | workspace/webrtc/rtc_base/bit_buffer.cc:110-142 | Succeeds exactly if the bits are there and at most 32, and gives the number they spell. |
| `BitBuffers.BitBuffer.PeekWord` | workspace/webrtc/rtc_base/bit_buffer.cc:118-140 | The loop on machine words computes Peek. |
| `BitBuffers.BitBuffer.ConsumeBits` | workspace/webrtc/rtc_base/bit_buffer.cc:152-160 | Moves exactly that many bits on, or not at all if they are not there. |
| `BitBuffers.BitBuffer.ReadBits` | workspace/webrtc/rtc_base/bit_buffer.cc:144-146 | Peek and consume: on failure the position stays. |
| `BitBuffers.BitBuffer.Seek` | workspace/webrtc/rtc_base/bit_buffer.cc:244-252 | Succeeds exactly for positions within the buffer; else nothing changes. |
| `BitBuffers.WriteFromSplices` | workspace/webrtc/rtc_base/bit_buffer.cc:298-308 | Writing whole bytes and a last partial one replaces exactly those bits of the stream. |
| `BitBuffers.WriteSplices` | workspace/webrtc/rtc_base/bit_buffer.cc:273-308 | A write replaces exactly the bits at the position and keeps every other bit of the buffer. |
| `BitBuffers.BitBuffer.WriteBits` | workspace/webrtc/rtc_base/bit_buffer.cc:269-312 | Succeeds exactly if there is room; then the bits of the value replace those at the position, and the position moves on; else nothing changes. |
| `BitBuffers.BitBuffer.WriteWord` | workspace/webrtc/rtc_base/bit_buffer.cc:276-308 | The loop on machine words computes Write. |
| `BitBuffers.BitBuffer.ReadNonSymmetric` | workspace/webrtc/rtc_base/bit_buffer.cc:162-189 | Succeeds exactly if the bits start with a codeword, and then gives its value and length; says where a failed read leaves the position. |
| `BitBuffers.BitBuffer.SkipZeros` | workspace/webrtc/rtc_base/bit_buffer.cc:200-206 | Consumes exactly the leading zeros. |
| `BitBuffers.BitBuffer.ReadExponentialGolomb` | workspace/webrtc/rtc_base/bit_buffer.cc:191-221 | Succeeds exactly if the bits decode; a failed parse restores the position. |
| `BitBuffers.BitBuffer.ReadSignedExponentialGolomb` | workspace/webrtc/rtc_base/bit_buffer.cc:223-234 | Likewise for the signed code. |
| `BitBuffers.BitBuffer.WriteNonSymmetric` | workspace/webrtc/rtc_base/bit_buffer.cc:314-328 | Writes exactly the codeword if it fits; else changes nothing. |
| `BitBuffers.BitBuffer.WriteExponentialGolomb` | workspace/webrtc/rtc_base/bit_buffer.cc:340-352 | Writes exactly the codeword if it fits; refuses 2^32 - 1. |
| `BitBuffers.BitBuffer.WriteSignedExponentialGolomb` | workspace/webrtc/rtc_base/bit_buffer.cc:354-366 | Likewise for the signed code; refuses -2^31. |
| `BitBuffers.SizeNonSymmetricBits` | workspace/webrtc/rtc_base/bit_buffer.cc:330-338 | The size announced is the length of the codeword written. |
| `BitCodes.DecodeEncodeUe` | workspace/webrtc/rtc_base/bit_buffer.cc:191-221 | Unsigned Exp-Golomb: decoding inverts encoding for every value below 2^32 - 1, whatever bits follow. |
| `BitCodes.EncodeDecodeUe` | workspace/webrtc/rtc_base/bit_buffer.cc:340-352 | The bits a successful decode consumes are the codeword of the value. |
| `BitCodes.DecodesIffCodewordUe` | workspace/webrtc/rtc_base/bit_buffer.cc:191-221 | Decoding succeeds on exactly the bit strings that start with a codeword. |
| `BitCodes.UeCodeword` | workspace/webrtc/rtc_base/bit_buffer.cc:340-352 | The codeword of v is v + 1 in binary, below one zero less than it has bits (section 9.1 of ITU-T H.264). |
| `BitCodes.DecodeEncodeSe` | workspace/webrtc/rtc_base/bit_buffer.cc:223-234 | Signed Exp-Golomb: decoding inverts encoding for every value above -2^31. |
| `BitCodes.EncodeDecodeSe` | workspace/webrtc/rtc_base/bit_buffer.cc:354-366 | What decodes is in range, never -2^31, and came from exactly its codeword. |
| `BitCodes.SeOrder` | workspace/webrtc/rtc_base/bit_buffer.cc:354-366 | Signed values are numbered 0, 1, -1, 2, -2 and so on (section 9.1.1 of ITU-T H.264). |
| `BitCodes.DecodeEncodeNs` | workspace/webrtc/rtc_base/bit_buffer.cc:162-189 | Non-symmetric code: decoding inverts encoding for every value count below 2^31. |
| `BitCodes.EncodeDecodeNs` | workspace/webrtc/rtc_base/bit_buffer.cc:314-328 | Whatever bits decode give a value in range, from exactly its codeword. |
| `BitCodes.NsPrefixFree` | workspace/webrtc/rtc_base/bit_buffer.cc:314-328 | No codeword is the start of another. |
| `BitCodes.NsCodeword` | workspace/webrtc/rtc_base/bit_buffer.cc:322-327 | With w bits in n, the first 2^w - n values have w - 1 bits and spell themselves; the others have w bits and are shifted by that number (section 4.10.7 of the AV1 bitstream specification). |
| `BitCodes.NsOrder` | workspace/webrtc/rtc_base/bit_buffer.cc:322-327 | Smaller values have the earlier codewords. |
| `BitFields.WriteAllSplices` | workspace/webrtc/rtc_base/bit_buffer.cc:269-366 | Fields written one after the other replace exactly the bits of their codewords joined. |
| `BitFields.ReadAllInverts` | workspace/webrtc/rtc_base/bit_buffer.cc:110-234 | Reading the kinds in turn gives the values back and stops after the last codeword. |
| `BitFields.FieldsReadBack` | workspace/webrtc/rtc_base/bit_buffer.cc:110-366 | For every mixed list of fields, every bit offset and every old contents: what was written reads back, reader and writer end at the same bit, and no other bit of the buffer changed. |
| `BitFields.WriteField` | workspace/webrtc/rtc_base/bit_buffer.cc:269-366 | The writer's methods write what the round trip takes them to write. |
| `BitFields.ReadField` | workspace/webrtc/rtc_base/bit_buffer.cc:144-234 | The reader's methods read what the round trip takes them to read. |
| `BitFields.WriteThenRead` | workspace/webrtc/rtc_base/bit_buffer.cc:110-366 | The round trip on two buffers over the same bytes. |
| `RingBuffers.RingBuffer.constructor` | workspace/webrtc/common_audio/ring_buffer.c:54-86 | An empty queue over zeroed slots. |
| `RingBuffers.RingBuffer.AvailableRead` | workspace/webrtc/common_audio/ring_buffer.c:214-224 | The number of elements in the queue. |
| `RingBuffers.RingBuffer.AvailableWrite` | workspace/webrtc/common_audio/ring_buffer.c:226-232 | The number of free slots. |
| `RingBuffers.RingBuffer.GetBufferReadRegions` | workspace/webrtc/common_audio/ring_buffer.c:25-52 | The one or two regions, joined, are the next elements of the queue. |
| `RingBuffers.RingBuffer.Write` | workspace/webrtc/common_audio/ring_buffer.c:143-175 | Whatever the positions and the wrap flag, a write is the queue's write: as many elements as fit, behind the others, over the oldest slots. |
| `RingBuffers.RingBuffer.MoveReadPtr` | workspace/webrtc/common_audio/ring_buffer.c:177-212 | Moves are clamped to what can be read or taken back, and are the queue's moves; the `int` sum does not overflow. |
| `RingBuffers.RingBuffer.Read` | workspace/webrtc/common_audio/ring_buffer.c:98-141 | Returns the next elements and drops them: as a view into the buffer exactly if a view is asked for and they do not wrap around, else as a copy; nothing else changes, nor the copy area beyond them. |
| `RingBuffers.RingBuffer.Fetch` | workspace/webrtc/common_audio/ring_buffer.c:98-141 | The elements fetched before the read position moves. |
| `RingBuffers.WriteAppends` | workspace/webrtc/common_audio/ring_buffer.c:143-175 | A write appends to the contents. |
| `RingBuffers.MoveBackRestores` | workspace/webrtc/common_audio/ring_buffer.c:177-212 | Moving back after reading restores the queue exactly. |
| `RingBuffers.MoveTakesBack` | workspace/webrtc/common_audio/ring_buffer.c:177-212 | Moving back takes back as many elements as there are free slots for at most. |
| `RingBuffers.MoveDrops` | workspace/webrtc/common_audio/ring_buffer.c:177-212 | Moving forward drops as many elements as there are at most. |
| `RingBuffers.NothingLostOrReordered` | workspace/webrtc/common_audio/ring_buffer.c:98-175 | First in, first out over every run of writes and reads: what was there and what was accepted is what was read followed by what is left. |
| `RingBuffers.TapeIsHistory` | workspace/webrtc/common_audio/ring_buffer.c:98-212 | Over every run of writes, reads and moves back and forth: the slots are the last ones of the initial slots followed by everything accepted. |
| `RingBuffers.ContentsAreEndOfHistory` | workspace/webrtc/common_audio/ring_buffer.c:98-212 | And the contents are the end of that, so what is read, once or again, is a stretch of the elements in the order in which they were written. |
| `RingBuffers.Transact` | workspace/webrtc/common_audio/ring_buffer.c:98-212 | The ring itself computes such runs. |
| `RingBuffers.MoveNeverOverflowsIff` | workspace/webrtc/common_audio/ring_buffer.c:177-201 | Over all runs, the sum of position and distance stays within an `int` if and only if twice the number of elements does. |
| `RingBuffers.RegionsAreContents` | workspace/webrtc/common_audio/ring_buffer.c:25-52 | The regions, for every position and wrap flag, spell the contents. |
| `RingBuffers.TapeAfterWrite` | workspace/webrtc/common_audio/ring_buffer.c:143-175 | A write around the end of the buffer is an append on the unrolled tape. |
| `FirSpec.ConvAsWindow` | workspace/webrtc/common_audio/fir_filter_c.cc:34-48 | A window, oldest first, times the reversed kernel after any zero padding is the direct convolution with silence before the start. |
| `FirSpec.ConvStep` | workspace/webrtc/common_audio/fir_filter_c.cc:39-48 | Each coefficient adds its multiple of the signal, delayed by its place in the kernel. |
| `FirSpec.ImpulseResponse` | workspace/webrtc/common_audio/fir_filter_unittest.cc:40-75 | An impulse gives the kernel, from the impulse on, for every kernel and delay. |
| `FirSpec.ConvCommutes` | workspace/webrtc/common_audio/fir_filter_unittest.cc:191-206 | Kernel and signal can be exchanged. |
| `FirSpec.Causal` | workspace/webrtc/common_audio/fir_filter_c.cc:39-48 | An output does not depend on later samples. |
| `FirSpec.BlocksMakeNoDifference` | workspace/webrtc/common_audio/fir_filter_unittest.cc:107-151 | Outputs block by block, joined, are the direct convolution of the blocks joined. |
| `FirFilters.FirFilterC.constructor` | workspace/webrtc/common_audio/fir_filter_c.cc:23-32 | Coefficients reversed, state silent. |
| `FirFilters.FirFilterC.Convolve` | workspace/webrtc/common_audio/fir_filter_c.cc:39-48 | The two inner loops sum the products over state and input. |
| `FirFilters.FirFilterC.UpdateState` | workspace/webrtc/common_audio/fir_filter_c.cc:50-58 | For blocks shorter and longer than the state, the state is the end of the signal seen. |
| `FirFilters.FirFilterC.Filter` | workspace/webrtc/common_audio/fir_filter_c.cc:34-59 | The outputs are the convolution of the whole signal seen so far, at the samples of this block. |
| `FirFilters.FilterBlocks` | workspace/webrtc/common_audio/fir_filter_unittest.cc:107-151 | A fresh filter fed any list of blocks gives the direct convolution of the whole signal. |
| `FirFiltersSimd.HorizontalAddIsTotal` | workspace/webrtc/common_audio/fir_filter_sse.cc:74-75 | Each instruction set's way of adding up the lanes gives the sum of all lanes. |
| `FirFiltersSimd.VectorStep` | workspace/webrtc/common_audio/fir_filter_sse.cc:58-73 | One more vector multiply-add keeps the lanes' total equal to the sum of products so far. |
| `FirFiltersSimd.FirFilterSimd.constructor` | workspace/webrtc/common_audio/fir_filter_sse.cc:24-45 | The kernel reversed behind zero padding to whole vectors, silent state. |
| `FirFiltersSimd.FirFilterSimd.Convolve` | workspace/webrtc/common_audio/fir_filter_avx2.cc:58-81 | The lane-wise loop is the sum of all products. |
| `FirFiltersSimd.FirFilterSimd.Filter` | workspace/webrtc/common_audio/fir_filter_avx2.cc:50-86 | SSE2, AVX2 and NEON filters: the outputs are the convolution of the whole signal seen so far, at the samples of this block, for every kernel. |
| `FirFiltersSimd.FilterBlocksSimd` | workspace/webrtc/common_audio/fir_filter_unittest.cc:107-151 | Likewise over any list of blocks. |
| `FirFiltersSimd.AllFiltersAgree` | workspace/webrtc/common_audio/fir_filter_factory.cc:27-56 | Whichever filter is chosen and however either's input is split, one signal and one kernel give one output. |
| `WavHeader.Get32Le32` | workspace/webrtc/common_audio/wav_header.cc:28-110 | Little-endian fields read back what was stored, modulo their width. |
| `WavHeaderProofs.FindSkips` | workspace/webrtc/common_audio/wav_header.cc:167-181 | The search for a chunk passes over every list of other chunks. |
| `WavHeaderProofs.ReadsLayout` | workspace/webrtc/common_audio/wav_header.cc:373-437 | What the reader makes of a file with any chunks before "fmt " and between "fmt " and "data": the verdict on exactly those fields. |
| `WavHeaderProofs.InsertedChunksAreIgnored` | workspace/webrtc/common_audio/wav_header.cc:163-181 | Inserting unknown chunks changes nothing but where the data starts. |
| `WavHeaderProofs.FmtReadsBack` | workspace/webrtc/common_audio/wav_header.cc:183-201 | The "fmt " fields read back. |
| `WavHeaderProofs.WriterMakesLayout` | workspace/webrtc/common_audio/wav_header.cc:203-268 | For every accepted parameter set the writer lays out the chunks in order, in exactly the announced header size. |
| `WavHeaderProofs.ReadsWrittenHeader` | workspace/webrtc/common_audio/wav_header.cc:351-437 | Round trip: for every accepted parameter set, PCM and float, reading the written header gives the parameters back and the position of the data, whatever follows. |
| `WavHeaderProofs.RiffSizeExactIff` | workspace/webrtc/common_audio/wav_header.cc:149-152 | The RIFF size field is exact if and only if the sum fits 32 bits; for float files the parameter check lets some through that do not. |
| `WavHeaderBytes.AcceptedIff` | workspace/webrtc/common_audio/wav_header.cc:285-349 | The parameters that are accepted, in numbers. |
| `WavHeaderBytes.PcmHeaderIs` | workspace/webrtc/common_audio/wav_header.cc:203-232 | Each field of the 44 bytes of a PCM header, at its offset: sizes, channels, rate, bytes per second as the product, block size and so on. |
| `WavHeaderBytes.FloatHeaderIs` | workspace/webrtc/common_audio/wav_header.cc:234-268 | Likewise for the 58 bytes of a float header, with its empty extension and its "fact" chunk. |
| `WavHeaderBytes.FmtReadAs` | workspace/webrtc/common_audio/wav_header.cc:183-201 | The "fmt " fields, as the bytes of the chunk spell them. |
| `WavHeaderBytes.JudgeIff` | workspace/webrtc/common_audio/wav_header.cc:408-436 | The reader accepts a file if and only if its fields fit together, with the products written out, and then returns exactly those fields. |
| `WavHeaderBytes.WrongTagsRejected` | workspace/webrtc/common_audio/wav_header.cc:383-391 | A file without the RIFF and WAVE tags is invalid. |
| `WavHeaderBytes.OtherFmtRejected` | workspace/webrtc/common_audio/wav_header.cc:183-201 | So is one whose "fmt " chunk is neither 16 bytes nor 18 with an empty extension, |
| `WavHeaderBytes.MissingFmtRejected` | workspace/webrtc/common_audio/wav_header.cc:167-181 | one without a "fmt " chunk, |
| `WavHeaderBytes.MissingDataRejected` | workspace/webrtc/common_audio/wav_header.cc:167-181 | and one without a "data" chunk behind it. |
| `WavFiles.FindWaveChunk` | workspace/webrtc/common_audio/wav_header.cc:167-181 | The loop over chunks computes the search, and ends on every file. |
| `WavFiles.ReadFmtChunkData` | workspace/webrtc/common_audio/wav_header.cc:183-201 | Succeeds exactly for 16 bytes, or 18 with an empty extension, and leaves the file behind them. |
| `WavFiles.ReadWavHeader` | workspace/webrtc/common_audio/wav_header.cc:373-437 | The reader computes ReadHeader on every byte sequence and leaves the file at the data. |
| `WavFiles.SamplesOfPayload` | workspace/webrtc/common_audio/wav_file.cc:215-243 | Samples read back from their bytes. |
| `WavFiles.PayloadBytes` | workspace/webrtc/common_audio/wav_file.cc:215-243 | Samples are stored low byte first, negative ones in two's complement. |
| `WavFiles.WavWriter.constructor` | workspace/webrtc/common_audio/wav_file.cc:192-213 | A blank header of the right size. |
| `WavFiles.WavWriter.WriteSamples` | workspace/webrtc/common_audio/wav_file.cc:215-243 | In chunks of 4096, all samples are appended in order and counted. |
| `WavFiles.WavWriter.Close` | workspace/webrtc/common_audio/wav_file.cc:280-288 | The header replaces the placeholder and nothing of the payload. |
| `WavFiles.WavReader.constructor` | workspace/webrtc/common_audio/wav_file.cc:71-82 | The reader stands at the data with all samples unread. |
| `WavFiles.WavReader.Reset` | workspace/webrtc/common_audio/wav_file.cc:84-88 | Back to the first sample. |
| `WavFiles.WavReader.ReadSamples` | workspace/webrtc/common_audio/wav_file.cc:90-129 | Returns the next samples, as many as are asked for and left, and never a byte past the payload. |
| `WavFiles.ReaderSeesWrittenSamples` | workspace/webrtc/common_audio/wav_file.cc:90-288 | Round trip of a file: what was written is what the header announces and what is there to read, whatever follows the payload. |
| `WavFiles.RequestsMakeNoDifference` | workspace/webrtc/common_audio/wav_file.cc:90-129 | In whatever amounts samples are asked for, together they are the payload up to that point, and stop at its end. |
| `WavFiles.WriteBatches` | workspace/webrtc/common_audio/wav_file.cc:215-243 | Batches are written one behind the other. |
| `WavFiles.ReadRequests` | workspace/webrtc/common_audio/wav_file.cc:90-129 | The reader itself computes ReadInTurn. |
| `WavFiles.WriteThenRead` | workspace/webrtc/common_audio/wav_file.cc:71-288 | Round trip on the objects: in whatever batches a file is written, whatever is appended to it and in whatever requests it is read, the samples come back in order up to the number asked for, and again after a reset. |
| `WavFiles.ReadLoopEndsIff` | workspace/webrtc/common_audio/wav_file.cc:96-126 | On a payload cut short, the read loop ends if and only if the file holds all samples it is to return; else it fails a check or goes round forever, because a read of no samples at the end of the file passes both checks. |
| `ChannelBuffers.BandsDisjoint` | workspace/webrtc/common_audio/channel_buffer.h:66-77 | No sample belongs to two bands or two channels. |
| `ChannelBuffers.CoveredIff` | workspace/webrtc/common_audio/channel_buffer.h:66-77 | A frame belongs to a band exactly if it is before the remainder of the division into bands. |
| `ChannelBuffers.BandsCoverBlockIff` | workspace/webrtc/common_audio/channel_buffer.h:26-50 | The bands make up the whole block if and only if their number divides the number of frames. |
| `ChannelBuffers.ChannelBuffer.constructor` | workspace/webrtc/common_audio/channel_buffer.h:45-78 | Both pointer tables, band-major and channel-major, point at the same parts of the zeroed block. |
| `ChannelBuffers.ChannelBuffer.Connect` | workspace/webrtc/common_audio/channel_buffer.h:66-77 | The nested loops set every entry of both tables. |
| `ChannelBuffers.ChannelBuffer.ChannelStart` | workspace/webrtc/common_audio/channel_buffer.h:93-96 | Through the table, a channel is the stretch of full-band samples at its place in the block. |
| `ChannelBuffers.ChannelBuffer.BandStart` | workspace/webrtc/common_audio/channel_buffer.h:115-119 | Through the other table, a band of a channel starts at its place in the block. |
| `ChannelBuffers.ChannelBuffer.SetNumChannels` | workspace/webrtc/common_audio/channel_buffer.h:151-154 | Only the number of visible channels changes. |
| `IFChannelBuffers.NearestS16` | workspace/webrtc/common_audio/include/audio_util.h:41-45 | The conversion gives the nearest int16, halves away from zero, for every number. |
| `IFChannelBuffers.SameNumbers` | workspace/webrtc/common_audio/channel_buffer.cc:58-62 | A sample is the same number in both buffers. |
| `IFChannelBuffers.ShortsOfFloats` | workspace/webrtc/common_audio/audio_util.cc:30-38 | Going to floats and back loses nothing. |
| `IFChannelBuffers.IFChannelBuffer.ViewsAgree` | workspace/webrtc/common_audio/channel_buffer.h:176-181 | In every valid state the int16 view is the conversion of the float view. |
| `IFChannelBuffers.IFChannelBuffer.constructor` | workspace/webrtc/common_audio/channel_buffer.cc:20-26 | Both buffers silent and in step. |
| `IFChannelBuffers.IFChannelBuffer.RefreshF` | workspace/webrtc/common_audio/channel_buffer.cc:52-65 | Refreshing changes neither view, and no sample beyond the visible channels. |
| `IFChannelBuffers.IFChannelBuffer.RefreshI` | workspace/webrtc/common_audio/channel_buffer.cc:67-78 | Likewise in the other direction. |
| `IFChannelBuffers.IFChannelBuffer.IBuf` | workspace/webrtc/common_audio/channel_buffer.cc:30-34 | Write access shows the current sound, and the floats then follow from it. |
| `IFChannelBuffers.IFChannelBuffer.FBuf` | workspace/webrtc/common_audio/channel_buffer.cc:36-40 | Likewise for the floats. |
| `IFChannelBuffers.IFChannelBuffer.IBufConst` | workspace/webrtc/common_audio/channel_buffer.cc:42-45 | Read access shows the current sound and changes neither view. |
| `IFChannelBuffers.IFChannelBuffer.FBufConst` | workspace/webrtc/common_audio/channel_buffer.cc:47-50 | Likewise for the floats. |
| `IFChannelBuffers.IFChannelBuffer.SetNumChannels` | workspace/webrtc/common_audio/channel_buffer.h:197-200 | Narrowing keeps the sound of the channels that stay and the buffers in step; widening keeps them in step while only one is valid. |
| `IFChannelBuffers.WideningShowsStaleSamples` | workspace/webrtc/common_audio/channel_buffer.h:197-200 | Otherwise widening does not: for any two channel counts some run ends with both buffers marked valid and showing different sounds. |
| `RtpExtensions.FindHeaderExtensionByUri` | workspace/webrtc/api/rtp_parameters.cc:195-204 | The first entry with the URI, if there is one. |
| `RtpExtensions.FilterDuplicateNonEncrypted` | workspace/webrtc/api/rtp_parameters.cc:206-231 | The loop keeps exactly the entries that Kept names, in their order. |
| `RtpExtensions.FoundAmongFilteredIff` | workspace/webrtc/api/rtp_parameters.cc:225-229 | Looking through the entries kept so far is as good as looking for an earlier encrypted one. |
| `RtpExtensions.KeptIff` | workspace/webrtc/api/rtp_parameters.cc:206-231 | Every encrypted entry stays; a non-encrypted one stays if and only if its URI has no encrypted entry anywhere and it is the last of its URI. |
| `RtpExtensions.EncryptedAllStay` | workspace/webrtc/api/rtp_parameters.cc:211-214 | The encrypted entries of the result are those of the input, in the same order. |
| `RtpExtensions.OrderStays` | workspace/webrtc/api/rtp_parameters.cc:206-231 | Entries of the result stand in the order of the input. |
| `RtpExtensions.EveryUriStays` | workspace/webrtc/api/rtp_parameters.cc:206-231 | No URI is lost. |
| `RtpExtensions.SharedUriEncrypted` | workspace/webrtc/api/rtp_parameters.cc:206-231 | Entries that still share a URI are all encrypted. |
| `RtpExtensions.FilteredIdempotent` | workspace/webrtc/api/rtp_parameters.cc:206-231 | Filtering twice is filtering once. |

## Left out

- TcpLink.DeliveredIsPrefixOfSent: runs send no packet of 65536 to 65538 bytes and write nothing after a torn frame; FrameFaithfulIffLengthFits and NextPacketSafeIffNotTorn say exactly when going on is safe.
- TcpSocket.AsyncTcpSocket.Send: the packet id, time stamp and size information of the signal are not modelled.
- TcpSocket.AsyncTcpSocket.AppendToOutBuffer: does not model the debug check against the maximal size, which a packet of 65537 or 65538 bytes violates.
- Listening sockets, accepting, connecting, closing, addresses and socket options.
- AsyncInvoker.StepKeepsInv: atomic accesses are sequentially consistent, so the memory orders are not part of what is proved; message ids, delays, threads that quit or are destroyed, and the debug checks of Thread::Send are not modelled.
- AsyncInvoker.NothingTouchesReturnedInvoker: the destructor does not start inside a functor or while a call from outside a functor is under way, as `rtc_base/async_invoker.h` demands of the owner.
- AsyncInvokerProgress.RestMeansReturned: that every thread is scheduled and every functor's own code ends is assumed of the schedule, as is that functors stop making new calls.
- BitBuffers.BitBuffer.PeekBits: null out-pointers, and reads of zero bits, which the code asserts against.
- BitBuffers.BitBuffer.WriteBits: writes of zero bits and of more than 64, for which the code's shift is undefined; a failed write of more than 64 bits is modelled.
- BitBuffers.BitBuffer.ReadNonSymmetric: 2^31 values, which the assertion admits and for which the code shifts a 32-bit word by 32.
- BitBuffers.BitBuffer.WriteNonSymmetric: likewise.
- RingBuffers.RingBuffer.MoveReadPtr: calls whose `int` sum overflows, see MoveNeverOverflowsIff; elements are values, so element sizes, allocation failures and null handles are not modelled.
- FirFilters.FirFilterC.Filter: sums are exact, so rounding and the order of additions are not modelled; kernels and blocks are not empty, as the factory and the callers have it; alignment is not modelled, and input and output do not overlap.
- FirFiltersSimd.FirFilterSimd.Filter: likewise; a fused multiply-add is a product and a sum.
- WavFiles.WavReader.ReadSamples: only for a file that holds the samples to return, see ReadLoopEndsIff; float samples and conversions between formats are left out, and 16-bit samples are read whatever width the header gives, as in the code.
- WavFiles.WavWriter.WriteSamples: 16-bit samples into PCM files; the conversions to and from float samples are left out.
- WavFiles.WavWriter.Close: write errors and the overflow check on the sample counter.
- IFChannelBuffers.NearestS16: on reals, without NaN.
- `Slice` and the array views of ChannelBuffer, which repeat what the tables say.
- Audio conversion, resampling and smoothing, windows and FFTs, the other parts of `rtc_base`, and the interfaces in `api/`.
- The parser of RTP extension URIs and the string forms of RTP parameters.
