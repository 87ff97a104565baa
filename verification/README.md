# SiDAQ-API: receive pipeline and RBCP client

A Dafny model of the parts of SiDAQ-API that move bytes, and proofs about them. Data from a SiTCP device
arrives on a TCP socket in arbitrary chunks. The socket thread puts the chunks on a receive queue, the framer
thread cuts the stream into frames and puts those on an event queue, and the application takes them from there.
Beside this runs RBCP, a request and reply protocol over UDP.

| file | what it models |
|---|---|
| `Bytes.dfy` | bytes, 32-bit conversions, concatenation |
| `FramerSpec.dfy` | one call of `RecvSiDaqData` as a function on values |
| `FramerCalls.dfy` | what every call and every run of calls keeps |
| `Chunking.dfy` | framing against a parser that sees the whole stream |
| `SQueue.dfy` | the doubly linked queue on the heap |
| `SidaqFramer.dfy` | the framer object, its work buffer updated in place |
| `LengthFunctions.dfy` | the C++ and the C# frame length function |
| `PseudoDevice.dfy` | the pseudo device's data generator |
| `EndToEnd.dfy` | device to frames through arbitrary chunks |
| `QueueConcurrency.dfy` | the queue under any number of putters and getters |
| `Pipeline.dfy` | socket thread, framer thread, API caller and application as a transition system |
| `PipelineSafety.dfy` | alignment, conservation, drain, receive limit over every interleaving |
| `PipelineFrames.dfy` | the frames of a run over every interleaving |
| `PipelineStatus.dfy` | error latch, termination, last status over every interleaving |
| `PipelineDrain.dfy` | when the end of a run leaves received data behind |
| `PipelineReset.dfy` | what resets and leftover data put at risk, and exactly when |
| `SiDaqManager.dfy` | the manager's operations on real queues and framer |
| `Rbcp.dfy` | the RBCP client and its packet buffer |
| `RbcpNetwork.dfy` | which reply a request gets, over whole runs |

`dafny verify dfyconfig.toml` checks everything.

## What the framer relies on

`FramerSpec.Valid` says what the code needs and what each call keeps. The maximum frame length is at most the
262144 bytes of the work buffer, which `SiDaqRun` does not enforce (`FramerCalls.CopiesInsideIff` and
`FramerCalls.ParkingKeepsAllIff` say what it is good for), and more than the header length, which it does. The length function looks only at the header once the header is complete. The byte copied from behind a
chunk that ends with a frame is never used; `RecvSiDaqData` takes it as a parameter no promise mentions.

`eventLen + headerLen` is compared with the limit as an unbounded sum. The code adds two `int`s and compares as
`UINT`; with an `int` event length and a header below 262144 the unsigned reading of the sum is the same number.

## What the transition system assumes

A locked queue operation is one step. So is a check-and-set of the status, and raising the error flag together
with SYS_ERROR. Raising an error and closing the socket are two steps, in the framer thread and in the socket
thread. Queue locks do not time out in the framer thread. `SiDaqRun` is called when the previous framer
and socket threads have ended, and the status is RUN before the new framer thread tests it. The socket may
close, and chunks of any content arrive, at any time the socket thread lives.

A run begins only when the framer is valid in its new mode (`Enabled`, `RunOk`): the maximum frame length is at
most the work buffer and more than the header length, the length function looks only at the header, and
bytes left parked by an earlier run begin a longer frame of the new mode. The code checks only the header
length. Bytes can be left parked only after a reset (`PipelineReset.NeverParkedIff`); what the code does with ones
that do not fit is `FramerCalls.OffsetNegativeUnlessFits`, and that they can come up is `PipelineReset.TenBytesLeft`.

A caller's resets are described by a policy: the pairs of status and "framer thread alive" in which a reset may
begin. `ResetsWithin` says that a run keeps to it.

## Where code and documentation differ

The model follows the code.

- A length function with a header length takes priority over a fixed frame length (README.md:113-114 says the
  opposite); `EndToEnd.RoundTrip` holds whatever fixed length is given.
- A NULL length function passes data through only when the header length is 0 (README.md:109 says always);
  `FramerCalls.PassThroughIffNoHeader` is exact.
- Headers of three or more bytes cut behind their second byte lose bytes; `Chunking.ExactIffShortHeader`.
- Stopping does not always frame all data received (README.md:38): a chunk put after the framer thread's last look at
  the receive queue stays there. `PipelineDrain.DrainsIff` and `PipelineDrain.StopDrainsIff` say exactly when.
- A run begun with such a chunk queued, or with bytes parked, frames it with its own bytes;
  `PipelineReset.AlignedIff`.
- An error of the receive queue can be missed at the end of a run (README.md:119-120 says SYS_ERROR always);
  `PipelineStatus.FinalStatus`, `PipelineDrain.QueueErrorMissed`.
- The event queue limit strikes when the count reaches it, not when it exceeds it (README.md:122).
- A negative wait does not wait for data (README.md:146): an empty queue is answered at once.
- A reset while the framer thread lives leaves the parked bytes to the next run, and one begun in STOPPING can
  hide an error; `PipelineReset.NeverParkedIff` and `PipelineReset.LatchIff` say exactly when.

## Model

| member | source | states |
|---|---|---|
| FramerSpec.FrameOutgrowsParked | SiDaqApi/sidaq_framer.cpp:107-131 | a parked remainder never exceeds the frame it begins, so the offset into the new chunk is not negative, and is positive while framing |
| FramerSpec.PhaseOne | SiDaqApi/sidaq_framer.cpp:66-138 | the first phase keeps the framer valid and uses no more of the chunk than there is |
| FramerSpec.Loop | SiDaqApi/sidaq_framer.cpp:140-204 | the second phase ends for every length function and keeps the framer valid |
| FramerSpec.Recv | SiDaqApi/sidaq_framer.cpp:55-205 | every call keeps the framer valid: remainder shorter than its own frame and than the maximum, mode unchanged or null |
| FramerSpec.ShortHeaderKeepsBuffer | SiDaqApi/sidaq_framer.cpp:142-147 | saving a cut header changes the first byte of the work buffer and no other |
| FramerCalls.RecvAccounts | SiDaqApi/sidaq_framer.cpp:55-205 | frames and remainder are the old remainder and the chunk, byte for byte; only giving up on the queue limit drops bytes |
| FramerCalls.RunAccounts | SiDaqApi/SiDaqApi.cpp:166-175 | over any sequence of chunks: every byte in order with short headers and no limit, as many bytes with longer ones, at most as many under a limit |
| FramerCalls.RecvFrames | SiDaqApi/sidaq_framer.cpp:107-119 | frames are non-empty and within the maximum unless an error code is set, the return value counts them, errors never clear, and no codes but those of the queue limit and of a bad length are set |
| FramerCalls.ParkingTakesWholeChunk | SiDaqApi/sidaq_framer.cpp:67-77 | a frame that stays incomplete after the first phase has taken the whole chunk |
| FramerCalls.OffsetNegativeUnlessFits | SiDaqApi/sidaq_framer.cpp:121-124 | bytes parked under another mode: the offset into the chunk is not negative, whatever the chunk, if and only if they are no longer than the frame they begin in the new mode |
| FramerCalls.CopiesInsideIff | SiDaqApi/sidaq_framer.cpp:196-201 | parking a chunk stays inside the work buffer, for every mode and chunk, if and only if the maximum frame length is at most one more than the buffer |
| FramerCalls.ParkingKeepsAllIff | SiDaqApi/sidaq_framer.cpp:67-77 | parking behind a parked frame drops no byte, for every mode and chunk, if and only if the maximum is at most the buffer |
| FramerCalls.PassThroughIffNoHeader | SiDaqApi/sidaq_framer.cpp:78-86 | without length function and fixed length every chunk is a frame if and only if the header length is 0 |
| FramerCalls.RecvFallsBack | SiDaqApi/sidaq_framer.cpp:87-105 | a length error in either phase leaves the null framer with nothing parked |
| FramerCalls.FallbackEchoes | SiDaqApi/sidaq_framer.cpp:156-195 | in the null framer a chunk is one frame, verbatim, oversize or not |
| FramerCalls.FallbackForever | SiDaqApi/sidaq_framer.cpp:160-177 | the fallback is absorbing for the rest of the run |
| FramerCalls.RunFallsBack | SiDaqApi/SiDaqApi.cpp:191-199 | over a whole run a length error implies the null framer and the error code stays |
| FramerCalls.LimitedIsPrefix | SiDaqApi/sidaq_framer.cpp:115-119 | a call under a frame-queue limit queues a prefix of what it would queue without, all of it unless it gives up, whatever consumers do |
| FramerCalls.LimitExact | SiDaqApi/sidaq_framer.cpp:115-119 | a call gives up exactly at its first put, but for the one that completes the parked frame, that fills the queue to the limit; if none does the limit changes nothing, if one does an error is set |
| FramerCalls.QueueStopsAtLimit | SiDaqApi/sidaq_framer.cpp:187-191 | whatever consumers take, no put of a call makes the queue longer than the limit, or than two more than at the start when that is more |
| Chunking.ParseResumes | SiDaqApi/sidaq_framer.cpp:196-201 | the reference parser can stop anywhere and go on from its remainder |
| Chunking.ParseCovers | SiDaqApi/sidaq_framer.cpp:140-201 | the reference parser's frames and remainder are the stream |
| Chunking.RecvMatches | SiDaqApi/sidaq_framer.cpp:55-205 | a call does to remainder and chunk what the parser does to them joined |
| Chunking.RunFollowsParser | SiDaqApi/sidaq_framer.cpp:55-205 | for every stream and cutting: the parser's frames up to the first bad length, then every byte still in order |
| Chunking.RecvCode | SiDaqApi/sidaq_framer.cpp:87-105 | which error a call sets: for bytes within the maximum GetFrameLengthFailed if and only if the length at the parser's first bad frame is negative, ExceedMaxFrameLength if and only if length and header exceed the maximum; and exactly for more bytes |
| Chunking.RunCode | SiDaqApi/SiDaqApi.cpp:166-199 | which error a whole run has set, for every stream and cutting |
| Chunking.ChunkingIndependent | SiDaqApi/sidaq_framer.cpp:66-202 | two cuttings of one stream give the same frames, remainder and error verdict |
| Chunking.LongHeadersBreak | SiDaqApi/sidaq_framer.cpp:142-147 | for every header length from three on, a stream and a cutting that change a byte |
| Chunking.ExactIffShortHeader | SiDaqApi/sidaq_framer.cpp:142-147 | framing is exact for every cutting of every good stream if and only if the header has at most two bytes |
| Chunking.FixedFrames | SiDaqApi/sidaq_framer.cpp:153-155 | fixed mode in closed form, a header length without length function added to the frame: frame i is bytes iF to (i+1)F, the remainder is the last bytes, fewer than F |
| SQueueModel.SQueue.constructor | SiDaqApi/squeue_c/squeue.cpp:101-109 | a new queue represents the empty sequence |
| SQueueModel.SQData.Delete | SiDaqApi/squeue_c/squeue.cpp:88-99 | a node is released exactly when it has data and no links |
| SQueueModel.SQueue.Link | SiDaqApi/squeue_c/squeue.cpp:176-189 | put appends; links, ends, parents and count stay right |
| SQueueModel.SQueue.Unlink | SiDaqApi/squeue_c/squeue.cpp:191-221 | get takes the head, detached, or nothing when empty or the lock times out |
| SQueueModel.SQueue.SQPut | SiDaqApi/squeue_c/squeue.cpp:228-235 | appends the bytes and reports the length |
| SQueueModel.SQueue.SQGet | SiDaqApi/squeue_c/squeue.cpp:245-273 | returns the first item; the node always meets the demand for releasing it; size -2 cannot come up without interference |
| SQueueModel.SQueue.SQDataNext | SiDaqApi/squeue_c/squeue.cpp:51-69 | steps from each node to the next in order, from the first, and ends |
| SQueueModel.SQueue.Walk | SiDaqApi/squeue_c/squeue.cpp:155-172 | following the links yields exactly the contents |
| SQueueModel.SQueue.Drain | SiDaqApi/squeue_c/squeue.cpp:111-124 | the delete loop takes everything, in order, and ends with the queue empty |
| SidaqFramer.SiDaqFramer.constructor | SiDaqApi/sidaq_framer.cpp:18-32 | a new framer is the fresh state |
| SidaqFramer.SiDaqFramer.Configure | SiDaqApi/SiDaqApi.cpp:556-563 | a run sets mode, limits and error state and keeps the parked bytes |
| SidaqFramer.SiDaqFramer.JudgeFrame | SiDaqApi/sidaq_framer.cpp:78-105 | the length decision of both phases |
| SidaqFramer.SiDaqFramer.CompleteParked | SiDaqApi/sidaq_framer.cpp:66-138 | the first phase in the work buffer does what the value model says |
| SidaqFramer.SiDaqFramer.FrameChunk | SiDaqApi/sidaq_framer.cpp:140-204 | the second-phase loop does what the value model says |
| SidaqFramer.SiDaqFramer.RecvSiDaqData | SiDaqApi/sidaq_framer.cpp:55-205 | the whole call, buffer, queue and return value, refines the value model |
| LengthFunctions.GetFrameLength | MfcSample/SiDaqMfcSampleDlg.cpp:210-230 | shifting and adding `int`s gives the header's big-endian value, -1 for a short or zero header |
| LengthFunctions.GetHeaderLengthFuncSample | CsSample/SiDaqConnect.cs:43-74 | reversing and reading little-endian gives the same value, for every header length |
| LengthFunctions.HeaderValueExact | MfcSample/SiDaqMfcSampleDlg.cpp:211-229 | the value is -1 for short data, the number of bytes without a header, the header's own exactly when that is positive and fits an `int`, and when exactly it is -1 or negative otherwise |
| LengthFunctions.BigEndianHead | MfcSample/SiDaqMfcSampleDlg.cpp:219-223 | the first header byte is the most significant |
| LengthFunctions.HeaderValueLastFour | CsSample/SiDaqConnect.cs:55-66 | a header of more than four bytes reads as its last four |
| LengthFunctions.HeaderValueDetermined | MfcSample/SiDaqMfcSampleDlg.cpp:210-230 | the samples' length function looks only at the header |
| PseudoDevice.LengthFits | Pseudo/SiDaqPseudo.py:67-67 | the test on bit length is the test that the length fits the header |
| PseudoDevice.ToBytes | Pseudo/SiDaqPseudo.py:68-68 | the header has the chosen length and its big-endian value is the data length |
| PseudoDevice.PayloadRecovered | Pseudo/SiDaqPseudo.py:66-69 | behind the header of an encoded frame stands the payload, and the header says how long it is |
| PseudoDevice.PseudoDataGenerator.constructor | Pseudo/SiDaqPseudo.py:38-58 | arguments are clamped and a header that is too short is dropped |
| PseudoDevice.PseudoDataGenerator.CheckHeaderLength | Pseudo/SiDaqPseudo.py:78-88 | the header length is kept if and only if the data length fits it |
| PseudoDevice.PseudoDataGenerator.CreateFixedPattern | Pseudo/SiDaqPseudo.py:60-70 | a unit is the header, if any, with the data length, then byte i is byte i mod 8 of 1F 3E 01 23 45 67 89 AB |
| EndToEnd.ParseEncoded | Pseudo/SiDaqPseudo.py:60-70 | parsing encoded payloads gives the encoded frames; it fails if and only if a payload is empty |
| EndToEnd.RoundTrip | SiDaqApi/sidaq_framer.cpp:55-205 | encoded payloads cut in any way come out as exactly those frames, without error or remainder, if and only if none is empty, and dropping the headers gives back the payloads |
| EndToEnd.DeviceRoundTrip | Pseudo/SiDaqPseudo.py:60-76 | the pseudo device's units arrive as one frame each, with the pattern as payload |
| QueueConcurrency.FifoHistory | SiDaqApi/squeue_c/squeue.cpp:176-221 | in a sequential history items taken, then those left, are the items put |
| QueueConcurrency.Linearizable | SiDaqApi/squeue_c/squeue.cpp:176-273 | every interleaving of putters and getters is a history of the sequential queue; every answer comes of one event of its getter between its call and its return, a timeout of none; every take is somebody's answer |
| QueueConcurrency.RealTimeOrder | SiDaqApi/squeue_c/squeue.cpp:245-273 | calls that follow one another in time take effect in that order |
| QueueConcurrency.InternalErrorIffOvertaken | SiDaqApi/squeue_c/squeue.cpp:253-272 | a getter that finds the queue empty behind its test answers -2 if and only if its wait is negative, and then another getter took an item since the test; size 0 otherwise |
| QueueConcurrency.SingleGetterNeverErrs | SiDaqApi/squeue_c/squeue.cpp:253-263 | with one getter size -2 does not occur |
| PipelineSafety.TidyOverRuns | SiDaqApi/SiDaqApi.cpp:166-253 | with no reset while a framer thread lives, in any mode and under any limits: the framer is valid and once the thread has left nothing is parked |
| PipelineSafety.Conservation | SiDaqApi/SiDaqApi.cpp:166-238 | from any state on, over every interleaving and any number of runs, no byte is lost, duplicated or reordered between socket and application until a reset frees some |
| PipelineSafety.ConservationFromStart | SiDaqApi/SiDaqApi.cpp:166-238 | from the start: everything received is in the pipeline or handed out, in order |
| PipelineSafety.BytesAccounted | SiDaqApi/SiDaqApi.cpp:693-731 | over every interleaving with any resets, headers and limits: bytes kept and bytes freed are never more than bytes received, and as many without a frame-queue limit |
| PipelineSafety.Drained | SiDaqApi/SiDaqApi.cpp:201-230 | when the thread leaves nothing is parked, the receive queue holds what was put after its last empty look, and all other bytes are out in order |
| PipelineSafety.ReceiveBound | SiDaqApi/sock_thread.cpp:82-103 | the receive queue never holds more than its limit and one; the byte count misses exactly the chunk not counted yet or that trips it |
| PipelineSafety.QueueErrorIff | SiDaqApi/sock_thread.cpp:92-100 | over every interleaving of a run the queue error goes up if and only if the limit is not 0 and the socket thread at a count finds more chunks queued than that |
| PipelineSafety.NeverOverNeverTrips | SiDaqApi/sock_thread.cpp:92-100 | a run whose receive queue never holds more than the limit never raises it |
| PipelineSafety.RunSettings | SiDaqApi/SiDaqApi.cpp:541-563 | until the next SiDaqRun a run works with the limits and the maximum given to the last, and in its mode unless it fell back |
| PipelineFrames.RunBegins | SiDaqApi/SiDaqApi.cpp:541-576 | a run begins with a valid framer and the bytes left parked at the start of a frame of its own, after any history, resets included |
| PipelineFrames.FramesOfRun | SiDaqApi/SiDaqApi.cpp:166-238 | over every interleaving the frames of a run are what a parser finds in what earlier runs left followed by what the device sends in it, and only the last flushed one may be incomplete |
| PipelineFrames.OwnFramesIffClean | SiDaqApi/SiDaqApi.cpp:166-238 | a run frames the bytes the device sends in it and no others, for every stream and interleaving, if and only if it begins with nothing parked and an empty receive queue |
| PipelineFrames.PipelineRoundTrip | SiDaqApi/SiDaqApi.cpp:166-238 | whatever encoded frames the device sends in a run, cut off anywhere, the application gets them in order, at most the last cut off at the end, all of them when all were sent and framed, if and only if the run begins with nothing parked and an empty receive queue |
| PipelineStatus.ErrorLatch | SiDaqApi/SiDaqApi.cpp:177-199 | from the step that raises the flag to the next SiDaqRun it stays up, the socket is closed but for the closing steps, and the error shows if and only if no reset begun in STOPPING has ended since |
| PipelineReset.LatchIff | SiDaqApi/SiDaqApi.cpp:695-729 | every error raised shows, over every run, if and only if no reset may begin in STOPPING |
| PipelineReset.ResetInStoppingHidesError | SiDaqApi/SiDaqApi.cpp:695-729 | how a reset begun in STOPPING hides an error, from any matching state |
| PipelineReset.ErrorCanEndIdle | SiDaqApi/SiDaqApi.cpp:693-731 | a run of the whole system that ends IDLE with the error flag up |
| PipelineStatus.NeverStuck | SiDaqApi/SiDaqApi.cpp:166-253 | in every reachable state a live framer thread can take its next step |
| PipelineStatus.FairRunsEnd | SiDaqApi/SiDaqApi.cpp:166-253 | with the socket closed for good, a framer thread that keeps getting its turn ends, whatever all others do, after at most one look at the queue per chunk left and one more |
| PipelineStatus.FinalStatus | SiDaqApi/SiDaqApi.cpp:177-249 | without a reset of the live thread it leaves only in STOPPING or with the socket closed; it ends in SYS_ERROR after every framer error, and after a queue error exactly unless that was not noticed with a chunk and the thread left by the stopping exit or the error came behind its look at the socket; in IDLE otherwise; and what else it can be after other resets |
| PipelineStatus.StopCloses | SiDaqApi/SiDaqApi.cpp:582-632 | after a stop in RUN or SYS_ERROR the socket is closed until the next run |
| PipelineStatus.SelectErrorUnnoticed | SiDaqApi/sock_thread.cpp:118-121 | a socket thread that ends on a select error leaves the socket open, and the run goes on in RUN until it is stopped |
| PipelineStatus.FailedRunShows | SiDaqApi/SiDaqApi.cpp:465-539 | a failed SiDaqRun leaves SYS_ERROR, and RESET apart only a successful one ends it |
| PipelineDrain.DrainsIff | SiDaqApi/SiDaqApi.cpp:166-238 | from a state of a run, by either exit, no chunk is left behind in any continuation if and only if no more can be put and the thread will look again or the queue is empty |
| PipelineDrain.StopDrainsIff | SiDaqApi/SiDaqApi.cpp:582-632 | stopping frames all data received, over every run, if and only if the caller stops only when the socket thread has ended and the receive queue is empty |
| PipelineDrain.StopLeavesChunk | SiDaqApi/SiDaqApi.cpp:582-593 | a stopped run that ends IDLE with a received chunk not framed |
| PipelineDrain.CloseLeavesChunk | SiDaqApi/SiDaqApi.cpp:211-230 | the same without a stop, when the device closes the socket behind the thread's last look |
| PipelineDrain.QueueErrorMissed | SiDaqApi/SiDaqApi.cpp:201-210 | a run that trips the receive limit and ends IDLE with the flag down |
| PipelineReset.NeverParkedIff | SiDaqApi/SiDaqApi.cpp:556-563 | every run begins with nothing parked, in any mode and under any limits, if and only if no reset may begin while a framer thread lives |
| PipelineReset.RunsOwnIffClean | SiDaqApi/SiDaqApi.cpp:541-576 | a call of SiDaqRun, after any history, begins a run that frames its own bytes if and only if nothing is parked and the receive queue is empty |
| PipelineReset.AlignedIff | SiDaqApi/SiDaqApi.cpp:541-576 | a caller's runs all frame their own bytes if and only if it begins no reset while a framer thread lives and runs only with an empty receive queue |
| PipelineReset.StrandedChunkMisframes | SiDaqApi/SiDaqApi.cpp:541-576 | without any reset, a run whose first frame begins with a byte of the run before |
| PipelineReset.TenBytesLeft | SiDaqApi/SiDaqApi.cpp:556-563 | a run stopped and reset that leaves ten bytes to a mode of four-byte frames, in which the framer goes on at offset -6 |
| PipelineReset.ResetKeepsRemainder | SiDaqApi/SiDaqApi.cpp:693-731 | once the thread has left, whatever happens up to and including the next SiDaqRun leaves the parked bytes alone |
| PipelineReset.IdleThreadTakesNothing | SiDaqApi/SiDaqApi.cpp:166-166 | a thread that finds IDLE at its loop test, after a reset, takes no chunk any more |
| PipelineReset.ResetMisalignsNextRun | SiDaqApi/SiDaqApi.cpp:556-563 | a run of the whole system in which the run after a reset frames wrongly |
| SiDaqManager.SiDaqMngr.SiDaqRun | SiDaqApi/SiDaqApi.cpp:465-576 | starts in RUN when the header length is below the maximum and the socket connects, else SYS_ERROR with nothing touched |
| SiDaqManager.SiDaqMngr.SiDaqStop | SiDaqApi/SiDaqApi.cpp:582-632 | status, socket and answer in every status |
| SiDaqManager.SiDaqMngr.SiDaqResetQueue | SiDaqApi/SiDaqApi.cpp:693-731 | empties both queues in STOPPING and SYS_ERROR and does nothing otherwise |
| SiDaqManager.SiDaqMngr.SiDaqGetData | SiDaqApi/SiDaqApi.cpp:380-384 | the next frame in order |
| SiDaqManager.SiDaqMngr.CheckErrors | SiDaqApi/SiDaqApi.cpp:177-199 | the first error raises the flag; a framer error closes the socket |
| SiDaqManager.SiDaqMngr.FramerThread | SiDaqApi/SiDaqApi.cpp:159-253 | with no more chunks to come the thread ends, everything queued framed in order and flushed, status by error |
| SiDaqManager.ThreadLosesNothing | SiDaqApi/SiDaqApi.cpp:166-230 | what the thread puts is, byte for byte, what was parked and queued |
| Rbcp.HeaderDecodes | SiDaqApi/sitcp/SiTcpRbcpLib2.cpp:120-126 | a device reads back the request from its header if and only if the length is one the client lets through |
| Rbcp.VerdictByFormat | SiDaqApi/sitcp/SiTcpRbcpLib2.cpp:128-156 | by the packet format: accepted are exactly acknowledged replies without bus error of the right command, id, length and size; with a bus error and the right command and size it is a bus error; all else is an invalid packet |
| Rbcp.SiTcpRbcp.MakeHeader | SiDaqApi/sitcp/SiTcpRbcpLib2.cpp:120-126 | the header goes to the front of the buffer and the data behind it stays |
| Rbcp.SiTcpRbcp.CheckPacket | SiDaqApi/sitcp/SiTcpRbcpLib2.cpp:128-156 | accepts on all conditions at once and looks only at bytes the datagram filled |
| Rbcp.SiTcpRbcp.RecvPacket | SiDaqApi/sitcp/SiTcpRbcpLib2.cpp:101-118 | a datagram fills the front of the buffer; anything else is a timeout or socket error |
| Rbcp.SiTcpRbcp.RwMemory | SiDaqApi/sitcp/SiTcpRbcpLib2.cpp:158-167 | next id, request sent, and the data of the reply in the packet format or exactly why there is none |
| Rbcp.SiTcpRbcp.ReadBytes | SiDaqApi/sitcp/SiTcpRbcpLib2.cpp:169-182 | reads return the data of a good reply, exactly the length asked for, or exactly why not; too long a length sends nothing |
| Rbcp.SiTcpRbcp.WriteBytes | SiDaqApi/sitcp/SiTcpRbcpLib2.cpp:184-190 | writes send header and data, and succeed exactly with a good reply |
| RbcpNetwork.AcceptedModulo256 | SiDaqApi/sitcp/SiTcpRbcpLib2.cpp:150-167 | an otherwise right reply is accepted if and only if its request lies a multiple of 256 back, over every run with delays, losses and repeats |
| RbcpNetwork.AcceptedIsCurrent | SiDaqApi/sitcp/SiTcpRbcpLib2.cpp:150-167 | with no reply overtaken by 256 requests, an accepted reply is the current one's |
| RbcpNetwork.LagDecides | SiDaqApi/sitcp/SiTcpRbcpLib2.cpp:158-167 | on a lossless ordered network every call after d timeouts reads the reply d requests old, and takes it if and only if d is 0 modulo 256 and the kinds agree |

## Left out

- Winsock: connecting, selecting and address lookup; a received chunk, a closed socket or an error is a free choice.
- Threads, timed waits and real time; a wait is a step that happens now or later.
- Allocation failure; the code dereferences before it checks.
- Frame contents after a reset of a live thread, and under a frame-queue limit over whole runs; bytes are counted there, and single calls under a limit are covered.
- The two samples' GUI, file writing and P/Invoke wrappers, and the pseudo device's networking.
- Error texts, error code translation, status names, timeout setters, pause and resume.
- GetFrameLength: headers of more than four bytes, whose shifts are undefined in C++.
- Drained: says nothing about chunks put by an old socket thread during the next run, which the assumptions exclude.
- Two API callers at once: runs, stops and resets come from one caller.
- SiDaqMngr.SiDaqRun: the framer exists from the start instead of from the first run, and each socket call's own error code is not kept.
- FramerThread: runs without interference from a point at which no chunk can arrive; the interleavings are in the transition system.
- RecvPacket: the bytes an oversize datagram leaves in the buffer, which no later call reads.
