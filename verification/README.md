# Verified models of the native runtime

The native layer under `mojo/tsonic_node.native`, with the parts of `mojo/tsonic_node` that drive it,
carries the protocols and loops a Node-compatible runtime rests on. This project models the hardest
of them in Dafny and proves what they promise, for every input, every answer of the kernel or of a
library, and every interleaving.

How the outside world appears:

- A kernel or library call is answered from an arbitrary finite script (a field or an argument), or
  by a non-deterministic choice under a small contract. A script that has run out answers "not
  ready". A theorem about every script is a theorem about every behaviour.
- Concurrent code (`StreamReads`) and the two ends of a worker channel (`WorkerProtocol`) are state
  machines whose steps are single atomic operations or system calls. Theorems speak about every run.
- Code that updates fields in place is a class. Its invariant (`Valid`) is established by the
  constructor and kept by every method, so it holds after every sequence of calls. The worker
  channel class also carries the run of protocol steps it has made: its fields always show the
  state that this run leads to, and the bytes of the run are those that went through its socket; the
  whole-run theorems therefore apply to it.
- A loop that asks the outside world until it is done also says why it may stop (`ReadRound`,
  `WriteRound`, `Pumped`, `Advanced`, `Walked`): a budget is used up, nothing is left,
  or the last call made found the descriptor not ready. Stopping early for no reason is excluded.

| files | component |
|---|---|
| `WorkerFrames`, `WorkerProtocol`, `WorkerChannel` | length-prefixed messages between workers over a byte stream |
| `StreamReads`, `StreamWaiting` | asynchronous reads: admission, reference counts, the event loop's wakeup, the waiting worker |
| `TlsTransport`, `TlsBooks`, `TlsSocket` | the plaintext queue, the transport pump and close_notify ordering |
| `DnsNames`, `DnsRecords` | following CNAME chains (section 3.6.2 of RFC 1034) |
| `NetEndpoint` | resolution, address fallback, close and free racing with the callback |
| `Gzip`, `Compression` | the codec loops, and concatenated gzip members (section 2.2 of RFC 1952) |
| `HttpScan`, `HttpBuffers` | the incremental header scan and the growing buffers |
| `ScalarParams`, `UtilFormat`, `RandomInt` | lazy UTF-8 normalisation, `util.format`, rejection sampling |

`dafny verify dfyconfig.toml` checks everything.

Notable readings of the code:

- `tsonic_node_worker_consume` frees the incoming frame without asking whether it is complete. Its
  caller (`mojo/tsonic_node/worker_threads/native.mojo:79-90`) consumes only what it was shown, and
  `ConsumeMessage` requires that.
- `tsonic_node_worker_flush` reports success on a closed channel, whose queue was discarded, so
  success does not always mean that the messages went out: `ClosedChannelLooksFlushed` gives the
  input. It does if and only if the channel was never closed on pending messages
  (`FlushedMeansSent`, and in the contract of `Flush`), which a caller can see before closing
  (`CloseKeepsExactlyWhatWasSent`).
- A stream counter may exceed its limit while refused starters undo their charge;
  `AdmissionIsBounded` bounds the requests admitted, and each overshoot by what such starters still hold.
- `wire_bytes_read` is not the true total when bytes were read that the input buffer did not retain
  (`UnretainedByteIsNotCounted` gives the input): it is exact if and only if there are none
  (`ReceivedIsCounted`), on every socket, failed or not.

## Model

| member | source | states |
|---|---|---|
| WorkerFrames.LittleEndianRoundTrip | mojo/tsonic_node.native/worker/channel.c:79-80 | a length below 256^width survives writing and reading its little-endian bytes |
| WorkerFrames.LittleEndianOfDecoded | mojo/tsonic_node.native/worker/channel.c:146-147 | any prefix is the encoding of the value read from it, so reading is injective |
| WorkerFrames.PrefixBytes | mojo/tsonic_node.native/worker/channel.c:79-80 | the four bytes of the length, least significant first |
| WorkerFrames.FrameUnique | mojo/tsonic_node.native/worker/channel.c:79-82 | a frame is determined by any byte string that starts with it: if one framed stream is a prefix of another, the first messages are equal |
| WorkerFrames.StreamPrefix | mojo/tsonic_node.native/worker/channel.c:118-157 | cutting a byte stream into frames is unique: a stream that starts like another carries a prefix of its messages, and what is left starts the stream of the remaining ones |
| WorkerChannel.EncodePrefix | mojo/tsonic_node.native/worker/channel.c:79-80 | the byte loop writes the little-endian length |
| WorkerChannel.DecodePrefix | mojo/tsonic_node.native/worker/channel.c:146-147 | the shifting loop reads it back |
| WorkerProtocol.SendMovesBytes | mojo/tsonic_node.native/worker/channel.c:104-111 | a send of any size moves bytes from the head of the queue to the end of the wire and changes nothing else |
| WorkerProtocol.InvStep | mojo/tsonic_node.native/worker/channel.c:67-183 | every system-call step keeps: wire plus queue are exactly the frames accepted; bytes received are the frames consumed plus one partial frame; queue bounds; end-of-file verdict |
| WorkerProtocol.EveryRunKeepsInv | mojo/tsonic_node.native/worker/channel.c:67-183 | hence in every reachable channel state |
| WorkerProtocol.CutIsNoBoundary | mojo/tsonic_node.native/worker/channel.c:136-140 | bytes that end inside a frame or a length prefix are not the stream of any messages |
| WorkerProtocol.EndOfFileIsCleanExactlyAtBoundary | mojo/tsonic_node.native/worker/channel.c:136-140 | after end of file the channel is sound if and only if the bytes received are a whole number of frames, all of them then consumed; otherwise the failure is EPROTO |
| WorkerProtocol.WriteFailureSilences | mojo/tsonic_node.native/worker/channel.c:51-65 | a failed write or a close leaves an empty queue and a lost write side |
| WorkerProtocol.NothingIsWrittenAfterFailure | mojo/tsonic_node.native/worker/channel.c:51-65 | after a write failure or a close, no continuation of the run puts another byte on the wire or accepts a message |
| WorkerProtocol.EveryRunKeepsSystemInv | mojo/tsonic_node.native/worker/channel.c:28-44 | in every run of two joined channels the bytes written are those read plus those in the pipe, in both directions |
| WorkerProtocol.DeliveryIsFifo | mojo/tsonic_node.native/worker/channel.c:67-183 | in every run of two joined channels, with any short sends and receives, errors, ends of file and interleaving, each side is shown a prefix, in order and byte for byte, of what the other accepted, and never refuses a frame for its length |
| WorkerProtocol.PairedRunsDeliverInOrder | mojo/tsonic_node.native/worker/channel.c:67-183 | the same for any two single-channel runs of which one has read a prefix of what the other wrote, such as those two channel objects carry |
| WorkerProtocol.FlushedMessagesAllArrive | mojo/tsonic_node.native/worker/channel.c:91-114 | nothing is lost: a flushed writer, a drained pipe and a reader between frames mean that exactly the accepted messages were consumed |
| WorkerProtocol.EveryRunShowsWire | mojo/tsonic_node.native/worker/channel.c:91-114 | in every run without a write failure the wire lacks exactly what is queued, or a close has discarded something |
| WorkerProtocol.FlushedMeansSent | mojo/tsonic_node.native/worker/channel.c:221-237 | an empty queue without a write failure means that every accepted message went out if and only if the channel was never closed on pending ones |
| WorkerProtocol.CloseKeepsExactlyWhatWasSent | mojo/tsonic_node.native/worker/channel.c:255-261 | closing an open channel loses nothing if and only if nothing is pending |
| WorkerProtocol.ClosedChannelLooksFlushed | mojo/tsonic_node.native/worker/channel.c:221-237 | the input: a message accepted and closed on is lost, while the queue is empty and no failure is set |
| WorkerChannel.OutputQueue.Append | mojo/tsonic_node.native/worker/channel.c:74-86 | appending to the linked list keeps first, last and the unsent byte count right |
| WorkerChannel.OutputQueue.Link | mojo/tsonic_node.native/worker/channel.c:83-85 | the new node is linked at the end, whether or not the list was empty |
| WorkerChannel.OutputQueue.Advance | mojo/tsonic_node.native/worker/channel.c:104-111 | so does taking sent bytes off its head, whether or not the frame is finished |
| WorkerChannel.OutputQueue.Discard | mojo/tsonic_node.native/worker/channel.c:51-59 | and dropping all of it |
| WorkerChannel.WorkerChannel.FailWrite | mojo/tsonic_node.native/worker/channel.c:61-65 | makes exactly one write-failure step |
| WorkerChannel.WorkerChannel.WriteOnce | mojo/tsonic_node.native/worker/channel.c:94-111 | one send of at most the budget, of exactly the next bytes of the first frame: the bytes taken, a failure, or another turn after an interruption; the write side is lost exactly when the answer says so, with its error |
| WorkerChannel.WorkerChannel.WritePending | mojo/tsonic_node.native/worker/channel.c:91-114 | only write steps, at most 256 KiB, and termination under any finite script of answers; it stops only with an empty queue, a used-up budget or a socket that is not ready; a failure is the one the last answer means |
| WorkerChannel.WorkerChannel.TakeHeader | mojo/tsonic_node.native/worker/channel.c:143-155 | bytes of a length prefix, complete or not, make exactly one receive step, with the allocator's answer |
| WorkerChannel.WorkerChannel.CompleteHeader | mojo/tsonic_node.native/worker/channel.c:145-155 | a completed prefix opens a frame or fails the channel, as the state machine says; ENOMEM exactly when the allocation is denied |
| WorkerChannel.WorkerChannel.TakeEnd | mojo/tsonic_node.native/worker/channel.c:136-140 | a zero-byte receive makes exactly one end step |
| WorkerChannel.WorkerChannel.ReadOnce | mojo/tsonic_node.native/worker/channel.c:122-159 | one receive of what is missing, at most 64 KiB, and what each answer does: end of file is noticed, an error of the kernel fails the channel with it, bytes are taken, an interruption is another turn |
| WorkerChannel.WorkerChannel.ReadPending | mojo/tsonic_node.native/worker/channel.c:116-159 | only read steps, none at all past an undelivered message; it stops only at end of file, a complete message, its eighth turn, a failure or a socket that is not ready; every failure is the one the last answer means, and conversely a last answer that is end of file sets it, with EPROTO exactly inside a frame or prefix, and one that is an error fails the channel with it |
| WorkerChannel.WorkerChannel.Progress | mojo/tsonic_node.native/worker/channel.c:161-169 | only transport steps; the exact status, and failures exactly for the reason the socket gave; end of file is noticed whenever the last receive brings it; nothing on a failed or closed channel; nothing left pending at end of file; both rounds go as far as they may |
| WorkerChannel.WorkerChannel.Send | mojo/tsonic_node.native/worker/channel.c:67-89 | refuses exactly as listed, in the order of the code and with the code of each reason (EPIPE closed or at end of file, the failure, the write failure, EMSGSIZE above 16 MiB, ENOBUFS above 64 MiB queued), leaving the channel unchanged, and with ENOMEM exactly when the allocation is denied; otherwise accepts the message and makes transport steps |
| WorkerChannel.WorkerChannel.Peek | mojo/tsonic_node.native/worker/channel.c:171-177 | shows the waiting message if and only if a whole frame has arrived |
| WorkerChannel.WorkerChannel.ConsumeMessage | mojo/tsonic_node.native/worker/channel.c:179-183 | after a message was shown, makes exactly one consume step |
| WorkerChannel.WorkerChannel.CloseChannel | mojo/tsonic_node.native/worker/channel.c:255-261 | makes exactly one close step and drops the queue |
| WorkerChannel.WorkerChannel.Flush | mojo/tsonic_node.native/worker/channel.c:221-237 | success means that every byte of every accepted message has gone into the socket if and only if the channel was never closed on pending messages, so always on an open one; the descriptor is kept; a timeout only when the clock, read during the call, shows it, other errors only from the channel or a poll, EINVAL exactly for bad arguments or a clock that fails |
| WorkerChannel.WorkerChannel.WaitTurn | mojo/tsonic_node.native/worker/channel.c:243-252 | one turn of waiting: it ends with a message, a failure, end of file or the poll; end of file received in it ends the wait with EPIPE, or EPROTO inside a frame |
| WorkerChannel.WorkerChannel.Wait | mojo/tsonic_node.native/worker/channel.c:239-253 | success means that a message can be consumed; end of file without one gives EPIPE, or EPROTO inside a frame, and never a timeout; a timeout is shown by the clock; EINVAL exactly for a negative timeout or a clock that fails; the descriptor is kept |
| WorkerChannel.TransportKeepsMessages | mojo/tsonic_node.native/worker/channel.c:161-169 | progress, flush and wait change neither the messages accepted nor those consumed |
| WorkerChannel.ChannelsDeliverInOrder | mojo/tsonic_node.native/worker/channel.c:67-183 | for any two channel objects after any calls: if one socket has handed out a prefix of what the other has taken, the messages shown are a prefix of those accepted, and none is refused for its length |
| WorkerChannel.FailuresAreKnown | mojo/tsonic_node.native/worker/channel.c:98-150 | the failures a channel can have: EMSGSIZE, ENOMEM, EPROTO or the kernel's for reading, EPIPE or the kernel's for writing |
| StreamReads.TotalUpdate | mojo/tsonic_node.native/stream/read.c:33-35 | changing one request changes a total charge by the difference of its charges |
| StreamReads.OwnerLocal | mojo/tsonic_node.native/stream/read.c:145-217 | every step of a starter or owner keeps the request's reference count, moves charges with the counters, and joins the admitted requests only below the limits; who is refused is `ChargesDecideExactly` |
| StreamReads.WorkerLocal | mojo/tsonic_node.native/stream/read.c:53-69 | so does every step of a worker |
| StreamReads.WorkerKeepsLoopInv | mojo/tsonic_node.native/stream/read.c:61-69 | a worker's increment and signal keep the wakeup invariant in every state of the loop |
| StreamReads.EveryRunKeepsInv | mojo/tsonic_node.native/stream/read.c:53-285 | hence all of it in every interleaving |
| StreamReads.NoLostWakeup | mojo/tsonic_node/event_loop.mojo:32-68 | while the loop is blocked, a counter that has left the captured epoch, or a request that became ready after it was looked at, means that the descriptor is readable, or a worker stands between its increment and its signal, or the request's worker has yet to increment |
| StreamReads.CompletionUnblocksLoop | mojo/tsonic_node.native/stream/read.c:234-256 | so a blocked loop with an unaccounted completion can wake at once or after one step of a worker |
| StreamReads.AdmissionIsBounded | mojo/tsonic_node.native/stream/read.c:157-176 | admitted requests never exceed 256, their bytes 64 MiB, waiting workers 32; each counter is exactly the charge outstanding, and overshoots only by what refused starters still have to give back |
| StreamReads.ChargesDecideExactly | mojo/tsonic_node.native/stream/read.c:124-176 | in every run, a charge is refused if and only if the counter it saw was at 256 reads, would pass 64 MiB with its own bytes, or was at 32 waiting workers; where every other step of a starter leads |
| StreamReads.FailedWasTurnedAway | mojo/tsonic_node.native/stream/read.c:124-176 | over every run, nobody is refused without cause: a request that failed was turned away at a limit that was reached, or by a failing allocation or launch |
| StreamReads.RoomIsGranted | mojo/tsonic_node.native/stream/read.c:145-217 | after any run with room under all limits, a new starter's own steps lead to a request in its hands with a running worker and two references, waiting or not |
| StreamReads.CompletionIsAnnounced | mojo/tsonic_node.native/stream/read.c:61-69 | a worker stores its result, then counts the completion once, then raises the wakeup |
| StreamReads.NoUseAfterFree | mojo/tsonic_node.native/stream/read.c:53-69 | no step touches a freed request: the party acting holds a reference, or took the last one away and is alone |
| StreamReads.ReleasedExactlyOnce | mojo/tsonic_node.native/stream/read.c:53-59 | a request is freed at most once, and exactly once, with nothing charged, when both parties are done |
| StreamReads.CountersReturnToZero | mojo/tsonic_node.native/stream/read.c:53-59 | when every request has settled, all counters are zero |
| StreamReads.StepLowersRank | mojo/tsonic_node.native/stream/read.c:53-217 | every step of an owner or worker brings its request nearer to its end |
| StreamReads.StepsAreBounded | mojo/tsonic_node.native/stream/read.c:53-285 | in every run owners and workers make at most eighteen steps for each request started |
| StreamReads.EveryRunCanSettle | mojo/tsonic_node.native/stream/read.c:53-285 | nothing is ever stuck: every run extends to one in which all requests have settled and all counters are zero |
| StreamWaiting.ReadWaiting | mojo/tsonic_node.native/stream/read.c:78-122 | the waiting worker ends once the request is dropped, makes only reads that cannot block, and returns the answer of the last operation: the count of a successful read, the error of a failed read or poll, EBADF for an invalid descriptor, ECANCELED for a flag found set; no earlier operation gave an answer |
| TlsTransport.AllReached | mojo/tsonic_node.native/tls/io.c:44-49 | when all ciphertext has left, everything sealed has been transmitted |
| TlsBooks.PeerReadsPrefix | mojo/tsonic_node.native/tls/io.c:43-72 | what the peer can read is a prefix of what was written and covers the queue up to its offset; with an empty output buffer it is everything accepted |
| TlsBooks.SliceSealed | mojo/tsonic_node.native/tls/io.c:52-70 | offering the queue's next slice extends the sealed prefix of what was written by exactly what was taken |
| TlsBooks.CompactKeepsQueue | mojo/tsonic_node.native/tls/io.c:142-146 | compaction keeps the queue and the bytes and length of an interrupted slice |
| TlsBooks.ExtendKeepsQueue | mojo/tsonic_node.native/tls/io.c:147-154 | so does growing the queue |
| TlsBooks.ClosedStays | mojo/tsonic_node.native/tls/io.c:90-93 | once everything had been transmitted before close_notify, it stays so |
| TlsBooks.ReceiveEntry | mojo/tsonic_node.native/tls_bio.c:40-56 | whatever the socket answers to a read, all accounts stay right: order, budget and count of what arrived, and everything about what was written |
| TlsBooks.TransmitEntry | mojo/tsonic_node.native/tls_bio.c:62-76 | whatever it answers to a write, what it took moves from the buffer to what was sent, and what had reached the peer stays there |
| TlsBooks.InterruptEntry | mojo/tsonic_node.native/tls/io.c:58-64 | after WANT_READ or WANT_WRITE the accounts hold the offered slice as the one to repeat |
| TlsBooks.AcceptEntry | mojo/tsonic_node.native/tls/io.c:68-70 | what SSL_write took extends the sealed prefix of what was written; nothing counts as transmitted yet |
| TlsBooks.AdvanceEntry | mojo/tsonic_node.native/tls/io.c:45-49 | with an empty output buffer the offset may move over what was accepted, for it has then been transmitted |
| TlsBooks.ShutdownEntry | mojo/tsonic_node.native/tls/io.c:73-87 | with an empty queue everything ever written has been transmitted when close_notify is asked for |
| TlsBooks.FetchEntry | mojo/tsonic_node.native/tls/io.c:174-180 | a read or peek of the record layer keeps all accounts |
| TlsBooks.HandOutEntry | mojo/tsonic_node.native/tls/io.c:176-179 | what is handed out is the next plaintext that was opened, and is counted |
| TlsSocket.TlsSocket.Receive | mojo/tsonic_node.native/tls_bio.c:33-57 | on success and failure alike, ciphertext arrives in order, at most 65536 bytes are retained and all that is retained is counted; nothing is read after end of file, and reading stops only at its limits or a socket that is not ready |
| TlsSocket.TlsSocket.Transmit | mojo/tsonic_node.native/tls_bio.c:58-77 | exactly what the socket took leaves the front of the output buffer, in order and counted; it stops only with nothing left, its 64 KiB, or a socket that is not ready |
| TlsSocket.TlsSocket.ReceiveOnce | mojo/tsonic_node.native/tls_bio.c:36-56 | one read never exceeds the free part of the input buffer; what it brings is retained and counted, or is recorded as unretained and fails the call |
| TlsSocket.TlsSocket.TransmitOnce | mojo/tsonic_node.native/tls_bio.c:60-76 | one write takes exactly the bytes the socket accepted off the buffer; accepting none is a failure |
| TlsSocket.TlsSocket.Pump | mojo/tsonic_node.native/tls_bio.c:21-79 | keeps every promise of the socket; only the two buffers change; it fails exactly for a broken socket or an exceeded buffer budget |
| TlsSocket.TlsSocket.Interrupted | mojo/tsonic_node.native/tls/io.c:60-64 | after WANT_READ or WANT_WRITE the length is kept, with the kind of wait, and the accounts then hold the same bytes for the retry |
| TlsSocket.TlsSocket.Accepted | mojo/tsonic_node.native/tls/io.c:68-70 | what was taken becomes a sealed prefix awaiting transmission; the offset does not move |
| TlsSocket.TlsSocket.Seal | mojo/tsonic_node.native/tls/io.c:52-70 | every call of SSL_write repeats an interrupted slice verbatim and none follows close_notify |
| TlsSocket.TlsSocket.NextSlice | mojo/tsonic_node.native/tls/io.c:52-57 | what is offered is the interrupted slice again, or the next bytes of the queue, 16 KiB or all that is left |
| TlsSocket.TlsSocket.Advance | mojo/tsonic_node.native/tls/io.c:45-49 | the offset moves only when the output buffer is empty, over bytes that were then transmitted |
| TlsSocket.TlsSocket.WriteTurn | mojo/tsonic_node.native/tls/io.c:45-71 | one turn of the write loop: progress is exactly what was transmitted, and a new slice is offered only with an empty output buffer |
| TlsSocket.TlsSocket.WriteQueued | mojo/tsonic_node.native/tls/io.c:43-72 | the write loop ends, keeps every promise, and stops only with an empty queue, 64 KiB of progress, ciphertext that waits, or an interrupted write |
| TlsSocket.TlsSocket.CloseNotify | mojo/tsonic_node.native/tls/io.c:77-86 | close_notify is produced only when all bytes ever accepted have been transmitted |
| TlsSocket.TlsSocket.Conclude | mojo/tsonic_node.native/tls/io.c:89-99 | write_ended is set exactly when close_notify has been sent and flushed, read_ended when the peer's has come, and the socket closes exactly when both (or the flushed one) call for it |
| TlsSocket.TlsSocket.Progress | mojo/tsonic_node.native/tls/io.c:4-106 | keeps every promise on all paths; a connecting socket takes one endpoint status, and stays connecting if and only if it is 0, fails if it is negative or its transport cannot be made, and is open with the transport otherwise; an open socket that is not ready has asked for a handshake, and is idle only if that wants to be repeated; a socket fails only for a stated reason; both directions are pumped last, the queue goes as far as it may, and close_notify is asked for once an ended queue is empty |
| TlsSocket.TlsSocket.Shake | mojo/tsonic_node.native/tls/io.c:28-41 | the handshake makes the socket ready exactly when it completes and its results can be kept, and fails it exactly for an error, an end, or results that cannot be kept |
| TlsSocket.TlsSocket.Connect | mojo/tsonic_node.native/tls/io.c:13-26 | waits, fails or attaches the transport exactly as the endpoint says |
| TlsSocket.TlsSocket.ConnectAndDrive | mojo/tsonic_node.native/tls/io.c:13-41 | a connecting socket connects exactly as the endpoint says and, once connected, is pumped and asks for its handshake |
| TlsSocket.TlsSocket.Write | mojo/tsonic_node.native/tls/io.c:125-157 | accepts exactly when the socket is live, not ending and within the byte budget, which the queue never exceeds, and then appends exactly the payload to the queue |
| TlsSocket.TlsSocket.Read | mojo/tsonic_node.native/tls/io.c:159-195 | whenever the socket is connected, ready, not at its end and not about to repeat a write, the record layer is asked and the result is what it said: the next plaintext as far as there is room, end of file (closing the socket if writing has ended), a failure, or a retry; otherwise the result says what stands in the way |
| TlsSocket.TlsSocket.Take | mojo/tsonic_node.native/tls/io.c:174-194 | the read itself: the result is the record layer's outcome, bytes are handed out in order, and end of file after write_ended closes the socket |
| TlsSocket.TlsSocket.Peek | mojo/tsonic_node.native/tls/io.c:212-234 | the same without taking anything: a byte shown is the one the next read hands out first |
| TlsSocket.TlsSocket.End | mojo/tsonic_node.native/tls/io.c:197-203 | loses nothing accepted, and drives the socket towards close_notify |
| TlsSocket.TlsSocket.FinishResponse | mojo/tsonic_node.native/tls/io.c:205-210 | the same, after which the flushed write side alone closes the socket |
| TlsSocket.TlsSocket.Destroy | mojo/tsonic_node.native/tls/io.c:236-247 | keeps every promise without touching the transport |
| TlsSocket.ReceivedIsCounted | mojo/tsonic_node.native/tls_bio.c:33-57 | after any calls, also on a failed socket: what was received is what the record layer took, what waits, and what was not retained, in order; the counter is exact if and only if nothing was unretained |
| TlsBooks.UnretainedByteIsNotCounted | mojo/tsonic_node.native/tls_bio.c:51-56 | the input: a byte that is read and not retained is received but neither buffered nor counted |
| TlsSocket.ReadsDeliverInOrder | mojo/tsonic_node.native/tls/io.c:159-179 | after any calls, what Read has handed out is the plaintext the record layer opened, in order, without loss or repetition, and bytes_read is its length |
| TlsSocket.PeerReadsWhatWasWritten | mojo/tsonic_node.native/tls/io.c:43-99 | after any calls, also on a failed or destroyed socket, the peer can read a prefix of what was accepted; once writing has ended, all of it |
| DnsNames.SameName | mojo/tsonic_node.native/dns/records.c:8-23 | the comparison loop decides equality of canonical names: case-folded, one trailing dot removed |
| DnsNames.CanonIsSpelling | mojo/tsonic_node.native/dns/records.c:8-23 | names are the same if and only if, one trailing dot apart, they have the same length and at each place the same byte or the same ASCII letter in the other case |
| DnsRecords.AliasHasOwner | mojo/tsonic_node.native/dns/records.c:82-91 | only a name that owns a record can have an alias, so the recursive chase needs no bound |
| DnsRecords.Pigeonhole | mojo/tsonic_node.native/dns/records.c:73-75 | distinct owners are no more than the records |
| DnsRecords.ResolveIsChainEnd | mojo/tsonic_node.native/dns/records.c:61-112 | the chase comes to an outcome if and only if a chain of pairwise distinct names leads from the query to a name that means that outcome |
| DnsRecords.ResolveIsChainReachability | mojo/tsonic_node.native/dns/records.c:61-112 | the chase succeeds with given texts if and only if a chain of pairwise distinct names, each an alias without answers, leads from the query to a name with those answers |
| DnsRecords.LevelTextsAreAnswers | mojo/tsonic_node.native/dns/records.c:82-105 | the texts of a name are exactly its records of the requested type, in answer order |
| DnsRecords.LevelMeans | mojo/tsonic_node.native/dns/records.c:81-105 | what one name means, in terms of the records alone: neither answers nor alias; an alias without answers; spoilt by conflicting aliases or a record without data; or more answers than 4096 or 1 MiB, whichever fault comes first |
| DnsRecords.NoDataExactly | mojo/tsonic_node.native/dns/records.c:107-107 | the chase fails with ENODATA if and only if a chain of distinct names leads from the query to a name with neither answers nor alias |
| DnsRecords.BadResponseExactly | mojo/tsonic_node.native/dns/records.c:74-109 | it fails with EBADRESP if and only if such a chain leads to a name whose alias is on the chain already, or to one with conflicting aliases or a record without data |
| DnsRecords.NoMemoryExactly | mojo/tsonic_node.native/dns/request.c:33-59 | it fails with ENOMEM if and only if such a chain leads to a name whose answers exceed the result limits |
| DnsRecords.DnsRequest.Append | mojo/tsonic_node.native/dns/request.c:33-59 | a result is kept within 4096 values and 1 MiB and if its allocations succeed, else the request fails with ENOMEM |
| DnsRecords.DnsRequest.Examine | mojo/tsonic_node.native/dns/records.c:83-104 | one record changes the request as the specification says, including conflicting aliases and missing data |
| DnsRecords.DnsRequest.ScanName | mojo/tsonic_node.native/dns/records.c:81-105 | the inner loop computes the level of the current name |
| DnsRecords.DnsRequest.Revisits | mojo/tsonic_node.native/dns/records.c:76-78 | the cycle check finds exactly the names visited before |
| DnsRecords.DnsRequest.Chase | mojo/tsonic_node.native/dns/records.c:74-109 | the loop over the chain computes the recursive chase and always ends it: by pigeonhole it never runs out of steps |
| DnsRecords.DnsRequest.Collect | mojo/tsonic_node.native/dns/records.c:61-112 | the nested loops compute the recursive chase, whose every outcome is characterised above, unless an allocation is denied or there are more than 4096 records (ENOMEM) or no query name (EBADRESP), and the final fallback is never taken |
| NetEndpoint.OwnershipUpdate | mojo/tsonic_node.native/net/endpoint.c:43-73 | replacing one endpoint's descriptor keeps every open descriptor owned by exactly one endpoint |
| NetEndpoint.ResolvingUpdate | mojo/tsonic_node.native/net/endpoint.c:90-94 | and the count of pending resolutions moves with the endpoint's flag |
| NetEndpoint.UsableTail | mojo/tsonic_node.native/net/endpoint.c:77-81 | stepping to the next address keeps the order of attempts and repeats none |
| NetEndpoint.UsableKeepsInternet | mojo/tsonic_node.native/net/endpoint.c:80-80 | of a list of addresses exactly those of IPv4 and IPv6 are tried |
| NetEndpoint.UsableKeepsOrder | mojo/tsonic_node.native/net/endpoint.c:77-81 | and these in order |
| NetEndpoint.WalkTries | mojo/tsonic_node.native/net/endpoint.c:77-86 | an attempt either extends the row of failed attempts or ends the walk with that address's status |
| NetEndpoint.HoldersCount | mojo/tsonic_node.native/net/endpoint.c:43-46 | there are exactly as many open descriptors as endpoints holding one |
| NetEndpoint.NetworkPromises | mojo/tsonic_node.native/net/endpoint.c:37-215 | after any calls: no socket but those just accepted is open without an endpoint, pending means resolving or connecting but not both, the resolution counter is exact, addresses are tried in order and once and none is lost while the endpoint is pending, deallocation happens exactly once |
| NetEndpoint.Network.AttemptAddress | mojo/tsonic_node.native/net/endpoint.c:48-73 | a refused address or missing socket leaves that error and no descriptor; a connection made is ready and one under way is pending, each with one new descriptor; a listener is never pending |
| NetEndpoint.Network.NextAddress | mojo/tsonic_node.native/net/endpoint.c:75-88 | addresses are tried in order up to the first that is ready or connecting, and those after a connecting one are kept; with none, all usable ones have been tried and the last error is kept |
| NetEndpoint.Network.Resolved | mojo/tsonic_node.native/net/endpoint.c:90-116 | the callback keeps all invariants, opens nothing for a closed endpoint, frees a released one exactly once, and otherwise walks down exactly the addresses given |
| NetEndpoint.Network.New | mojo/tsonic_node.native/net/endpoint.c:118-175 | a new endpoint joins with all invariants kept; it resolves if and only if it is named, below the limit of 1024 and the resolver starts; a literal host is attempted at once and alone, the wildcard over IPv6 and then, unless that is ready, over IPv4 |
| NetEndpoint.Network.Progress | mojo/tsonic_node.native/net/endpoint.c:193-215 | a pending endpoint becomes ready, stays, or falls back, as the poll says; others and settled ones are untouched |
| NetEndpoint.Network.Adopt | mojo/tsonic_node.native/net/endpoint.c:217-238 | an accepted, open descriptor becomes the sole descriptor of a new endpoint, or is closed |
| NetEndpoint.Network.Accept | mojo/tsonic_node.native/net/endpoint.c:240-248 | only a ready, open listener accepts; a connection becomes an endpoint or leaves no open descriptor behind |
| NetEndpoint.Network.Close | mojo/tsonic_node.native/net/endpoint.c:177-184 | closes exactly the endpoint's own descriptor, once, and leaves a resolution to its callback |
| NetEndpoint.Network.Free | mojo/tsonic_node.native/net/endpoint.c:186-191 | memory goes at once, or exactly once with the pending callback |
| Gzip.ArchiveIsConcatenation | mojo/tsonic_node.native/compression/codec.c:155-165 | the layout is that of the concatenated members and payloads |
| Gzip.MembersLieInPlace | mojo/tsonic_node.native/compression/codec.c:155-165 | each member's bytes and payload lie at its place in it |
| Gzip.DeterminedWithin | mojo/tsonic_node.native/compression/codec.c:144-189 | inside a member, what the stream determines is what went before plus what the member's own bytes determine |
| Gzip.NextMember | mojo/tsonic_node.native/compression/codec.c:155-164 | at the end of a member with input left, another member starts there with a non-zero byte |
| Gzip.InsideEndsNoMember | mojo/tsonic_node.native/compression/codec.c:181-187 | a position inside a member is not the end of one |
| Compression.Output.Space | mojo/tsonic_node.native/compression/output.h:41-64 | room is offered, never none, unless memory is denied; within the chunk; a full buffer offers one probe byte |
| Compression.Output.Advance | mojo/tsonic_node.native/compression/output.h:66-72 | output is kept if and only if the total stays within the limit |
| Compression.Codec.Judge | mojo/tsonic_node.native/compression/codec.c:173-187 | each answer is continued, accepted or failed as the code does; an engine error is always a rejection; a request for a dictionary offers a configured one exactly once and goes on if and only if the engine takes it |
| Compression.Codec.Enter | mojo/tsonic_node.native/compression/codec.c:155-165 | a finished codec returns exactly when no gzip member can follow: not gzip, no input left, or a zero byte; otherwise the next member is entered afresh |
| Compression.Codec.WriteZlib | mojo/tsonic_node.native/compression/codec.c:144-189 | the loop ends, for any engine; the input reported consumed is exactly what the engine took; it reports overflow if and only if the engine produced more than the limit, and else its buffer is everything the engine produced; success, rejection, truncation and lack of memory each for exactly the stated reason, so a rejection only for an engine error, or a dictionary that is not configured or was refused, and success only without any error, and with the stream ended or all input taken |
| Compression.WriteComesTo | mojo/tsonic_node.native/compression/codec.c:144-189 | on gzip members a write succeeds if and only if what its input determines fits (and ends a member, if declared finished), and delivers just that, whatever the step and buffer sizes |
| Compression.Codec.Write | mojo/tsonic_node.native/compression/codec.c:235-264 | the whole call: what is rejected untouched, the failed flag, the input taken, all that the engine produced or nothing, overflow if and only if it was too much, the reason of every result, rejections included, and the gzip guarantee |
| Compression.Codec.UpdateParameters | mojo/tsonic_node.native/compression/codec.c:266-304 | the flushing loop goes on while the engine wants more room, and ends; overflow if and only if the engine flushed too much, else all of it is delivered; success only if the engine accepted the change, rejection only if it neither did nor wants room; any failure fails the codec |
| Compression.Feed | mojo/tsonic_node.native/compression/codec.c:235-264 | a stream of gzip members cut at any points yields the payload its bytes determine and consumes every byte, and yields the concatenated payloads for the whole stream, exactly when each piece fits |
| Compression.Brotli.WriteBrotli | mojo/tsonic_node.native/compression/codec.c:191-233 | the Brotli loop ends, for any engine; the input reported consumed is what the engine took, and the output all it produced unless that was too much (but for the call in which an encoder errs); success only without an error and with the stream finished, or all input taken by an engine that waits for more |
| Compression.Brotli.Write | mojo/tsonic_node.native/compression/codec.c:235-264 | the whole call around it: rejections, the failed flag, the input taken, all that the engine produced or nothing, and the reason of every result |
| HttpScan.WindowFindsTerminator | mojo/tsonic_node.native/http_parser_bridge.c:113-114 | the 32-bit window equals the pattern if and only if the bytes end with CR LF CR LF |
| HttpScan.ScanByteKeepsInv | mojo/tsonic_node.native/http_parser_bridge.c:108-115 | one byte keeps the relation between the scan's state and all bytes fed |
| HttpScan.StateIsVerdict | mojo/tsonic_node.native/http_parser_bridge.c:104-119 | the state determines the verdict on all bytes fed: complete, position, or overflow, each if and only if |
| HttpScan.HeaderScan.Feed | mojo/tsonic_node.native/http_parser_bridge.c:104-115 | for every way of cutting the input: complete exactly when the terminator came within 65536 bytes, its first end position, and rejection exactly when more came without it |
| HttpBuffers.Buffer.Grown | mojo/tsonic_node.native/http_parser_bridge.c:28-31 | the growth loop ends with enough room and at most limit + 1 |
| HttpBuffers.Buffer.Append | mojo/tsonic_node.native/http_parser_bridge.c:25-41 | bytes are appended if and only if they fit the limit |
| HttpBuffers.RequestParser.Receive | mojo/tsonic_node.native/http_parser_bridge.c:43-78 | a callback is accepted only if its budget has room, and always if memory has too |
| HttpBuffers.RequestParser.Execute | mojo/tsonic_node.native/http_parser_bridge.c:43-78 | callbacks are accepted in order up to the first that does not fit (or gets no memory) or the end of the message; target and body are the concatenation of their pieces |
| HttpBuffers.RequestParser.Feed | mojo/tsonic_node.native/http_parser_bridge.c:104-119 | the whole feed: its result, nothing after completion, rejection before parsing exactly when the header budget is exceeded, and buffers that hold all pieces of all feeds |
| ScalarParams.ValidIsUnchanged | mojo/tsonic_node.native/url/scalar_params.h:12-29 | text without ill-formed code points is its own replacement |
| ScalarParams.FirstIsReplaced | mojo/tsonic_node.native/url/scalar_params.h:12-29 | text is kept up to the first ill-formed code point, which becomes the bytes EF BF BD |
| ScalarParams.ReplaceInvalid | mojo/tsonic_node.native/url/scalar_params.h:12-29 | nothing is returned if and only if nothing is ill-formed; otherwise the naive replacement |
| ScalarParams.Normalize | mojo/tsonic_node.native/url/scalar_params.h:31-49 | the lazily copied list equals mapping the naive replacement over every key and value |
| UtilFormat.ArgumentsInOrder | mojo/tsonic_node/util_format.mojo:24-43 | specifiers take the arguments one each, from the left, without gaps or repeats |
| UtilFormat.RestIsKept | mojo/tsonic_node/util_format.mojo:44-44 | where the loop stops, the rest of the template is kept as it is |
| UtilFormat.PlainTextIsKept | mojo/tsonic_node/util_format.mojo:19-22 | text without a percent sign is kept wherever it stands, and so is any text when there are no arguments |
| UtilFormat.PercentMeans | mojo/tsonic_node/util_format.mojo:23-43 | after a percent sign: another one gives one, each of the letters s d i f j o O c the next argument while there is one, anything else and a last percent sign are kept |
| UtilFormat.OneSpecifier | mojo/tsonic_node/util_format.mojo:9-53 | the whole result for one specifier and one value, for every letter: shown in its place, or left over and shown at the end |
| UtilFormat.LeftOverIsShown | mojo/tsonic_node/util_format.mojo:45-52 | one more value, when one is left over already or there is no template, is shown after a space: a string as its text, anything else as its inspection |
| UtilFormat.PlainTemplate | mojo/tsonic_node/util_format.mojo:9-53 | a template on its own, or without a percent sign, is kept as it is, followed by the other values |
| UtilFormat.FormatTemplate | mojo/tsonic_node/util_format.mojo:14-44 | the segment-copying loop equals the unit-by-unit rendering, and counts the arguments used |
| UtilFormat.Format | mojo/tsonic_node/util_format.mojo:9-53 | the whole: template rendering followed by each unused argument after a space |
| RandomInt.LimitIsMultiple | mojo/tsonic_node/crypto.mojo:215-216 | the accepted draws are whole blocks of the width, and fewer than 2^48 draws are rejected |
| RandomInt.EveryOffsetIsEquallyLikely | mojo/tsonic_node/crypto.mojo:215-229 | every offset has the same number of accepted draws |
| RandomInt.EveryIntegerIsEquallyLikely | mojo/tsonic_node/crypto.mojo:201-229 | so has every integer of the range |
| RandomInt.CheckBounds | mojo/tsonic_node/crypto.mojo:202-214 | the bounds are accepted if and only if they are ordered safe integers less than 2^48 apart |
| RandomInt.Pick | mojo/tsonic_node/crypto.mojo:201-229 | refuses exactly other bounds; otherwise picks the offset of the first accepted draw, inside the range and a safe integer, and fails exactly when the source does before one comes |

## Left out

- The declaration tables under `nodejs/src/provider`: data without behaviour of its own.
- The internals of OpenSSL, zlib, Brotli, c-ares, llhttp, libuv and ICU: represented by the contracts stated with the automata and engines here.
- Process creation and exit of workers (`worker/spawn.c`, `worker/channel.c:193-213`), signals, file-system and child-process bridges: operating-system plumbing.
- The waiting worker's loop is the single step from `Running` to `Publishing` in `StreamReads`; `StreamWaiting` models it by itself, up to a drop of the request that comes after any finite number of turns.
- Completion callbacks of regular-file reads run on the thread that runs the libuv loop; the model lets them interleave freely, which allows more runs, not fewer.
- Weak-memory effects: every atomic operation is one sequentially consistent step.
- Reference counting of DNS requests (`dns/request.c:7-31`, `dns/request.c:67-107`): the same two-party scheme as `StreamReads`, with fewer steps.
- The result text of an address record is given, not computed by `inet_ntop`.
- `zlib_new` and `brotli_new` (`compression/codec.c:56-142`): option checks.
- Codec: whether a stream is gzip is fixed when the codec is made; automatic detection that changes from member to member (mode 7) is not modelled; after zero padding the loop returns (`Enter`), and what follows the padding is left to the caller.
- Brotli: encoder and decoder are one arbitrary engine that consumes and produces within bounds; what Brotli streams mean is not modelled.
- The certificate and ALPN results of the TLS handshake: one non-deterministic success or failure.
- `util.format`: the rendering of a single value (`_substitute`, `inspect_value`) is a parameter, and the final conversion that rejects lone surrogates is not modelled.
- Wall-clock time: deadlines are a script of elapsed times.
- Wrap-around of the completion counter and of 64-bit byte totals: unbounded here.
