# Verified model of the simple audio streaming server and client

`sas` streams WAV files from a server to a client. Both are built on `rxc`, a library
of back-pressured pipelines, and talk over UDP with a protocol in the style of TCP (the
handshake and the sequence-number acceptance follow sections 3.4 and 3.3 of RFC 793).
This project models the parts of the repository where several pieces of mutable state
have to agree, and proves what they promise together.

Code that updates state in place is a class whose methods are proved against a function
on values; the laws are lemmas about those functions, so they hold for the classes.

| component | files | main results |
|---|---|---|
| streaming protocol | `Transport`, `Client`, `Server`, `Protocol`, `ProtocolLaws`, `Fifo`, `AtMostOnce`, `Windows` | order, handshake, credit, delivery over every unreliable run; deadlock freedom and termination over a lossless network; exactly when packets are accepted at most once and windows respected |
| pipelines of rxc | `Connection`, `Trampoline`, `Pipeline`, `PipelineRun`, `PipelineLaws`, `PipelineOrder`, `StreamLaws` | demand ledger, terminal discipline, schedule order, end-to-end meaning, rewriting of flows |
| timeout heap | `TimeoutHeap`, `TimeoutHeapArray` | conservation, heap order, sorted draining; exactly when the written code keeps the order |
| session table | `AddrHash`, `SessionTable`, `SessionTableLinks` | djb2 is a polynomial; the table refines a map; exactly when the written code does |

`CInt` holds the machine integers.

How a run of the protocol is modelled: the network is the history of the packets that
each side has sent, and a receive step picks any of them, which covers loss, duplication
and reordering. `Fifo` restricts this to a network that loses nothing and keeps the order.
The server session owns a running rxc pipeline, and so does the client session.

## Where the code departs from its intent

The code is modelled as it is. Where it does not do what it is for, a lemma gives the
input, or the exact condition under which it does.

- sas-server/src/timeout.c:69 assigns `lowest = left` after finding that the right child
  is lowest. `Variant` has both forms; `WrittenPopsOutOfOrder` is the failing input and
  `WrittenPopExactly` the condition.
- sas-server/src/session.c:72-75 returns the nonzero result of `memcmp`, which callers
  read as "equal". `Comparison` has both forms; `WrittenFindsAStranger` is the failing
  family of inputs and `WalkLooksUpExactly` the condition.
- sas-client/src/client.c:252 subtracts the size of the configuration from the size of
  every data chunk (`FrameSizeRightOnlyForConfig`). Delivery is therefore stated about the
  payload bytes.
- sas-client/src/client.c:203-216 returns the code of an error packet, and line 309 takes
  0 for "go on". A file that is no WAV file is refused without setting `errno`
  (wav.c:141-152), so such a packet can carry 0 and the client waits until it times out
  (`SilentRefusalLeavesClientWaiting`, `DeadlockFreeIffErrorsAreCoded`).
- `seq` and `ack` are compared as 32-bit numbers, so acceptance is exact if and only if the
  bytes sent in that direction stay below 2^32 (`AcceptanceExactIffNoWrap`). In terms of
  whole runs, `AcceptedAtMostOnceExactly` says for which files some run accepts a packet
  twice, and `ReadableFits` gives the size of a readable file at which that begins. Laws
  that need the bound say `Fits` for the direction concerned; the others need none.
- PROTOCOL.txt:86-91 says that the window limits what the server sends. The code records
  the window and never reads it: each accepted packet after the SYN causes one pull.
  `AnswerFitsWindowExactly` and `RespectedExactlyFromChunkSize` say when the promise is kept
  all the same; `ClosedWindowIsExceeded` is the run in which a chunk answers a closed window.
- rxc/src/ops/map.c:51 casts the wrong structure, so a failure that passes through a map
  is `Undefined` in the model: `FailureArrivesIffUnmapped` and `FailureIsLostBehindAMap`.
- rxc/src/logic.c:28 relies on signed wrap-around, modelled as arithmetic modulo 2^64.

## Model

| member | source | states |
|---|---|---|
| Connection.CounterRefinesLedger | rxc/src/logic.c:19-115 | over every history of pulls, emits and closes the `long` counter is the closed sentinel or in 0..LONG_MAX, and means what a ledger over unbounded numbers says |
| Connection.AddedIsCappedSum | rxc/src/logic.c:28-33 | the addition that may wrap, followed by the cap, is the smaller of the sum and LONG_MAX |
| Connection.BalanceUntilSaturation | rxc/src/logic.c:28-86 | until it saturates the counter is what was pulled minus what was pushed; pushes never exceed pulls |
| Connection.UnboundedStays | rxc/src/logic.c:82-85 | LONG_MAX stays until the connection closes |
| Connection.TerminalDiscipline | rxc/src/logic.c:24-50 | over every history a connection is closed exactly when a terminal signal was given, and nothing is signalled after it |
| Connection.TerminalAtMostOnce | rxc/src/logic.c:91-115 | at most one of finish, failure and downstream-finish is ever signalled |
| Connection.FirstCloseDecides | rxc/src/logic.c:38-51 | over every history the first closing operation decides the signal: a cancel tells the source, a completion the sink that it finished, a failure the sink that it failed; without one there is none |
| Connection.EmitsAreAnswered | rxc/src/logic.c:73-89 | over every history each emitted element is pushed on or refused, in order |
| Connection.EmitRefusedExactly | rxc/src/logic.c:77-80 | an emit is refused if and only if the ledger is shut or has no demand left |
| Trampoline.Worker.Enqueue | rxc/src/schedulers/trampoline.c:33-54 | the linked list keeps its shape and its contents grow by the task at the end |
| Trampoline.Worker.Dequeue | rxc/src/schedulers/trampoline.c:56-71 | returns the oldest task and removes it, or null for an empty queue |
| Trampoline.Program.Schedule | rxc/src/schedulers/trampoline.c:78-97 | from inside a task it only queues; the outermost call returns with an empty queue, the final state and the log of a run of that queue, whatever tasks schedule |
| Trampoline.Program.Drain | rxc/src/schedulers/trampoline.c:89-96 | the draining loop does one such run |
| Trampoline.Program.RunNext | rxc/src/schedulers/trampoline.c:91-94 | one turn of it runs the oldest task; what that task schedules is queued behind the rest |
| Trampoline.RunsInScheduleOrder | rxc/src/schedulers/trampoline.c:78-97 | in every finite run every task begins exactly once, in the order of scheduling |
| Trampoline.RunsUnnested | rxc/src/schedulers/trampoline.c:78-97 | a task ends before the next one begins |
| Pipeline.LoopProgress | rxc/src/ops/count.c:22-38 | a pull for something uses up supply or closes the connection |
| Pipeline.ExecuteProgress | rxc/src/pipeline.c:84-89 | a queued request that leaves more requests than it found uses up supply or closes: draining terminates |
| PipelineRun.Run.ConnectionPull | rxc/src/logic.c:19-36 | in place, the pull of a connection is the step of the model, source loop and callbacks included |
| PipelineRun.Run.ConnectionCancel | rxc/src/logic.c:38-51 | in place, cancelling is the step of the ledger; what it signals is `FirstCloseDecides` |
| PipelineRun.Run.OutletEmit | rxc/src/logic.c:73-89 | emits through all wrapped sinks; -1 exactly without demand |
| PipelineRun.Run.OutletComplete | rxc/src/logic.c:104-115 | closes once and finishes the innermost sink; signal and sink agree by `SinkHearsTheSignals` |
| PipelineRun.Run.OutletFail | rxc/src/logic.c:91-102 | closes once and fails the sink |
| PipelineRun.Run.OnPullCount | rxc/src/ops/count.c:22-38 | the loop over n, with nested pulls being queued, is the model's loop |
| PipelineRun.Run.OnPullWav | sas-server/src/formats/wav.c:50-92 | after the end it completes again, otherwise it does what the model's loop does |
| PipelineRun.Run.PullChunks | sas-server/src/formats/wav.c:59-91 | its loop: short reads, end of file, read errors, nested pulls being queued |
| PipelineRun.Run.OnPush | rxc/src/ops/map.c:34-40 | a push goes through the maps and the scheduler wrapper to the innermost sink, which may pull |
| PipelineRun.Run.OnUpstreamFinish | rxc/src/ops/map.c:43-47 | a finish reaches the innermost sink |
| PipelineRun.Run.OnUpstreamFailure | rxc/src/ops/map.c:49-53 | a failure reaches the innermost sink, or is undefined behind a map |
| PipelineRun.Run.OnConnect | rxc/src/ops/map.c:27-32 | connecting makes the innermost sink's first pull |
| PipelineRun.Run.InletPull | rxc/src/pipeline.c:91-106 | pulls from outside drain the queue, nested ones join it, after a cancel nothing happens |
| PipelineRun.Run.InletCancel | rxc/src/pipeline.c:108-115 | cuts the inlet off and cancels the connection |
| PipelineRun.Run.Schedule | rxc/src/schedulers/trampoline.c:78-97 | queues, and drains unless the worker is already running |
| PipelineRun.Run.RunQueue | rxc/src/schedulers/trampoline.c:89-96 | its loop over the linked list is the model's drain |
| PipelineRun.Connect | rxc/src/ops/wrapper.c:37-44 | connecting a source wraps the sink once for every flow on the way down |
| PipelineRun.PipelineStart | rxc/src/pipeline.c:215-224 | starting a pipeline in place is `Start` of the model |
| PipelineLaws.DeliverEffect | rxc/src/ops/foreach.c:26-31 | whatever the wrappers, a push is heard mapped, then at most one pull follows |
| PipelineLaws.LoopTakes | rxc/src/ops/count.c:22-38 | a source asked for n hands over the next n things it owes, loses none and has none refused |
| PipelineLaws.ExecuteTakes | rxc/src/pipeline.c:84-89 | so does a request from the queue, and the demand it adds is used up |
| PipelineLaws.BatchingIsInvisible | rxc/src/ops/count.c:22-38 | below saturation, pulling n1 and then n2 is pulling n1 + n2 |
| PipelineLaws.ForeachHearsEverything | rxc/src/ops/foreach.c:21-31 | a sink that pulls one at a time hears the whole supply in order and one end; then the queue is empty, the worker idle, the connection closed, and nothing was refused |
| PipelineLaws.IgnoreHearsUpToLongMax | rxc/src/ops/ignore.c:15-23 | a sink that pulls LONG_MAX once hears the first LONG_MAX things, the end included or not |
| PipelineLaws.PullTakesPending | sas-server/src/session.c:356-362 | a pull for n from outside hands over the next n pending things, nothing after the end |
| PipelineLaws.DirectPushRelaysOnePull | sas-client/src/drivers/ignore.c:21-26 | each chunk pushed from outside makes the client's source see one pull, for ever |
| PipelineLaws.ConnectRelaysOnePull | sas-client/src/drivers/ignore.c:16-19 | connecting the driver makes the client's source see one pull |
| PipelineLaws.CancelSilencesTheQueue | rxc/src/pipeline.c:84-115 | requests still queued at a cancel run without any signal or push; later pulls do nothing |
| PipelineLaws.SinkHearsTheSignals | rxc/src/pipeline.c:146-164 | from the start of a pipeline and through every pull and cancel, the innermost sink hears exactly the image of what the connection signals |
| PipelineLaws.LoopFinishes | sas-server/src/formats/wav.c:74-88 | a pull leaves a WAV source finished exactly if it closed the connection |
| PipelineLaws.FinishedAnswersWithFinish | sas-server/src/formats/wav.c:54-57 | a finished WAV source reads nothing and completes |
| PipelineLaws.RunsAreHistories | rxc/src/logic.c:53-66 | every pipeline run is a history of its connection, so the ledger and terminal laws hold for it |
| PipelineOrder.DrainIsARun | rxc/src/schedulers/trampoline.c:89-96 | draining the queue of a pipeline is a finite run of the trampoline, whose tasks are the queued requests |
| PipelineOrder.RequestsRunInOrder | rxc/src/pipeline.c:84-106 | so the requests of a pipeline begin once each, in the order of queueing, none inside another |
| StreamLaws.PipelineMapsInOrder | rxc/src/ops/map.c:34-40 | the mappings of source flows and sink flows act in written order |
| StreamLaws.CountIntoForeach | rxc/src/ops/count.c:22-38 | count through any maps into foreach: the callback sees exactly the mapped numbers in order, then one finish, and the run is over |
| StreamLaws.CountIntoIgnore | rxc/src/ops/ignore.c:15-23 | into ignore, the finish arrives if and only if to - from < LONG_MAX |
| StreamLaws.ChunksAreTheFile | sas-server/src/formats/wav.c:59-91 | however short the reads, the chunks are the file in order, each of 1 to 1024 bytes, all of it unless a read fails |
| StreamLaws.FullReadsCount | sas-server/src/formats/wav.c:59-64 | if every read is full, the number of chunks is the size of the file in units of 1024, rounded up |
| StreamLaws.FirstChunkIsTheRead | sas-server/src/formats/wav.c:60-68 | each chunk is what its read wanted, within the limits of buffer and file |
| StreamLaws.ChunksAreOwed | sas-server/src/formats/wav.c:54-90 | a WAV source owes one push for each chunk, then a finish, or a failure if a read fails |
| StreamLaws.WavIntoForeach | sas-server/src/formats/wav.c:50-92 | a WAV file through any maps into foreach: the mapped chunks in order, then a finish, or a failure that is undefined behind a map |
| StreamLaws.FailureArrivesIffUnmapped | rxc/src/ops/map.c:49-53 | a failure reaches the sink as one if and only if no map is between, on either side of the pipeline |
| StreamLaws.FailureIsLostBehindAMap | rxc/src/ops/map.c:51 | the run in which one map turns the failure of the first read into the undefined call |
| StreamLaws.ViaIsTo | rxc/src/pipeline.c:28-47 | source_to(via(s, f), k) and source_to(s, flow_to(f, k)) reach the same state |
| StreamLaws.StackMayBeCutAnywhere | rxc/src/ops/wrapper.c:13-62 | the same for a stack of flows, wherever it is cut |
| Transport.SendKeepsSender | sas-server/src/session.c:181-186 | every packet sent carries its own offset modulo 2^32, and `seq` is the end of the history |
| Transport.ExactWithoutWrap | sas-client/src/client.c:184-199 | below 2^32, `seq < ack` and `seq == ack` decide which packets precede and which one follows the last accepted |
| Transport.AcceptanceExactIffNoWrap | sas-client/src/client.c:184-199 | the test is exact for every packet and receiver if and only if the history is shorter than 2^32 bytes |
| Client.ConfigureSendsThreeAcks | sas-client/src/client.c:219-249 | the SYN-ACK is answered by exactly three acknowledgements, in state and stream |
| Client.PlaySendsTwoAcks | sas-client/src/client.c:250-259 | a data packet is answered by exactly two |
| Client.ReceiveTakes | sas-client/src/client.c:178-265 | the effect of an accepted packet on every field: ack, both windows, state, result, format, frames, acknowledgements |
| Client.PlayOpensThenCloses | sas-client/src/client.c:250-259 | the two acknowledgements of a data packet, field by field: the first advertises the open window, the second a closed one |
| Client.AnswersAcknowledgePacket | sas-client/src/client.c:195-265 | in every state, whatever arrives, all that the client sends in answer acknowledges up to the end of that packet |
| Client.FrameSizeRightOnlyForConfig | sas-client/src/client.c:252-253 | the size told to the sink is the number of bytes it gets only for the configuration |
| Client.FrameSizeFallsShort | sas-client/src/client.c:252 | the told size is 8 below the length of the packet, as a `size_t` |
| Client.ResetSaysHowItEnds | sas-client/src/client.c:202-217 | the three kinds of reset, in their order of precedence; none touches stream or sink |
| Client.ListenSnoc | sas-client/src/client.c:282-314 | the receive loop handles one packet after the other until it is done |
| Client.ReturnsZeroExactly | sas-client/src/client.c:282-316 | the loop returns 0 if and only if the client is FINISHED, for every list of packets |
| Client.ClientSession.SessionSend | sas-client/src/client.c:114-132 | in place: stamps, sends, and advances `seq` by max(1, length) modulo 2^32 |
| Client.ClientSession.OnPulls | sas-client/src/source.c:13-19 | in place: each pull reopens the window and sends an ACK |
| Client.ClientSession.OnPush | sas-client/src/drivers/ignore.c:21-26 | in place: the pipeline takes the chunk, its pull becomes an ACK |
| Client.ClientSession.StateMachine | sas-client/src/client.c:178-265 | in place: the state machine is `Receive` of the model |
| Client.ClientSession.Establish | sas-client/src/client.c:221-244 | in place: pipeline started, explicit ACK, state ESTABLISHED, in this order |
| Client.ClientSession.OnConfiguration | sas-client/src/client.c:220-249 | in place: pipeline started, ACK, state, configuration pushed, in this order |
| Client.ClientSession.OnChunk | sas-client/src/client.c:250-259 | in place: chunk pushed with its size, window closed, ACK, in this order |
| Client.ClientSession.ReceiveStream | sas-client/src/client.c:267-317 | in place: the receive loop for every finite list of arriving packets; it returns 0 if and only if the session is FINISHED |
| Server.AdvanceFollowsScript | sas-server/src/session.c:356-362 | a request sends the next packet of the session's script, or nothing after its end |
| Server.AcceptStartsScript | sas-server/src/session.c:304-355 | a SYN for any codec and name sends the first packet of the script, or the refusal that ends the session: EINVAL for another codec, the error of opening otherwise |
| Server.SynIsAnswered | sas-server/src/session.c:272-355 | the effect of any SYN with a configuration on an initial session: ack, both windows, what is sent, what the session becomes |
| Server.RequestIsAnswered | sas-server/src/session.c:272-362 | the effect of a later packet that is no reset, in the same fields |
| Server.AnswersAcknowledgePacket | sas-server/src/session.c:291-366 | in every state, whatever arrives, all that the session sends in answer acknowledges up to the end of that packet and carries the session's window |
| Server.StrayPacketIsReset | sas-server/src/session.c:303-309 | a packet with neither SYN nor RST at a new session is answered by one bare RST, and the session stays |
| Server.ResetEndsSession | sas-server/src/session.c:297-301 | an accepted RST deletes the session without an answer |
| Server.ServerSession.SessionSend | sas-server/src/session.c:175-197 | in place: stamps, sends, and advances `seq` by max(1, length) modulo 2^32 |
| Server.ServerSession.OnHeard | sas-server/src/sink.c:20-41 | in place: the sink's handlers send chunks, the end and errors |
| Server.ServerSession.OnSyn | sas-server/src/session.c:311-354 | in place: codec check, open, SYN-ACK, pipeline start, with each failure branch |
| Server.ServerSession.StartStreaming | sas-server/src/session.c:346-353 | in place: state SACK_SENT, then the pipeline is started |
| Server.ServerSession.OnRequest | sas-server/src/session.c:356-362 | in place: one pull of one element |
| Server.ServerSession.StateMachine | sas-server/src/session.c:272-366 | in place: the state machine is `Receive` of the model |
| Protocol.BeginInv | sas-client/src/client.c:134-160 | the invariant holds once the SYN is sent |
| Protocol.ActKeepsInv | sas-server/src/session.c:272-366 | every receive step of either side, of any packet ever sent, keeps the invariant of both machines |
| Protocol.InvHolds | sas-client/src/client.c:178-265 | the invariant holds after every sequence of receive steps, with no bound on the data |
| ProtocolLaws.AcceptedInOrderAndOnce | sas-client/src/client.c:184-199 | under loss, duplication and reordering, for each direction that stays below 2^32 bytes: the receiver accepts an increasing subsequence, none twice; its `ack` is a packet boundary and at most the peer's `seq` |
| ProtocolLaws.GapDetectionIsExact | PROTOCOL.txt:97-102 | for each such direction: `seq == ack` exactly when no earlier packet was skipped; the out-of-order branch was taken exactly when the accepted packets are no prefix |
| ProtocolLaws.HandshakeIsSafe | sas-server/src/session.c:303-354 | in SYN_SENT the server has sent at most one packet; the format is only ever that of the SYN-ACK; an initial session only meets the SYN; no bare reset is sent |
| ProtocolLaws.StrayPacketEndsTheClient | sas-server/src/session.c:303-309 | a client that accepts that answer stops with ECONNRESET in its old state |
| ProtocolLaws.FlagsOnTheWire | PROTOCOL.txt:54-95 | the five flag bits of every packet of every run, by its position |
| ProtocolLaws.CreditLaw | sas-server/src/session.c:356-362 | data packets and the end together number min(accepted requests, chunks + 1) |
| ProtocolLaws.EndIsLast | sas-server/src/sink.c:29-41 | the end is sent at most once and has the largest sequence number |
| ProtocolLaws.AcceptedIsPlayedAndAcked | sas-client/src/client.c:219-259 | the sink gets one frame for each accepted packet; the client has sent 1 + 3 + 2 for each later data packet |
| ProtocolLaws.FramesFallShort | sas-client/src/client.c:250-254 | in every run each frame belongs to an accepted packet, has its audio, and is told 8 less than its length |
| ProtocolLaws.NoGapMeansPrefix | sas-client/src/client.c:184-213 | without a gap the client played a prefix of the chunks; once finished, all of them, and they are the file |
| AtMostOnce.AcceptedAtMostOnceExactly | sas-client/src/client.c:184-199 | in all unreliable runs neither side accepts a packet twice, if and only if what the server sends before the client stops, and what the client sends when it hears everything once, stay below 2^32 |
| AtMostOnce.ClientHearsAgain | sas-client/src/client.c:184-199 | the run behind that: after a lossless run the packet accepted last, if it passes the test, is accepted again |
| AtMostOnce.WrappedPacketPasses | sas-client/src/client.c:184-199 | it passes at the packet across which the script's size wraps |
| AtMostOnce.ReadableFits | sas-server/src/formats/wav.c:54-90 | for a readable file the first size is that of the file plus the 8 bytes of the configuration |
| AtMostOnce.AcksFitExactly | sas-client/src/client.c:134-170 | the second size in terms of the length of the name and the number of chunks |
| AtMostOnce.ScriptTotal | sas-server/src/session.c:199-270 | all that the server sends, counted in bytes, for readable, failing and refused files |
| Windows.AnswerFitsWindowExactly | sas-server/src/session.c:291-362 | the answer to a packet fits into the window it advertises if and only if the next packet of the script does, or there is none |
| Windows.RespectedExactlyFromChunkSize | PROTOCOL.txt:86-91 | a window is respected by every session if and only if it has room for a chunk of 1024 bytes |
| Windows.WindowsAlternate | sas-client/src/client.c:250-259 | in every run the client's packets advertise the open window, but for the second acknowledgement of each data packet, which closes it |
| Windows.ServerStaysOpen | sas-server/src/session.c:125 | in every run all packets of the server advertise 1024 |
| Windows.OpenWindowIsRespected | PROTOCOL.txt:86-91 | in every run an open window is respected |
| Windows.ClosedWindowIsIgnoredExactly | PROTOCOL.txt:86-91 | in every run an accepted packet with a closed window is answered with payload, unless nothing is left or only the end of a file read without error |
| Windows.ClosedWindowIsExceeded | sas-server/src/session.c:356-362 | for a file of at least five chunks this happens on the lossless network |
| Fifo.RunInOrder | sas-client/src/client.c:184-199 | over a lossless network every packet is accepted in order, whatever the amount of data |
| Fifo.FifoIsReachable | sas-server/src/session.c:272-366 | its runs are runs of the unreliable network |
| Fifo.RunsTerminate | sas-server/src/session.c:345-362 | with N chunks at most 3 N + 6 packets ever arrive |
| Fifo.RunsCanBeCompleted | sas-client/src/client.c:282-316 | every run extends to one in which nothing more can arrive |
| Fifo.DeadlockFreeIffErrorsAreCoded | sas-client/src/client.c:202-217 | when nothing more can arrive the client is done, if and only if the session does not end in an error packet with code 0 |
| Fifo.WholeFileIsDelivered | sas-client/src/client.c:219-259 | for a readable file the client then is FINISHED and was given exactly the file |
| Fifo.RunIsListening | sas-client/src/client.c:267-317 | the client of every lossless run is the receive loop on what has arrived |
| Fifo.ReceiveReturnsOutcome | sas-client/src/client.c:267-317 | given all that arrives, `sas_client_receive` returns the error of opening or reading the file, or 0 with the whole file played; only an error 0 makes it time out |
| Fifo.SilentRefusalLeavesClientWaiting | sas-server/src/session.c:332-337 | the run in which a refusal with code 0 leaves the client waiting |
| TimeoutHeap.AddConserves | sas-server/src/timeout.c:23-54 | adding changes the multiset of entries by the one added |
| TimeoutHeap.PopConserves | sas-server/src/timeout.c:82-93 | popping changes it by the one returned, also as written |
| TimeoutHeap.AddKeepsHeap | sas-server/src/timeout.c:23-54 | adding keeps the heap order |
| TimeoutHeap.PopKeepsHeap | sas-server/src/timeout.c:56-93 | as intended, popping keeps the order and returns a minimal timeout |
| TimeoutHeap.SiftUpRests | sas-server/src/timeout.c:39-53 | an entry rises until its parent is strictly lower, past equal ones |
| TimeoutHeap.LatestOfEqualsIsNext | sas-server/src/timeout.c:42-45 | so among lowest equal timeouts the latest one added is popped next, in both forms |
| TimeoutHeap.HeapifyTop | sas-server/src/timeout.c:62-72 | an entry sinks only below strictly lower ones, and which child takes its place, ties included, in both forms |
| TimeoutHeap.AddThenDrainSorts | sas-server/src/timeout.c:23-93 | as intended, adding any entries and popping them all gives a sorted permutation |
| TimeoutHeap.HistoryConserves | sas-server/src/timeout.c:23-93 | over every history of adds and pops, in both forms, what was added is what was returned and what is left |
| TimeoutHeap.HistoryKeepsHeap | sas-server/src/timeout.c:23-93 | as intended, over every such history the heap is in order and the next pop returns a minimum |
| TimeoutHeap.WrittenHeapifyExactly | sas-server/src/timeout.c:56-80 | as written, sifting down restores the order if and only if the right child is never the lowest on the way |
| TimeoutHeap.WrittenPopExactly | sas-server/src/timeout.c:82-93 | as written, a pop from a heap returns a minimum, and leaves a heap if and only if that holds for the last entry |
| TimeoutHeap.WrittenPopsOutOfOrder | sas-server/src/timeout.c:67-70 | as written, adding 1, 5, 2, 6 and popping twice yields 1, then 5 |
| TimeoutHeapArray.Heap.TimeoutAdd | sas-server/src/timeout.c:23-54 | in place, with the array doubled when full; ties as in `LatestOfEqualsIsNext` |
| TimeoutHeapArray.Heap.Bubble | sas-server/src/timeout.c:38-53 | in place, the sift-up loop |
| TimeoutHeapArray.Heap.Heapify | sas-server/src/timeout.c:56-80 | in place, the recursive sift-down, in both forms |
| TimeoutHeapArray.Heap.TimeoutPop | sas-server/src/timeout.c:82-93 | in place, with the empty heap |
| AddrHash.HashBytes | sas-server/src/session.c:48-54 | the loop computes 5381 * 33^n + the sum of byte i * 33^(n-1-i), modulo 2^64, for byte strings of any length |
| AddrHash.BucketOf | sas-server/src/session.c:83 | the bucket is below the capacity and depends on IP and port only |
| AddrHash.BucketIsByteSum | sas-server/src/session.c:41-55 | with 32 buckets it is the sum of the bytes plus 5381, modulo 32 |
| SessionTable.InsertRefines | sas-server/src/session.c:129-137 | appending a session that no walk finds adds it to the map and nothing else, and keeps buckets, uniqueness and separation |
| SessionTable.RemoveRefines | sas-server/src/session.c:150-167 | unlinking a session removes it from the map and nothing else |
| SessionTable.InsertKeepsFinds | sas-server/src/session.c:131-135 | a new session comes last: what a walk found before, it finds after, with either comparison |
| SessionTable.RemoveKeepsFinds | sas-server/src/session.c:150-156 | a walk that found another session still finds it |
| SessionTable.DeleteRefines | sas-server/src/session.c:142-173 | deleting removes from the map what the walk finds, and nothing else; if it finds nothing, nothing |
| SessionTable.DeleteRemovesItself | sas-server/src/session.c:142-173 | for a session of the table that is the session itself, in both forms of the comparison |
| SessionTable.SizeIsMapSize | sas-server/src/session.c:137 | the number of linked sessions is the size of the map |
| SessionTable.WalkLooksUpExactly | sas-server/src/session.c:65-96 | a walk is a lookup in the map: always as intended; as written, if and only if the bucket's first session has the same IP or there is none |
| SessionTable.WrittenFindsAStranger | sas-server/src/session.c:72-75 | as written, two clients whose IPs differ in the order of the first two bytes get the same session |
| SessionTable.GetIsIdempotent | sas-server/src/session.c:98-140 | a session that was added is found by the next walk |
| SessionTable.WalkFindsListed | sas-server/src/session.c:150-151 | the walk for a session of the table stops at that session, in both forms |
| SessionTable.ChainsAreApart | sas-server/src/session.c:98-140 | chains share no session, and none contains one twice |
| SessionTableLinks.WalkTo | sas-server/src/session.c:87-93 | the loop over `next` stops at the first match, with its predecessor |
| SessionTableLinks.Table.Walk | sas-server/src/session.c:83-93 | the bucket, the match, and its predecessor, which is linked nowhere else |
| SessionTableLinks.Table.SessionFind | sas-server/src/session.c:80-96 | in place: the first match of the bucket's chain, or null |
| SessionTableLinks.Table.SessionGet | sas-server/src/session.c:98-140 | in place: the first match, or a new session at the end of its chain; chains stay linked and `count` is the number of sessions |
| SessionTableLinks.Table.Append | sas-server/src/session.c:114-137 | in place: links the new session behind the last one or at the head |
| SessionTableLinks.Table.SessionDelete | sas-server/src/session.c:142-173 | in place, for any session: the chains are those without what the walk finds; they stay linked and `count` is the number of sessions |
| SessionTableLinks.Table.Unlink | sas-server/src/session.c:152-156 | in place: the chain is the old one without that session, all others are untouched |

## Left out

- ProtocolLaws.CreditLaw: speaks of files that open; a refused SYN is answered by one error packet and the session ends.
- SessionTableLinks.Table.SessionDelete: the pipeline and the descriptor of the session, and the memory of the argument, which the code frees even where the comparison as written unlinked another session.
- Server.ServerSession.OnHeard: the handlers of sink.c run when the pull that caused them returns, not inside it; they do not touch the pipeline, so the packets are the same.
- Server.ServerSession.OnSyn: a SYN whose payload is not a configuration has no effect here, while the C code would read whatever follows the header; an honest client sends none.
- Client.ClientSession.OnPulls: the ACKs for pulls are sent when the push returns to the session; the driver and the source touch no common state, so the packets are the same.
- Payloads are typed values with the lengths of the C structures, not bytes; byte order, the reserved field and the unset codec of the SYN-ACK are not modelled.
- A path given to the client has at most 32767 bytes and no NUL (client.c:136 stores its length in 16 bits).
- One incarnation of a session: expiry, deletion while packets are in flight and re-creation under the same address are not composed with the protocol.
- sas-server/src/server.c: the server loop changes the timeout of a session that is in the heap and adds it again, so heap and table are modelled with fixed keys and not composed.
- The heap's `int` index and capacity are unbounded numbers here; doubling beyond 2^31 is not modelled.
- Sockets, select, address lookup and failing sends; `read` is a parameter that decides the length and failure of each call.
- Allocation failure, deallocation and logging.
- The WAV header parser: opening a file yields its format and the bytes behind the header, or an error number.
- The OSS driver and the byte-order helpers of sas-core: device I/O and fixed-size conversions.
- rxc/src/ops/canceled.c and rxc/src/ops/empty.c: small instances of the terminal discipline.
- rxc_flow_via, which is a stub returning NULL.
