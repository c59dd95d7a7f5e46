# The RPC data path of ytheServer, verified

This project models the path of a remote call through ytheServer and the runtime below it, and proves what holds
of it in every run: the growing and compacting byte buffer, the TinyPB coder, the connection's read, execute and
write callbacks, service dispatch, the client's call, the timer, the event loop's task queue and wakeup descriptor,
the epoll bookkeeping of loops and server, and the generated code of the example message.

Each stateful part comes twice. A class has the fields of the original object and its methods, loops and branches;
every method is proved to turn the object's state into what a function on values gives. The lemmas are about those
functions and about runs of them, so they hold of the objects too. What the kernel does (how many bytes a call
moves, which descriptors are ready, what the clock says) is a parameter or a nondeterministic choice, and the
statements hold for all of it.

| file | what it holds |
|---|---|
| Options, Bytes | absent values; bytes, 32-bit wrap-around, network byte order |
| TcpBuffer | the buffer as a value and as a class; FIFO refinement, read chunking, space bound |
| TinyPbFrames | the frame format, the scan and the field parser; unique and canonical framing |
| TinyPbCoder | the decoding and encoding loops; round trip, conservation, fragments, resynchronisation |
| RpcDispatcher | names, registry, dispatch |
| EventLoopFds | event masks, the interest set and its mirror |
| ConnectionModel, TcpConnection | a connection as a state machine over whole runs, and as a class |
| RpcChannel | the client's call, alone and together with a server |
| TimerModel, Timer | the timer as a value over whole runs, and as a class |
| TimerArming | how ticks and runs arm the timer descriptor; cancelling |
| WakeupModel, EventLoopTasks | task queue and wakeup counter as interleaved steps, and as a class |
| ServerModel, TcpServer | connection set, descriptor map and interest sets as interleaved steps, and as a class |
| ComputePb, ComputeService | the generated message code, and the example service behind a dispatcher |

The results that take the whole model together are `ConnectionModel.ServerAnswersTheStream` (a server's answers to
a stream of requests cut anywhere), `RpcChannels.EveryCallIsTransparent` (in any series of calls over one connection,
each whose response arrives in time ends as local dispatch does) and `ComputeService.AddOverTheWire` (the
documentation's example, end to end).

Some promises of the code are false as they stand. For those the project gives an input that breaks them and the
exact condition under which they hold:

- What is unread behind the complete frames is left for its missing bytes exactly when every start marker in it is
  passed over, or the first that is not has fields that do not fit (`TinyPbCoders.BytesAreLeft`,
  `TinyPbCoders.FragmentDecides`, `ConnectionModel.FragmentDecidesTheRead`); for a fragment without a second start
  marker, exactly when its declared end lies inside the receive vector (`TinyPbCoders.FragmentWaits`). Otherwise the
  decoder indexes outside the vector (`TinyPbCoders.ShortFragmentIsUndefined`) or returns a message nobody sent
  (`TinyPbCoders.FragmentMisread`).
- Bytes in front of a frame, their start markers all passed over, shift everything behind it: decoding goes on right
  behind the frame exactly when there were none (`TinyPbCoders.SkippedBytesShift`).
- A call can return unfinished. When the bytes that have come before the client's socket ran dry are whole replies and
  nothing or a fragment that waits, the call is settled exactly when its own response is among the whole ones
  (`RpcChannels.PartOfAReplySettlesNothing`). A response cut behind its length word leaves it unfinished
  (`RpcChannels.LengthWordAloneSettlesNothing`), and so does a late reply to an earlier call that arrives alone, call
  after call (`RpcChannels.LateRepliesEndTheCall`, `RpcChannels.OneBehindStaysOneBehind`).
- A request that a call left partly sent is followed by the next one, whose frame is found exactly when the start
  markers of the cut part are all passed over; then it is served, but its last bytes are left over
  (`TinyPbCoders.CutRequestShifts`). Otherwise the two can be taken for one message that is neither
  (`TinyPbCoders.CutRequestMixes`).
- A connection with an error is not cleaned up: it leaves the set only through the callback for a closed peer, which no
  event asks for any more (`ServerModel.OnlyClosingRemoves`, `ServerModel.ErrorForsakes`,
  `ServerModel.ForsakenForGood`).
- A service is reachable under its qualified name exactly when its own name holds no '.'
  (`RpcDispatchers.QualifiedNameSplits`).
- A wakeup can be lost when a thread pushes its task after a swap and wakes the loop before that batch has emptied
  the counter: timely wakeups suffice, and any late one can strand its task (`WakeupModel.TimelyWakeupsSuffice`,
  `WakeupModel.LateWakeupCanStrand`).
- A queue that is not empty stays armed for its head, but for the time between an expiry and its tick, exactly in the
  runs in which every tick finds the descriptor armed again, leaves nothing over, or queues something ahead of all it
  leaves over (`TimerArming.RunsKeepArmed`, `TimerArming.TickRearms`).
- A cancelled timer event that is due fires all the same, and is queued again exactly when the argument was true
  (`TimerArming.CancelledEventRepeats`).

Where comments or documentation and code disagree, the model follows the code: compaction starts at half the
capacity, not at a third (src/tcp/buffer.h:57 against src/tcp/buffer.cpp:79); a repeated event's next arrival is the
present time plus its interval, not its old arrival plus its interval (the repository's README.md:325 against
src/net/timer_event.h:29); framing keeps message boundaries only under the conditions above (the repository's
README.md:792).

Lemmas switch Dafny's automatic induction off, so that each proof is what its body says. `dafny verify
dfyconfig.toml` checks the project.

## Model

| member | source | states |
|---|---|---|
| `Bytes.NetRoundTrip` | src/utils/utils.cpp:73-77 | Reading a network-order word undoes writing it, for every 32-bit value |
| `Bytes.NetBytesAreBigEndian` | src/utils/utils.cpp:73-77 | The four bytes of a word, most significant first, by value |
| `Bytes.NetBytesOfValue` | src/utils/utils.cpp:73-77 | Every four bytes are the network-order form of the word read from them |
| `TcpBuffers.TcpBuffer.constructor` | src/tcp/buffer.cpp:7-10 | A new buffer is all zeros, holds nothing unread and keeps the invariant |
| `TcpBuffers.TcpBuffer.WriteToBuffer` | src/tcp/buffer.cpp:12-20 | The unread bytes gain the written bytes at their end, whatever growing and compacting it takes; the layout is that of the specification; the invariant holds |
| `TcpBuffers.TcpBuffer.ReadFromBuffer` | src/tcp/buffer.cpp:22-31 | The bytes handed out and those still unread are together what was unread; as many as asked for and there; an empty buffer leaves the result alone |
| `TcpBuffers.TcpBuffer.MoveReadIndex` | src/tcp/buffer.cpp:33-40 | Drops that many unread bytes, or nothing when there are fewer; the invariant holds |
| `TcpBuffers.TcpBuffer.MoveWriteIndex` | src/tcp/buffer.cpp:42-49 | After bytes have been placed behind the write index: they become unread, the zero tail is whole again |
| `TcpBuffers.TcpBuffer.ResizeBuffer` | src/tcp/buffer.cpp:51-63 | Never shrinks, keeps the unread bytes, and leaves the layout of the specification |
| `TcpBuffers.TcpBuffer.AdjustBuffer` | src/tcp/buffer.cpp:77-89 | Compacts exactly when the read index is in the upper half; re-establishes the invariant from the zero tail alone |
| `TcpBuffers.MoveReadDropsPrefix` | src/tcp/buffer.cpp:33-40 | A move of the read index is refused exactly when it passes the write index, and otherwise drops a prefix; capacity unchanged |
| `TcpBuffers.MoveWriteExposesZeros` | src/tcp/buffer.cpp:42-49 | Moving the write index without having written makes that many zero bytes unread, or is refused for lack of room |
| `TcpBuffers.ResizeKeepsUnread` | src/tcp/buffer.cpp:51-63 | Resizing to less than the capacity changes nothing; any other keeps the unread bytes, puts them to the front and gives exactly that capacity |
| `TcpBuffers.CompactionStartsAtHalf` | src/tcp/buffer.cpp:77-89 | Nothing moves while the read index is below half the capacity; from there on the unread bytes go to the front of a zeroed vector of the same size |
| `TcpBuffers.FillAppends` | src/tcp/connection.cpp:80-97 | Bytes placed behind the write index and taken in are appended, without compaction |
| `TcpBuffers.WriteAppends` | src/tcp/buffer.cpp:12-20 | Writing appends and keeps the invariant for every buffer and every input |
| `TcpBuffers.WritingGrowsByHalf` | src/tcp/buffer.cpp:14-17 | A write that does not fit makes the capacity one and a half times what is needed, rounded down; one that fits leaves it |
| `TcpBuffers.RoomyOffersSpace` | src/tcp/connection.cpp:76-78 | After the doubling at the top of the read loop there is space exactly when the capacity is not zero |
| `TcpBuffers.FullBufferDoubles` | src/tcp/connection.cpp:76-78 | A full buffer is doubled with its unread bytes kept, any other left alone |
| `TcpBuffers.AbsorbAppends` | src/tcp/connection.cpp:74-98 | The read loop over any finite input ends with the input appended, the invariant kept and the capacity bounded by four times the unread bytes when it grew |
| `TcpBuffers.ChunkingIsIrrelevant` | src/tcp/connection.cpp:74-98 | Whatever first portion the kernel delivers, reading on gives the very same buffer, layout included, as one delivery |
| `TcpBuffers.StepKeepsInvariant` | src/tcp/buffer.cpp:12-89 | Every operation keeps: read index 0 or in the lower half, zero bytes past the write index; growth is bounded by the unread bytes |
| `TcpBuffers.RunIsFifo` | src/tcp/buffer.cpp:12-89 | Over any run of operations and receptions the unread bytes evolve as a plain FIFO queue |
| `TcpBuffers.CapacityIsBounded` | src/tcp/buffer.cpp:12-89 | Over any run the capacity is at most its initial value or four times the peak of unread bytes; three times without receptions |
| `TinyPbFrames.ScanFindsFirst` | src/coder/tinypb_coder.cpp:107-121 | The scan succeeds at the first start marker not passed over, with its declared end on an end marker; it fails exactly when all are passed over |
| `TinyPbFrames.FrameIsLaid` | src/coder/tinypb_coder.cpp:15-73 | A frame stands at an index exactly when markers, length words and fields stand at the offsets the parser computes |
| `TinyPbFrames.FrameOnTheWire` | src/coder/tinypb_coder.cpp:15-73 | The bytes of a frame in their order, with start byte 2, end byte 3 and 22 bytes beside the fields |
| `TinyPbFrames.StampsAreLengths` | src/coder/tinypb_coder.cpp:75-79 | Encoding writes back the four lengths and changes nothing else |
| `TinyPbFrames.DeclaredEndWraps` | src/coder/tinypb_coder.cpp:112-113 | Where the end marker is looked for, by value, for declarations beyond the range of an int too |
| `TinyPbFrames.ParserGivesUp` | src/coder/tinypb_coder.cpp:131-168 | The parser gives up exactly when a length or code word would start at or behind the end marker |
| `TinyPbFrames.ParseUndoesFrame` | src/coder/tinypb_coder.cpp:128-178 | Parsing a printed frame, at any place in any vector, returns the message with its length fields |
| `TinyPbFrames.ParsedIsFrame` | src/coder/tinypb_coder.cpp:128-178 | Anything the parser accepts between its markers is the frame of the message it returns: the format is canonical |
| `TinyPbFrames.FramesArePrefixFree` | src/coder/tinypb_coder.cpp:15-73 | No frame is a proper prefix of another, and equal frames mean equal messages |
| `TinyPbFrames.StreamsDecodeUniquely` | src/coder/tinypb_coder.cpp:10-91 | Two streams of frames with a trailing fragment are equal only if the messages and the fragments are |
| `TinyPbFrames.StreamsPeel` | src/coder/tinypb_coder.cpp:10-91 | Frames at the head of a stream are the first frames of that stream, and the rest is the rest |
| `TinyPbFrames.DeclaredLength` | src/coder/tinypb_coder.cpp:24-27 | The length of a frame can be read from its first five bytes, whatever follows |
| `TinyPbCoders.PrintFrame` | src/coder/tinypb_coder.cpp:15-73 | The byte array filled field by field is the frame of the message |
| `TinyPbCoders.EncodeOne` | src/coder/tinypb_coder.cpp:12-90 | One message: its frame is written to the buffer |
| `TinyPbCoders.Encode` | src/coder/tinypb_coder.cpp:10-91 | The unread bytes gain the frames of the messages in order; the messages get their length fields |
| `TinyPbCoders.FindFrame` | src/coder/tinypb_coder.cpp:101-121 | The scan loop gives the first frame of the specification, including where it would leave the vector |
| `TinyPbCoders.ReadFields` | src/coder/tinypb_coder.cpp:128-178 | The field parser with its bounds checks gives the specification, including where it would leave the vector |
| `TinyPbCoders.ReadMethod` | src/coder/tinypb_coder.cpp:143-156 | From the method name on: as specified |
| `TinyPbCoders.ReadError` | src/coder/tinypb_coder.cpp:155-178 | From the error code on: as specified, payload length by unsigned subtraction |
| `TinyPbCoders.LookForFrame` | src/coder/tinypb_coder.cpp:96-178 | One turn of the loop up to the move of the read index gives the outcome of the specification |
| `TinyPbCoders.Decode` | src/coder/tinypb_coder.cpp:93-185 | The decoding loop ends, and messages, buffer and reason for stopping are those of the specification; the buffer invariant is kept |
| `TinyPbCoders.TurnTakesAFrame` | src/coder/tinypb_coder.cpp:101-184 | For any content a message is taken only for its frame lying whole among the unread bytes, the first not passed over |
| `TinyPbCoders.TurnAdvances` | src/coder/tinypb_coder.cpp:180-182 | Taking a message consumes exactly its frame length from the unread bytes; the move is never refused |
| `TinyPbCoders.HeadFrameIsTaken` | src/coder/tinypb_coder.cpp:95-184 | A whole frame at the head of the unread bytes is decoded, whatever follows it |
| `TinyPbCoders.WholeFramesDecode` | src/coder/tinypb_coder.cpp:93-185 | Whole frames at the head are decoded in order, and decoding goes on as if started behind them |
| `TinyPbCoders.DecodingConserves` | src/coder/tinypb_coder.cpp:93-185 | For any content, garbage included: bytes consumed equal the total length of the messages returned, each of which is a frame among the unread bytes |
| `TinyPbCoders.FragmentWaits` | src/coder/tinypb_coder.cpp:95-126 | A fragment without a second start marker is never taken: it waits exactly when its declared end is inside the vector, else the decoder leaves the vector |
| `TinyPbCoders.BytesAreLeft` | src/coder/tinypb_coder.cpp:107-178 | Any unread bytes at all are left exactly when every start marker among them is passed over, or the first that is not has fields that do not fit; otherwise a message is taken or the decoder leaves the vector |
| `TinyPbCoders.WaitingNeedsRoom` | src/coder/tinypb_coder.cpp:110-114 | With its length word there, a fragment waits exactly when its whole frame fits behind its start in the vector |
| `TinyPbCoders.FragmentDecides` | src/coder/tinypb_coder.cpp:93-185 | Frames and then any other bytes: exactly the frames are decoded, without leaving the vector, if and only if nothing follows or what follows waits, and then it is left in place |
| `TinyPbCoders.FragmentIsLeft` | src/coder/tinypb_coder.cpp:93-185 | Frames and then a fragment that can wait: exactly the frames are decoded and exactly the fragment stays, in place |
| `TinyPbCoders.MissingBytesResume` | src/coder/tinypb_coder.cpp:93-185 | Once the missing bytes arrive the next decoding yields the completed frame and what follows it |
| `TinyPbCoders.ShortFragmentIsUndefined` | src/coder/tinypb_coder.cpp:110-114 | Fewer than five bytes of a short frame at the start of the buffer make the decoder index in front of the vector |
| `TinyPbCoders.FragmentMisread` | src/coder/tinypb_coder.cpp:107-121 | A concrete fragment with a frame in its payload is decoded as a message that was never sent as one |
| `TinyPbCoders.SkippedBytesShift` | src/coder/tinypb_coder.cpp:113-119 | A frame behind any bytes whose start markers are all passed over is found, but the read index lands right behind it exactly when there were no such bytes |
| `TinyPbCoders.CutRequestShifts` | src/tcp/tcp_client.cpp:70 | Behind a request that was cut because the next one replaced the send buffer, the next request's frame is found where it stands exactly when the start markers of the cut part are all passed over; then it is served, and as many of its bytes as the cut part has are left in front of all to come |
| `TinyPbCoders.CutRequestMixes` | src/tcp/tcp_client.cpp:70 | Otherwise the cut request and the next can be decoded as one message that is neither |
| `TinyPbCoders.EncodingAppends` | src/coder/tinypb_coder.cpp:10-91 | Encoding a list appends its frames in order, in any legal buffer |
| `TinyPbCoders.RoundTrip` | src/coder/tinypb_coder.cpp:10-185 | Decoding undoes encoding for every list and every legal buffer without unread bytes, and leaves none, through growth and compaction |
| `RpcDispatchers.RpcDispatcher.SetTinyPBError` | src/rpc/rpc_dispatcher.cpp:105-110 | Error code, text and text length are set and nothing else |
| `RpcDispatchers.RpcDispatcher.Dispatch` | src/rpc/rpc_dispatcher.cpp:10-78 | The response filled in branch by branch is that of the specification |
| `RpcDispatchers.FirstDot` | src/rpc/rpc_dispatcher.cpp:93 | The first dot: none before it |
| `RpcDispatchers.QualifiedNameSplits` | src/rpc/rpc_dispatcher.cpp:86-103 | Splitting S.M gives S and M exactly when S holds no dot |
| `RpcDispatchers.SplitNameQualifies` | src/rpc/rpc_dispatcher.cpp:86-103 | Splitting fails exactly without a dot, and loses nothing |
| `RpcDispatchers.ResponseTellsTheCause` | src/rpc/rpc_dispatcher.cpp:14-41 | The response has the id and name of its request, and each name error code exactly in its case, with its text and no payload |
| `RpcDispatchers.CodesOnTheWire` | src/entity/error_code.h:8-21 | The separator is a full stop, and the error codes have the values that clients are told |
| `RpcDispatchers.RegisteredMethodIsRun` | src/rpc/rpc_dispatcher.cpp:26-78 | A registered method is run on the request bytes under its qualified name, and the response tells how it ended: the payload, or the code and text of its failure |
| `RpcDispatchers.DottedServiceIsInvisible` | src/rpc/rpc_dispatcher.cpp:80-103 | Registering a service with a dot in its name changes no answer |
| `EventLoopFds.EventLoop.AddFdEventToEpoll` | src/net/eventloop.cpp:118-132 | With the mirror right, ADD or MOD always succeeds and the mirror stays right; the kernel holds the event mask given |
| `EventLoopFds.EventLoop.DeleteFdEventFromEpoll` | src/net/eventloop.cpp:146-160 | With the mirror right, DEL never fails, the mirror stays right and the descriptor is watched no more |
| `ConnectionModel.ExecuteKeepsInv` | src/tcp/connection.cpp:149-167 | Decode, dispatch and encode keep: bytes sent and waiting are the encoded responses to the requests served, and write interest is registered |
| `ConnectionModel.StepKeepsInv` | src/tcp/connection.cpp:67-176 | Every readable or writable event, however it ends, keeps the buffer, response and write-interest invariants |
| `ConnectionModel.ReadsEnd` | src/tcp/connection.cpp:85-108 | At end of stream a connection is closed and watched no more; a failing read changes nothing but what was received; a client's read stops its loop |
| `ConnectionModel.NoBufferCloses` | src/tcp/connection.cpp:80-103 | A receive buffer of no size reads as end of stream |
| `ConnectionModel.DownStaysDown` | src/tcp/connection.cpp:69-72 | A connection that is not up is left as it is by every run of events |
| `ConnectionModel.WritingHandsOver` | src/tcp/connection.cpp:123-146 | A writable event hands over what the kernel takes, first to last, and gives up write interest exactly when nothing is left |
| `ConnectionModel.ExecutingAnswers` | src/tcp/connection.cpp:149-167 | Each decoded request gets the dispatcher's own response, behind those that wait, and write interest is asked for |
| `ConnectionModel.InterestEndsWithTheLastByte` | src/tcp/connection.cpp:116-147 | Write interest is cancelled only when all encoded bytes have been handed to the kernel |
| `ConnectionModel.RunKeepsInv` | src/tcp/connection.cpp:67-176 | Over any run and any input, bytes sent and waiting are the responses to the requests served, one each, in order, and the kernel watches for writing while some wait |
| `ConnectionModel.FragmentDecidesTheRead` | src/tcp/connection.cpp:67-114 | A read serves exactly the complete messages and goes on if and only if nothing follows them or what follows waits; for a fragment without a second start marker, undefined exactly when its declared end is outside the buffer |
| `ConnectionModel.BenignReadServes` | src/tcp/connection.cpp:67-114 | One read serves exactly the messages whose frames are complete and keeps the fragment |
| `ConnectionModel.WholeFramesAreBenign` | src/tcp/connection.cpp:67-114 | Arrivals of whole frames meet the condition of the run theorems |
| `ConnectionModel.RunServes` | src/tcp/connection.cpp:67-176 | Over a run of arrivals cut anywhere and partial writes, the requests served are the messages of the stream that arrived |
| `ConnectionModel.ServerGoesOnAnswering` | src/tcp/connection.cpp:67-176 | From any live state, over a benign run, the output grows by exactly the encoded responses to the requests that became complete, in order |
| `ConnectionModel.ServerAnswersTheStream` | src/tcp/connection.cpp:67-176 | From a fresh connection, bytes sent and waiting are the encoded responses to all complete requests of the stream, in order, and the last fragment is what is unread |
| `ConnectionModel.WholeArrivalsAreBenign` | src/tcp/connection.cpp:67-176 | Any run of whole arrivals and partial writes meets the condition of the run theorems, for as long as it goes on |
| `ConnectionModel.WholeRequestsAreAnswered` | src/tcp/connection.cpp:67-176 | With requests arriving whole, sizes permitting, every run sends or holds ready exactly their responses, in order |
| `TcpConnections.TcpConnection.constructor` | src/tcp/connection.cpp:10-25 | Two empty buffers, read events asked for edge-triggered, not connected; registered at once only in the loop's own thread, else the loop is untouched |
| `TcpConnections.TcpConnection.RegisterInLoop` | src/net/eventloop.cpp:111-114 | The queued task registers the mask as it is then |
| `TcpConnections.TcpConnection.ListenWriteEvent` | src/tcp/connection.cpp:43-49 | Write and edge-trigger bits set and registered, nothing else changed |
| `TcpConnections.TcpConnection.CancelListenWriteEvent` | src/tcp/connection.cpp:59-65 | Write bit cleared and the change registered, nothing else changed |
| `TcpConnections.TcpConnection.Clear` | src/tcp/connection.cpp:169-176 | Closed, and the descriptor in neither the loop's record nor the kernel's set; a closed connection stays as it is |
| `TcpConnections.TcpConnection.ReadAll` | src/tcp/connection.cpp:74-98 | The read loop ends for any kernel split, with the whole input taken in and how it ended |
| `TcpConnections.TcpConnection.ReadChunk` | src/tcp/connection.cpp:80-97 | One read of any size leaves the result of reading everything unchanged |
| `TcpConnections.TcpConnection.DispatchAll` | src/tcp/connection.cpp:156-163 | One response for each request, in order |
| `TcpConnections.TcpConnection.Execute` | src/tcp/connection.cpp:149-167 | The new state of buffers, mask, kernel entry and log is the step of the state machine |
| `TcpConnections.TcpConnection.Answer` | src/tcp/connection.cpp:156-166 | The responses to given requests wait to be sent, in order, and write interest is registered |
| `TcpConnections.TcpConnection.OnRead` | src/tcp/connection.cpp:67-114 | The read callback is the readable step of the state machine, for server and client; after end of stream the descriptor is in neither the loop's record nor the kernel's set |
| `TcpConnections.TcpConnection.WriteAll` | src/tcp/connection.cpp:124-143 | The write loop ends with a prefix of the waiting bytes handed over in order, and only when none are left or the kernel has refused |
| `TcpConnections.TcpConnection.OnWrite` | src/tcp/connection.cpp:116-147 | The write callback is the writable step of the state machine, and ends only when nothing is left or the kernel has refused |
| `RpcChannels.SettledTellsTheResponse` | src/rpc/rpc_channel.cpp:88-119 | A call fails exactly on an error code or unparsable bytes, with the code, as a signed number, and text of the response, or with 10000004 and its text; else it holds its bytes; the closure runs once more |
| `RpcChannels.OthersAreIgnored` | src/rpc/rpc_channel.cpp:88-90 | Replies with other ids change nothing |
| `RpcChannels.OwnReplySettles` | src/rpc/rpc_channel.cpp:88-119 | With one reply of its own among others a call is settled by that one: finished, closure run once more |
| `RpcChannels.FirstFailureEnds` | src/rpc/rpc_channel.cpp:88-119 | The first reply of its own that fails a call ends the loop, whatever stands behind it; a good one does not |
| `RpcChannels.CallsAreNamed` | src/rpc/rpc_channel.cpp:35-45 | A call goes out and ends with its own id, or with the generated one when it has none |
| `RpcChannels.UnserializableFails` | src/rpc/rpc_channel.cpp:48-57 | A request that does not serialize fails the call on the spot, with code 10000004 and its text, the closure run once |
| `RpcChannels.PartOfAReplySettlesNothing` | src/rpc/rpc_channel.cpp:86-119 | Of the replies owed some bytes have come, cut anywhere that leaves a waiting fragment: the call is settled by its response if and only if that has arrived in full, and is untouched until then |
| `RpcChannels.LengthWordAloneSettlesNothing` | src/rpc/rpc_channel.cpp:86-119 | A cut that leaves a call unfinished: the first five bytes of any short response |
| `RpcChannels.OwedGrows` | src/tcp/connection.cpp:67-176 | One more request answered: what the client holds and what is on its way are the replies owed before and then this one |
| `RpcChannels.ServerRepliesOnce` | src/tcp/connection.cpp:67-176 | A request that arrives in any pieces adds exactly one frame to the server's output, its dispatched response, whatever the connection has carried before |
| `RpcChannels.CallIsTransparent` | src/rpc/rpc_channel.cpp:84-119 | A call on a connection that has carried any calls before, with replies to abandoned ones still to come, has the outcome of dispatching its request: same response bytes, or same error code and text; and the connection is ready for the next |
| `RpcChannels.OneMoreCall` | src/rpc/rpc_channel.cpp:84-119 | A call whose replies are cut anywhere ends as dispatched or is left untouched, and what stays owed are only replies to abandoned calls |
| `RpcChannels.EveryCallIsTransparent` | src/rpc/rpc_channel.cpp:84-119 | In any series of calls on one connection, each with its own id, every call whose response arrives in time ends as its dispatch does, every other is left unfinished, and none is settled by a reply to another |
| `RpcChannels.CallsFromAFreshConnection` | src/rpc/rpc_channel.cpp:84-119 | The same for any series of calls that starts on a fresh connection |
| `RpcChannels.LateRepliesEndTheCall` | src/rpc/rpc_channel.cpp:85-90 | When only replies to abandoned calls arrive, a call returns unfinished: a late reply can end a later call |
| `RpcChannels.OneBehindStaysOneBehind` | src/rpc/rpc_channel.cpp:85-90 | If during a call just the one reply owed from before arrives, the call is left unfinished and its own reply is then owed, so that the next call is in the same position |
| `RpcChannels.Fail` | src/rpc/rpc_channel.cpp:49-56 | Cancelled, failed with code and text, closure run once, finished |
| `RpcChannels.HandleReplies` | src/rpc/rpc_channel.cpp:88-119 | The loop over the replies gives the outcome of the specification |
| `RpcChannels.TakeReplies` | src/rpc/rpc_channel.cpp:86-119 | The buffer is left as decoding leaves it, and the call is settled as specified unless decoding left the vector |
| `RpcChannels.RpcChannel.ServeWrites` | src/tcp/connection.cpp:116-147 | Any number of write events loses, repeats and reorders no byte and leaves what was received |
| `RpcChannels.RpcChannel.ServeLoop` | src/net/eventloop.cpp:45-87 | Write events, the read event, and write events queued behind it: what arrived is taken in, no byte to be sent is lost, the loop has stopped and the channel is ready |
| `RpcChannels.RpcChannel.OneCall` | src/tcp/tcp_client.cpp:64-74 | On a connection that is up: the request bytes are sent or wait to be sent, behind those sent before; the receive buffer has gained what arrived; the loop has stopped. Otherwise nothing happens and there is no buffer |
| `RpcChannels.RpcChannel.EncodeRequest` | src/rpc/rpc_channel.cpp:76-84 | A buffer holding exactly the frame of the request |
| `RpcChannels.RpcChannel.CallMethod` | src/rpc/rpc_channel.cpp:25-120 | Controller, response and closure end as specified, and the controller holds its own id or else the generated one; what goes out is the frame with that id, the method name, no error and the request bytes; an unserializable request sends nothing; the receive buffer is what decoding left, in its old array or a new one, and the channel is ready for the next call; exactly a missing buffer or a read outside the vector leaves the outcome open |
| `TimerModel.InsertKeepsOrder` | src/net/timer.cpp:29 | Inserting keeps the queue sorted by arrival |
| `TimerModel.FiringIsAdding` | src/net/timer.cpp:65-75 | A callback of the timer fires the due entries once each in order, and leaves what adding all it queues to the rest would leave |
| `TimerModel.AddingNewKeepsInv` | src/net/timer.cpp:14-33 | Adding a new event keeps queue, keys and firing log in step |
| `TimerModel.FiringKeepsInv` | src/net/timer.cpp:66-75 | One firing with its re-queueing and whatever its callback adds keeps them in step |
| `TimerModel.DuePartition` | src/net/timer.cpp:44-63 | The due entries are exactly those with key up to now, the rest are later, and none is lost |
| `TimerModel.OnTimerKeepsInv` | src/net/timer.cpp:35-76 | The timer callback keeps the queue sorted, keys equal to arrival times, and everything in step |
| `TimerModel.EventsKeepTheirTurns` | src/net/timer.cpp:14-76 | Over any run: a one-shot event fires at most once and is queued until then, a repeated one is queued exactly once, and the k-th firing is no earlier than creation plus k intervals |
| `TimerArming.AddingArms` | src/net/timer.cpp:18-32 | An addition arms the descriptor for the new head exactly when it becomes the head |
| `TimerArming.AdditionsArm` | src/net/timer.cpp:14-33 | Any series of additions leaves an armed descriptor armed for the head; a disarmed one is armed exactly when one came to an empty queue or preceded all that was queued |
| `TimerArming.TickRearms` | src/net/timer.cpp:62-75 | A tick arms a disarmed descriptor, for the head, exactly when something it queues comes to an emptied queue or precedes all left over; its effect is that of adding what it queues to the rest |
| `TimerArming.QueueAfterTick` | src/net/timer.cpp:44-75 | After a tick the queue is sorted, holds as a multiset the entries not due and those queued during the tick, and keeps queueing order among equal keys |
| `TimerArming.DueIsExact` | src/net/timer.cpp:50-62 | In any sorted queue exactly the entries reached and not cancelled are taken to fire, those not reached are left, and cancelled ones that are reached are dropped |
| `TimerArming.RepeatedIsQueuedAgain` | src/net/timer_event.h:29 | A repeated event that fires has one entry afterwards, for exactly one interval behind the reading at its reset; interval, kind and creation are unchanged |
| `TimerArming.OneShotIsGone` | src/net/timer.cpp:66-75 | A one-shot event that fires has no entry afterwards and is otherwise as it was |
| `TimerArming.SpawnedAreQueued` | src/net/timer.cpp:66-75 | What callbacks add during a tick is queued for its arrival time |
| `TimerArming.QueuedInOrder` | src/net/timer.cpp:66-75 | A tick queues due entry by due entry, and for each what its callback adds before the event itself |
| `TimerArming.LogInOrder` | src/net/timer.cpp:66-69 | The firings of a tick are those of the due entries, in their order, at its clock reading |
| `TimerArming.LegalTickIsDistinct` | src/net/timer.cpp:44-75 | In a run whose callbacks add only new events, what a tick queues are different events, none queued already |
| `TimerArming.RunsKeepArmed` | src/net/timer.cpp:14-112 | Over any run, but for the time between an expiry and its tick, a non-empty queue is at every point armed to go off by its head's arrival or 100 ms after arming, exactly when each tick finds the descriptor armed again, leaves nothing over, or queues something ahead of all it leaves; and it is never armed too late |
| `TimerArming.FiresAtTheFirstTick` | src/net/timer.cpp:44-75 | In any run an entry fires at the first tick whose clock reading has reached its key, and stays queued until then |
| `TimerArming.OneShotsStrandTheRest` | src/net/timer.cpp:65-75 | When all that is due is one-shot, the rest of the queue waits with the descriptor disarmed |
| `TimerArming.DelayIsProper` | src/net/timer.cpp:91-106 | The delay is positive, the nanoseconds are in range, and nothing is lost in the conversion; a passed arrival gives 100 ms |
| `TimerArming.CancelledEventRepeats` | src/net/timer_event.h:27 | An event that is due fires in spite of SetCancel, and after the callback it is in the queue again, once, exactly when SetCancel was given true |
| `Timers.EventTimer.ResetTimerFd` | src/net/timer.cpp:78-112 | Armed for the head as specified; an empty queue changes nothing |
| `Timers.EventTimer.Emplace` | src/net/timer.cpp:29 | The entry goes behind all that are not later |
| `Timers.EventTimer.AddTimerEvent` | src/net/timer.cpp:14-33 | Queue, events and arming become those of the specification |
| `Timers.EventTimer.TakeDue` | src/net/timer.cpp:47-63 | The live due entries are returned in order and exactly the later ones stay |
| `Timers.EventTimer.OnTimer` | src/net/timer.cpp:35-76 | The callback gives the state of the specification, firing log included |
| `WakeupModel.NextConserves` | src/net/eventloop.cpp:45-73 | Every step keeps: executed, current batch and pending are together all tasks queued, in order |
| `WakeupModel.TasksRunInOrder` | src/net/eventloop.cpp:45-73 | In every interleaving tasks run in queueing order and those of other threads at most once |
| `WakeupModel.NextStaysAwake` | src/net/eventloop.cpp:45-86 | A timely step keeps the loop from waiting with tasks queued and nothing to wake it |
| `WakeupModel.TimelyWakeupsSuffice` | src/net/eventloop.cpp:45-58 | If every wakeup comes in time, a loop waiting with tasks queued has a positive counter or a thread about to wake it |
| `WakeupModel.LateWakeupCanStrand` | src/net/wakeup_event.cpp:14-29 | After any wakeup that is late, the loop can reach a wait with that task queued and nothing to wake it |
| `WakeupModel.StuckNeedsOutsideHelp` | src/net/eventloop.cpp:58-73 | In a stuck loop nothing queued runs until epoll_wait returns, and without another push it returns only for another descriptor or an interruption |
| `WakeupModel.AwakeLoopGetsOn` | src/net/eventloop.cpp:45-86 | A loop that waits with a positive counter can by itself run all that was queued, in order, and empty the counter |
| `WakeupModel.NextTurnRunsQueued` | src/net/eventloop.cpp:45-86 | Whatever other threads do, once the loop has gone round and waits again, every task queued before has run |
| `WakeupModel.LoopFromTheStart` | src/net/eventloop.cpp:45-86 | From the start, in every interleaving, tasks run in queueing order, those of other threads at most once, and with timely wakeups the loop is never stuck |
| `WakeupModel.LateWakeupHappens` | src/net/eventloop.cpp:45-58 | A late wakeup is reachable from the start |
| `WakeupModel.StepsAcrossThreads` | src/net/eventloop.cpp:162-172 | A push appends its task and announces a wakeup; the wakeup writes 97 and no task; the loop's callbacks are queued behind what is there |
| `EventLoopTasks.LoopTasks.AddTask` | src/net/eventloop.cpp:162-172 | A push followed by a wakeup, as two steps of the model |
| `EventLoopTasks.LoopTasks.RunTasks` | src/net/eventloop.cpp:46-56 | Swap and drain run what was queued, first to last; the counter is emptied exactly when the drain callback was among it |
| `EventLoopTasks.LoopTasks.QueueReady` | src/net/eventloop.cpp:63-86 | The callbacks of ready descriptors are queued in the order reported, as steps of the model |
| `EventLoopTasks.LoopTasks.Turn` | src/net/eventloop.cpp:45-87 | A whole turn of the loop is a run of the model: old tasks executed, ready callbacks pending |
| `ServerModel.AcceptKeepsInv` | src/tcp/tcp_server.cpp:62-77 | Accepting a connection keeps sets, map and kernel in step |
| `ServerModel.AcceptTakesIn` | src/tcp/tcp_server.cpp:62-77 | An accepted connection is open, on record and last in line to be registered in its loop |
| `ServerModel.RegisterWatches` | src/net/eventloop.cpp:113-132 | The first in line is registered: its descriptor is watched, and nothing else changes but the line |
| `ServerModel.RelistenWatches` | src/net/eventloop.cpp:118-132 | Asking again for events always succeeds, leaves the descriptor watched and changes nothing else |
| `ServerModel.WatchKeepsInv` | src/net/eventloop.cpp:118-132 | Registering a live connection is legal, as ADD or as MOD, and keeps them in step |
| `ServerModel.WatchIsRegistering` | src/net/eventloop.cpp:118-132 | For an open descriptor, watching in the server model is what the loop's own registration does to record and kernel set, and fails exactly when that does |
| `ServerModel.UnwatchIsDeregistering` | src/net/eventloop.cpp:146-160 | Unwatching is what the loop's own deletion does, and fails exactly when that does |
| `ServerModel.UnwatchKeepsInv` | src/net/eventloop.cpp:146-160 | Deleting a registration is legal or skipped, and keeps them in step |
| `ServerModel.PeerClosedKeepsInv` | src/tcp/connection.cpp:169-176 | Closing a connection keeps them in step and leaves it unwatched |
| `ServerModel.PeerClosedCloses` | src/tcp/connection.cpp:169-176 | Once the peer has closed, the connection is closed and can be cleaned up, no loop watches its descriptor, and every other connection is as before |
| `ServerModel.ClosedUntilCleaned` | src/tcp/tcp_server.cpp:81-93 | In every run a closed connection stays as it is until it is cleaned up |
| `ServerModel.CleanRemoves` | src/tcp/tcp_server.cpp:85-89 | Cleaning up takes exactly this connection off the record, its descriptor neither open nor in the map any more |
| `ServerModel.CleanKeepsInv` | src/tcp/tcp_server.cpp:81-92 | Cleaning up closes a descriptor that is open and that no loop watches |
| `ServerModel.ClosedIsUnwatched` | src/tcp/connection.cpp:169-176 | The descriptor of a closed connection is in no loop's set, its own or the kernel's |
| `ServerModel.RunKeepsInv` | src/tcp/tcp_server.cpp:62-94 | In every interleaving the invariant holds |
| `ServerModel.DescriptorsStayInStep` | src/tcp/tcp_server.cpp:62-94 | From the start, in every interleaving: no epoll_ctl fails, each descriptor is closed once, each loop's record is the kernel's, and map, connection set and open descriptors agree |
| `ServerModel.ErrorForsakes` | src/net/eventloop.cpp:78-85 | An error event leaves the connection not closed and watched by no loop |
| `ServerModel.ForsakenForGood` | src/net/eventloop.cpp:78-85 | From then on, unless a callback of its own that was queued before still runs, no step of any run reports, closes or cleans up the connection, and its descriptor stays open |
| `ServerModel.OnlyClosingRemoves` | src/tcp/tcp_server.cpp:81-93 | In any run without its peer-closed callback a connection that is not closed stays in the set, not closed |
| `ServerModel.FailedAcceptEndsTheServer` | src/tcp/acceptor.cpp:46-50 | From any state the server can reach, a failed accept is queued as descriptor -1, and every run in which the loop performs the registrations queued before and one more ends with a failed epoll_ctl, on which the program exits |
| `ServerModel.FailedAcceptIsRegistered` | src/tcp/acceptor.cpp:46-50 | Such a run exists: the loop can perform just these registrations |
| `TcpServers.TcpServer.constructor` | src/tcp/tcp_server.cpp:7-34 | No connections, no descriptors, empty loops |
| `TcpServers.TcpServer.OnAccept` | src/tcp/tcp_server.cpp:62-77 | The accept step of the model |
| `TcpServers.TcpServer.CloseClient` | src/tcp/tcp_server.cpp:85-89 | The clean-up step of the model |
| `TcpServers.TcpServer.OnClearClientTimerFunc` | src/tcp/tcp_server.cpp:79-94 | Removes exactly the closed connections, as a legal run of clean-up steps; loops unchanged |
| `ComputePb.VarintRoundTrip` | pb/compute.pb.cc:216-218 | Reading a varint undoes writing it, whatever follows |
| `ComputePb.VarintOnTheWire` | pb/compute.pb.cc:266-274 | A varint's bytes: high bit on all but the last, seven value bits each, least significant first |
| `ComputePb.RequestOnTheWire` | pb/compute.pb.cc:262-283 | x is field 1 behind tag byte 8, y field 2 behind tag byte 16, in this order, zero not written, negative values as 64-bit numbers, unknown fields last |
| `ComputePb.SmallRequestOnTheWire` | pb/compute.pb.cc:204-283 | Values below 128 are the bytes 8 or 16 and the value, written and read |
| `ComputePb.WideNumbersAreCut` | pb/compute.pb.cc:204-240 | Of a value or a tag that is too wide the low 32 bits are kept |
| `ComputePb.BrokenRequests` | pb/compute.pb.cc:204-260 | A zero tag, a missing value and a value of more than ten bytes do not parse |
| `ComputePb.SignSurvives` | pb/compute.pb.cc:216-218 | Sign extension to 64 bits and truncation to 32 give every int32 back |
| `ComputePb.SizeIsLength` | pb/compute.pb.cc:320-331 | The computed size of a value is the length of its varint, ten bytes for negative ones |
| `ComputePb.ByteSizeIsExact` | pb/compute.pb.cc:310-336 | ByteSizeLong, unknown fields included, is the length of the serialized message |
| `ComputePb.FieldMerges` | pb/compute.pb.cc:204-260 | Parsing one printed field sets it, or leaves the message when it was the default |
| `ComputePb.SerializedMerges` | pb/compute.pb.cc:204-260 | Parsing a printed message, unknown fields included, with anything behind it, goes on from the merge |
| `ComputePb.UnknownMerges` | pb/compute.pb.cc:244-252 | Parsing printed unknown fields appends them, in order |
| `ComputePb.ReprintingIsStable` | pb/compute.pb.cc:204-283 | Any input that parses, however spelled and with any unknown fields: printing the message and parsing it again gives the same message |
| `ComputePb.RequestRoundTrip` | pb/compute.pb.cc:204-283 | Parsing undoes printing for every message, negative values and unknown fields included |
| `ComputePb.ConcatenationIsMerge` | pb/compute.pb.cc:204-366 | Two printed messages in a row parse to their merge: the last value wins |
| `ComputePb.StreamsMerge` | pb/compute.pb.cc:204-260 | For any two inputs, unknown fields included, parsing both in a row is parsing the second into the result of the first |
| `ComputePb.RequestMessage.MergePartialFromCodedStream` | pb/compute.pb.cc:204-260 | The parse loop ends and gives the message and outcome of the specification |
| `ComputePb.RequestMessage.SerializeWithCachedSizes` | pb/compute.pb.cc:262-283 | The output is the serialized form of the fields and then of the unknown fields |
| `ComputePb.RequestMessage.MergeFrom` | pb/compute.pb.cc:353-366 | The fields become the merge of both messages, the unknown fields those of both in a row |
| `ComputeService.AddReplies` | testcase/test_server.cpp:9-13 | Add answers a printed request with the printed sum, and the sum reads back |
| `ComputeService.AddAnswersTheSum` | testcase/test_server.cpp:7-24 | Registered with a dispatcher, Compute.Add answers any two numbers with their sum |
| `ComputeService.AddOverTheWire` | testcase/test_client.cpp:19-43 | A client's call of Compute.Add, after any calls before it on the connection, replies to some of which may still be owed, ends finished, without error, the closure run once and the sum in the response, for any two numbers, write events and legal buffers |

## Left out

What the program does and the model does not:

- Sockets, epoll, timerfd and eventfd: their kernel state (byte streams, interest sets, arming, counter) is modelled,
  the calls are not; chunk sizes, ready descriptors and clock readings are choices or parameters. `read` and `write`
  fail only as "try again", end of stream, or, for `read`, another error; `write` errors other than EAGAIN, which the
  source passes on as a negative size (src/tcp/connection.cpp:142), are not modelled.
- Configuration, XML, logging, log files and date strings; IPNetAddr; binding, listening and connecting; IO thread
  start-up and the round robin of the thread pool; the HTTP part of the documentation, for which there is no code.
- The call timeout and its race with the reply: calls are followed without it. When a timeout and a reply share a
  batch the closure can run twice.
- Memory ownership and destructors, the read of a freed descriptor object during clean-up
  (src/tcp/tcp_server.cpp:86-87), the callbacks stored in an FdEvent, and the bounds-checked `operator[]` of the
  buffer, which nothing else uses.
- Mutexes: the task queue's is modelled by atomic steps; the timer's lock nothing (src/net/timer.cpp:20, 48, 83
  declare functions), and the timer is modelled for one thread.
- Null timer events and null callbacks: the source passes over them.
- Protobuf reflection and descriptors. How the library reads and prints an unknown field is a function parameter, which
  the round trips assume to read back what it has printed; the setting that drops unknown fields from the output is
  taken at its default. Request and response parsing inside dispatch and call is part of the handler or a predicate.
  The generated Response code mirrors Request with one field; its parser and printer are used through Request's.
- The setters whose contract is their body (FdEvent's masks, RegisterService, StartCancel, SetError, Wakeup and the
  loop's Stop, of which the wakeup is left out) are verified but have no row above.
- Unique message ids: `GetMsgID` reseeds from the seconds of the clock (src/utils/utils.cpp:63), so `NoneFor` on other
  calls' replies is an assumption.

Contracts that say less than the whole of what the source does, and why:

- TcpBuffers.TcpBuffer.MoveReadIndex: sizes are natural numbers; the source has no lower check and no caller that
  passes a negative size, given that `write` returns a count or EAGAIN. The same holds for MoveWriteIndex and
  ReadFromBuffer.
- TcpBuffers.TcpBuffer.WriteToBuffer: requires the grown size to fit an `int`; the source overflows beyond it. The
  limits on sizes in Encode, Execute, OnRead and CallMethod are there for the same reason.
- TinyPbCoders.Decode: where the source indexes outside the vector it has no defined behaviour, and the model ends
  with the outcome `Undefined`. Allocation failures of a huge declared field length count as leaving the vector.
- TinyPbCoders.PrintFrame: one operation for the allocation and the copies; a failing `malloc` is not modelled.
- ConnectionModel.ServerAnswersTheStream: its runs are benign (each read drains the socket and ends in whole frames and
  at most a fragment that waits), since the code serves no others reliably; FragmentDecidesTheRead and BytesAreLeft
  give the exact conditions, RunKeepsInv holds without any.
- ConnectionModel.RunKeepsInv: error events of the connection's descriptor are part of ServerModel only, and handlers
  are functions of the request bytes that answer before they return.
- RpcChannels.RpcChannel.OneCall: its event loop is any write events and one read event that drains the socket; when the
  peer closes instead, the source's loop goes on until the timeout, which is not part of the model.
- RpcChannels.RpcChannel.CallMethod: without the timeout event, and where the source would decode a null buffer it
  stops.
- RpcChannels.EveryCallIsTransparent: each request reaches the server completely, in a benign run (what an unfinished
  call has left unsent is dropped by the next one, as OneCall states; what the server then makes of the cut request is
  in CutRequestShifts and CutRequestMixes, and no series goes on from there), ids are unique, and where the bytes that
  have come do not leave a waiting fragment nothing is said (the decoder may then leave the vector or return a message
  nobody sent).
- RpcChannels.CallIsTransparent: what the server has sent and what it still has to send is taken as delivered; for
  replies that are cut short see EveryCallIsTransparent.
- TimerModel.EventsKeepTheirTurns: each event is added once by its creator, the clock does not run backwards within a
  callback of the timer, callbacks add only new events and do not touch their own, and nobody calls `SetCancel`
  (CancelledEventRepeats says why).
- EventLoopTasks.LoopTasks.Turn: a turn during which no other thread pushes or wakes; all other interleavings are in
  WakeupModel.
- TcpServers.TcpServer.constructor: the acceptor, the listening event and the timer events are not part of it.
- TimerArming.FiresAtTheFirstTick: that a tick follows an expiry without delay is left to the kernel and the loop;
  expiries carry no clock reading, and RunsKeepArmed bounds what the descriptor is armed for.
- TimerModel.FiringIsAdding: events are entries of a map under an identity, where the source shares pointers; the due
  events are different ones and callbacks add none of them.
- WakeupModel.TimelyWakeupsSuffice: a safety statement; that epoll_wait does return when the counter is positive is
  left to the kernel, and AwakeLoopGetsOn says what it then leads to. The extra wakeups of `Stop` only raise the
  counter.
- ServerModel.FailedAcceptEndsTheServer: with the information log on, the main thread dereferences the missing client
  address first (src/tcp/tcp_server.cpp:76), and the program ends there.
- ServerModel.DescriptorsStayInStep: accepting is one step, accepted descriptors are fresh, and a failed accept is
  treated apart in FailedAcceptEndsTheServer.
- ComputeService.AddAnswersTheSum: sums that overflow an int32, undefined in the source, are excluded.
