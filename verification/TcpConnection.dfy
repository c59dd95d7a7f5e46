/** The connection object: its read, execute and write callbacks over two buffers and a socket. */
module TcpConnections {
  import opened Bytes
  import opened Options
  import opened TcpBuffers
  import opened TinyPbCoders
  import opened RpcDispatchers
  import opened EventLoopFds
  import opened ConnectionModel

  /** The kernel's side of a connection: the bytes that have arrived, what follows them, and the bytes
      it has taken for sending. How much a single call moves is the kernel's choice. */
  class Socket {
    var inbound: seq<byte>
    var ending: Ending
    var outbound: seq<byte>
    var refusals: nat              // how often it would take no more

    constructor (inbound: seq<byte>, ending: Ending)
      ensures this.inbound == inbound && this.ending == ending && outbound == [] && refusals == 0
    {
      this.inbound, this.ending, outbound, refusals := inbound, ending, [], 0;
    }

    /** `read`: the return value, and whether the error is "try again". */
    method Receive(buf: array<byte>, at: nat, size: nat) returns (ret: int, again: bool)
      requires at + size <= buf.Length
      modifies this`inbound, buf
      ensures size > 0 && old(inbound) != [] ==>
                && 0 < ret <= size && ret <= |old(inbound)|
                && inbound == old(inbound)[ret..]
                && buf[..] == old(buf[..at]) + old(inbound)[..ret] + old(buf[at + ret..])
      ensures size == 0 || old(inbound) == [] ==>
                && inbound == old(inbound) && buf[..] == old(buf[..])
                && ret == (if size == 0 || ending == Eof then 0 else -1)
                && (again <==> ending == Again)
    {
      again := ending == Again;
      if size == 0 {
        return 0, again;
      }
      if inbound == [] {
        return if ending == Eof then 0 else -1, again;
      }
      ret :| 0 < ret <= size && ret <= |inbound|;
      forall k | 0 <= k < ret {
        buf[at + k] := inbound[k];
      }
      inbound := inbound[ret..];
    }

    /** `write` that takes some bytes, or returns -1 with "try again". */
    method Transmit(buf: array<byte>, at: nat, size: nat) returns (ret: int)
      requires at + size <= buf.Length && 0 < size
      modifies this`outbound, this`refusals
      ensures ret == -1 || 0 < ret <= size
      ensures refusals == old(refusals) + if ret == -1 then 1 else 0
      ensures outbound == if ret == -1 then old(outbound) else old(outbound) + buf[at..at + ret]
    {
      var taken: int :| 0 <= taken <= size;
      ret := if taken == 0 then -1 else taken;
      if ret > 0 {
        outbound := outbound + buf[at..at + ret];
      } else {
        refusals := refusals + 1;
      }
    }
  }

  class TcpConnection {
    const connEvent: FdEvent
    const eventLoop: EventLoop
    const kind: Kind
    const socket: Socket
    const dispatcher: RpcDispatcher
    const recvBuffer: TcpBuffer
    var sendBuffer: TcpBuffer
    var state: ConnState
    var faulted: bool
    ghost var served: seq<Message>

    ghost predicate Valid()
      reads this, eventLoop, recvBuffer, recvBuffer.buffer, sendBuffer, sendBuffer.buffer
    {
      && recvBuffer != sendBuffer && recvBuffer.buffer != sendBuffer.buffer
      && recvBuffer.Valid() && sendBuffer.Valid() && eventLoop.Mirrors()
    }

    ghost function Registered(): Option<Mask>
      reads eventLoop
    {
      if connEvent.fd in eventLoop.interest then Some(eventLoop.interest[connEvent.fd]) else None
    }

    ghost function Now(): Session
      requires Valid()
      reads this, eventLoop, recvBuffer, recvBuffer.buffer, sendBuffer, sendBuffer.buffer, socket, connEvent
    {
      Session(state, recvBuffer.State(), sendBuffer.Unread(), socket.outbound, connEvent.events, Registered(),
              eventLoop.isLooping, served, faulted)
    }

    /** Asks for edge-triggered read events. The thread of the event loop registers the descriptor at once;
        any other thread, as the one that accepts connections, leaves that to a task for the loop. */
    constructor (connEvent: FdEvent, eventLoop: EventLoop, bufferSize: nat, kind: Kind, socket: Socket,
                 dispatcher: RpcDispatcher, ownThread: bool)
      requires bufferSize <= INT_MAX && eventLoop.Mirrors()
      modifies connEvent, eventLoop
      ensures Valid() && fresh(recvBuffer) && fresh(recvBuffer.buffer) && fresh(sendBuffer) && fresh(sendBuffer.buffer)
      ensures this.connEvent == connEvent && this.eventLoop == eventLoop && this.kind == kind
      ensures this.socket == socket && this.dispatcher == dispatcher
      ensures Now() == Session(NotConnected, View(Zeros(bufferSize), 0, 0), [], socket.outbound,
                               old(connEvent.events) + {IN, ET},
                               if ownThread then Some(old(connEvent.events) + {IN, ET})
                               else if connEvent.fd in old(eventLoop.interest)
                               then Some(old(eventLoop.interest)[connEvent.fd]) else None,
                               old(eventLoop.isLooping), [], false)
      ensures !ownThread ==> unchanged(eventLoop)
    {
      this.connEvent, this.eventLoop, this.kind := connEvent, eventLoop, kind;
      this.socket, this.dispatcher := socket, dispatcher;
      state := NotConnected;
      recvBuffer := new TcpBuffer(bufferSize);
      sendBuffer := new TcpBuffer(bufferSize);
      served, faulted := [], false;
      new;
      connEvent.SetFdEvent(IN);
      connEvent.SetEpollET();
      assert connEvent.events == old(connEvent.events) + {IN, ET};
      if ownThread {
        var ok := eventLoop.AddFdEventToEpoll(connEvent);
      }
    }

    /** The task that registers the descriptor in the loop's own thread. */
    method RegisterInLoop()
      requires Valid()
      modifies eventLoop`listenFds, eventLoop`interest
      ensures Valid() && Now() == old(Now()).(registered := Some(connEvent.events))
    {
      var ok := eventLoop.AddFdEventToEpoll(connEvent);
    }

    method ListenWriteEvent()
      requires Valid()
      modifies connEvent, eventLoop`listenFds, eventLoop`interest
      ensures Valid()
      ensures Now() == old(Now()).(events := old(connEvent.events) + {OUT, ET},
                                   registered := Some(old(connEvent.events) + {OUT, ET}))
    {
      connEvent.SetFdEvent(OUT);
      connEvent.SetEpollET();
      assert connEvent.events == old(connEvent.events) + {OUT, ET};
      var ok := eventLoop.AddFdEventToEpoll(connEvent);
    }

    method CancelListenWriteEvent()
      requires Valid()
      modifies connEvent, eventLoop`listenFds, eventLoop`interest
      ensures Valid()
      ensures Now() == old(Now()).(events := old(connEvent.events) - {OUT},
                                   registered := Some(old(connEvent.events) - {OUT}))
    {
      connEvent.CancelFdEvent(OUT);
      var ok := eventLoop.AddFdEventToEpoll(connEvent);
    }

    method Clear()
      requires Valid()
      modifies this`state, eventLoop`listenFds, eventLoop`interest
      ensures Valid() && Now() == if old(state) == Closed then old(Now()) else ClosedDown(old(Now()))
      ensures state == Closed
      ensures old(state) != Closed ==> connEvent.fd !in eventLoop.listenFds && connEvent.fd !in eventLoop.interest
    {
      if state == Closed {
        return;
      }
      var ok := eventLoop.DeleteFdEventFromEpoll(connEvent);
      state := Closed;
    }

    /** Nothing the events of the source object do may overflow an `int`. */
    ghost predicate CanHold(input: seq<byte>)
      requires Valid()
      reads this, eventLoop, recvBuffer, recvBuffer.buffer, sendBuffer, sendBuffer.buffer, dispatcher
    {
      recvBuffer.buffer.Length > 0 ==>
        var recv := Absorb(recvBuffer.State(), input);
        && recv.Ok() && |recv.data| <= INT_MAX
        && (kind == ByServer ==> CanAnswer(Decoded(recv).messages))
    }

    ghost predicate CanAnswer(requests: seq<Message>)
      reads this, sendBuffer, dispatcher
    {
      Half(sendBuffer.writeIndex + F.TotalLen(Responses(dispatcher.services, requests))) <= INT_MAX
    }

    /** A full buffer is doubled. */
    method MakeRoom()
      requires recvBuffer.Valid() && |Roomy(recvBuffer.State()).data| <= INT_MAX
      modifies recvBuffer
      ensures recvBuffer.Valid() && (recvBuffer.buffer == old(recvBuffer.buffer) || fresh(recvBuffer.buffer))
      ensures recvBuffer.State() == Roomy(old(recvBuffer.State()))
    {
      hide Rebased, ZeroFrom;
      FullBufferDoubles(recvBuffer.State());
      if recvBuffer.WriteAble() == 0 {
        recvBuffer.ResizeBuffer(2 * recvBuffer.buffer.Length);
      }
    }

    /** Reads until the kernel has nothing more to give; the buffer grows when it is full. */
    method ReadAll() returns (ending: Ending)
      requires Valid() && CanHold(socket.inbound)
      modifies recvBuffer, recvBuffer.buffer, socket`inbound
      ensures Valid() && (recvBuffer.buffer == old(recvBuffer.buffer) || fresh(recvBuffer.buffer))
      ensures old(recvBuffer.buffer.Length) == 0 ==>
                ending == Eof && recvBuffer.buffer.Length == 0 && recvBuffer.State() == old(recvBuffer.State())
                && socket.inbound == old(socket.inbound)
      ensures old(recvBuffer.buffer.Length) > 0 ==>
                && old(recvBuffer.State()).Ok()
                && recvBuffer.State() == Absorb(old(recvBuffer.State()), old(socket.inbound))
                && socket.inbound == [] && ending == socket.ending
    {
      ghost var start, input := recvBuffer.State(), socket.inbound;
      while true
        invariant Valid() && (recvBuffer.buffer == old(recvBuffer.buffer) || fresh(recvBuffer.buffer))
        invariant start.Ok() && (start.data == [] <==> recvBuffer.buffer.Length == 0)
        invariant start.data == [] ==> recvBuffer.State() == start && socket.inbound == input
        invariant start.data != [] ==>
                    Absorb(recvBuffer.State(), socket.inbound) == Absorb(start, input)
        decreases |socket.inbound|
      {
        ghost var v := recvBuffer.State();
        RoomyOffersSpace(v);
        if v.data != [] {
          AbsorbAppends(v, socket.inbound);
        }
        MakeRoom();
        var done;
        done, ending := ReadChunk(v);
        if done {
          return;
        }
      }
    }

    /** Makes bytes that the kernel has placed behind the write index part of the unread bytes. */
    method TakeIn(ghost v: View, ghost chunk: seq<byte>, ret: nat)
      requires v.Ok() && v.data != [] && ret == |chunk| <= Roomy(v).WriteAble()
      requires Roomy(v).Ok() && recvBuffer.State() == Stored(Roomy(v), chunk)
      requires recvBuffer.buffer.Length <= INT_MAX
      modifies recvBuffer
      ensures recvBuffer.Valid() && (recvBuffer.buffer == old(recvBuffer.buffer) || fresh(recvBuffer.buffer))
      ensures recvBuffer.State() == Gulped(v, chunk)
    {
      hide Rebased, Adjusted, Resized, ZeroFrom, Roomy;
      StoredIsMovable(Roomy(v), chunk);
      recvBuffer.MoveWriteIndex(ret);
    }

    /** `read` into the space behind the write index, which does not move. */
    method Fetch() returns (ret: int, again: bool)
      requires recvBuffer.State().Shape()
      modifies recvBuffer.buffer, socket`inbound
      ensures recvBuffer.State().Shape()
      ensures old(recvBuffer.State()).WriteAble() > 0 && old(socket.inbound) != [] ==>
                && 0 < ret <= |old(socket.inbound)| && ret <= old(recvBuffer.State()).WriteAble()
                && socket.inbound == old(socket.inbound)[ret..]
                && recvBuffer.State() == Stored(old(recvBuffer.State()), old(socket.inbound)[..ret])
      ensures old(recvBuffer.State()).WriteAble() == 0 || old(socket.inbound) == [] ==>
                && socket.inbound == old(socket.inbound) && recvBuffer.State() == old(recvBuffer.State())
                && ret == (if old(recvBuffer.State()).WriteAble() == 0 || socket.ending == Eof then 0 else -1)
                && (again <==> socket.ending == Again)
    {
      var writeSize := recvBuffer.WriteAble();
      var writeStart := recvBuffer.writeIndex;
      ret, again := socket.Receive(recvBuffer.buffer, writeStart, writeSize);
      assert recvBuffer.buffer.Length == |recvBuffer.buffer[..]|;
      assert ret > 0 ==> old(recvBuffer.buffer[..writeStart]) == old(recvBuffer.buffer[..])[..writeStart];
      assert ret > 0 ==> old(recvBuffer.buffer[writeStart + ret..]) == old(recvBuffer.buffer[..])[writeStart + ret..];
    }

    /** One `read`, whatever number of bytes it brings. */
    method ReadChunk(ghost v: View) returns (done: bool, ending: Ending)
      requires Valid() && v.Ok() && recvBuffer.State() == Roomy(v)
      modifies recvBuffer, recvBuffer.buffer, socket`inbound
      ensures Valid() && (recvBuffer.buffer == old(recvBuffer.buffer) || fresh(recvBuffer.buffer))
      ensures done ==> recvBuffer.State() == Roomy(v) && socket.inbound == old(socket.inbound)
      ensures done ==>
                if v.data == [] then ending == Eof else socket.inbound == [] && ending == socket.ending
      ensures !done ==> v.data != [] && recvBuffer.buffer.Length > 0 && |socket.inbound| < |old(socket.inbound)|
      ensures !done ==> Absorb(recvBuffer.State(), socket.inbound) == Absorb(v, old(socket.inbound))
    {
      hide Absorb, Rebased, Adjusted, Resized, ZeroFrom, Roomy, Stored;
      RoomyOffersSpace(v);
      var ret, again := Fetch();
      if ret == 0 {
        return true, Eof;
      }
      if ret == -1 {
        return true, if again then Again else Failed;
      }
      ghost var chunk := old(socket.inbound)[..ret];
      TakeIn(v, chunk, ret);
      ChunkingIsIrrelevant(v, chunk, socket.inbound);
      assert old(socket.inbound) == chunk + socket.inbound;
      done, ending := false, Again;
    }

    method DispatchAll(requests: seq<Message>) returns (replies: seq<Message>)
      ensures replies == Responses(dispatcher.services, requests)
    {
      hide Dispatched;
      replies := [];
      var k := 0;
      assert requests[0..] == requests;
      while k < |requests|
        invariant 0 <= k <= |requests|
        invariant replies + Responses(dispatcher.services, requests[k..]) == Responses(dispatcher.services, requests)
      {
        assert requests[k..][1..] == requests[k + 1..];
        var resp := dispatcher.Dispatch(requests[k]);
        replies := replies + [resp];
        k := k + 1;
      }
    }

    /** Dispatches requests, encodes their responses and asks for write events. */
    method Answer(requests: seq<Message>)
      requires Valid() && CanAnswer(requests)
      modifies this`served, connEvent, eventLoop`listenFds, eventLoop`interest, sendBuffer, sendBuffer.buffer
      ensures Valid() && BuffersKept()
      ensures F.AllFit(Responses(dispatcher.services, requests))
      ensures Now() == Answered(dispatcher.services, old(Now()), requests)
    {
      hide Responses, F.Frames, F.AllFit, F.Stamped, F.StampAll, ZeroFrom;
      F.SmallTotalFits(Responses(dispatcher.services, requests));
      var replies := DispatchAll(requests);
      var stamped := Encode(replies, sendBuffer);
      served := served + requests;
      ListenWriteEvent();
    }

    /** Decodes what has been received, dispatches it and encodes the responses. */
    method Execute()
      requires Valid() && CanAnswer(Decoded(recvBuffer.State()).messages)
      modifies this`faulted, this`served, connEvent, eventLoop`listenFds, eventLoop`interest
      modifies recvBuffer, sendBuffer, sendBuffer.buffer
      ensures Valid() && BuffersKept()
      ensures Now() == Executed(dispatcher.services, old(Now()))
    {
      hide Decoded, Responses, F.Frames, F.AllFit, ZeroFrom;
      var requests, stop := Decode(recvBuffer);
      if stop == Undefined {
        faulted := true;
        return;
      }
      Answer(requests);
    }

    twostate predicate BuffersKept()
      reads this, recvBuffer, sendBuffer
    {
      && sendBuffer == old(sendBuffer)
      && (recvBuffer.buffer == old(recvBuffer.buffer) || fresh(recvBuffer.buffer))
      && (sendBuffer.buffer == old(sendBuffer.buffer) || fresh(sendBuffer.buffer))
    }

    /** What OnRead does once the socket has nothing more to give. */
    method Conclude(ending: Ending)
      requires Valid() && state != Closed
      requires ending == Again && kind == ByServer ==> CanAnswer(Decoded(recvBuffer.State()).messages)
      modifies this`state, this`faulted, this`served, connEvent, eventLoop
      modifies recvBuffer, sendBuffer, sendBuffer.buffer
      ensures Valid() && BuffersKept()
      ensures Now() == Concluded(dispatcher.services, kind, old(Now()), ending)
      ensures ending == Eof ==>
                state == Closed && connEvent.fd !in eventLoop.listenFds && connEvent.fd !in eventLoop.interest
    {
      hide Executed, Decoded, CanAnswer, ZeroFrom;
      if ending == Eof {
        Clear();
        return;
      }
      if ending == Failed {
        return;
      }
      if kind == ByClient {
        eventLoop.Stop();
        return;
      }
      Execute();
    }

    method OnRead()
      requires Valid() && CanHold(socket.inbound)
      modifies this`state, this`faulted, this`served, connEvent, eventLoop, socket`inbound
      modifies recvBuffer, recvBuffer.buffer, sendBuffer, sendBuffer.buffer
      ensures Valid() && BuffersKept()
      ensures !old(faulted) ==>
                && old(recvBuffer.State()).Ok()
                && Now() == AfterRead(dispatcher.services, kind, old(Now()), old(socket.inbound), old(socket.ending))
      ensures old(state) == Connected && old(socket.ending) == Eof ==>
                state == Closed && connEvent.fd !in eventLoop.listenFds && connEvent.fd !in eventLoop.interest
    {
      hide Absorb, Executed, Decoded, Responses, ZeroFrom;
      if state != Connected {
        return;
      }
      if recvBuffer.buffer.Length > 0 {
        AbsorbAppends(recvBuffer.State(), socket.inbound);
      }
      var ending := ReadAll();
      Conclude(ending);
    }

    /** One `write` of all that waits; nothing taken means that the socket is full. */
    method WriteChunk() returns (n: nat)
      requires Valid() && Now().pending != []
      modifies sendBuffer, socket`outbound, socket`refusals
      ensures Valid() && BuffersKept() && n <= |old(Now()).pending|
      ensures n == 0 <==> socket.refusals > old(socket.refusals)
      ensures n > 0 ==> socket.refusals == old(socket.refusals)
      ensures Now() == Handed(old(Now()), n)
    {
      hide Adjusted, MovedRead, ZeroFrom;
      var readSize := sendBuffer.ReadAble();
      var readStart := sendBuffer.readIndex;
      var ret := socket.Transmit(sendBuffer.buffer, readStart, readSize);
      if ret == -1 {
        HandedInPortions(Now(), 0, 0);
        return 0;
      }
      assert sendBuffer.buffer[readStart..readStart + ret] == sendBuffer.Unread()[..ret];
      sendBuffer.MoveReadIndex(ret);
      n := ret;
    }

    method NothingToSend() returns (empty: bool)
      requires Valid()
      ensures empty <==> Now().pending == []
    {
      empty := sendBuffer.ReadAble() == 0;
    }

    /** Writes until the send buffer is empty or the kernel takes no more; `taken` counts the bytes. */
    method WriteAll() returns (isWriteAll: bool, ghost taken: nat)
      requires Valid()
      modifies sendBuffer, socket`outbound, socket`refusals
      ensures Valid() && BuffersKept() && taken <= |old(Now()).pending|
      ensures Now() == Handed(old(Now()), taken)
      ensures isWriteAll <==> Now().pending == []
      ensures Now().pending == [] || socket.refusals > old(socket.refusals)
    {
      hide Valid, Now, Handed;
      taken := 0;
      ghost var was := Now();
      HandedInPortions(was, 0, 0);
      while true
        invariant Valid() && BuffersKept()
        invariant 0 <= taken <= |was.pending| && Now() == Handed(was, taken)
        invariant socket.refusals == old(socket.refusals)
        decreases |was.pending| - taken
      {
        HandedInPortions(was, taken, 0);
        var empty := NothingToSend();
        if empty {
          return true, taken;
        }
        var n := WriteChunk();
        if n == 0 {
          return false, taken;
        }
        HandedInPortions(was, taken, n);
        taken := taken + n;
      }
    }

    method OnWrite() returns (ghost taken: nat)
      requires Valid()
      modifies connEvent, eventLoop`listenFds, eventLoop`interest, sendBuffer, socket`outbound, socket`refusals
      ensures Valid() && BuffersKept() && taken <= |old(Now()).pending|
      ensures !old(faulted) ==> Now() == AfterWrite(old(Now()), taken)
      ensures old(state) == Connected ==> Now().pending == [] || socket.refusals > old(socket.refusals)
    {
      hide View.Ok;
      taken := 0;
      if state != Connected {
        return;
      }
      var isWriteAll;
      isWriteAll, taken := WriteAll();
      if isWriteAll {
        CancelListenWriteEvent();
      }
    }
  }
}
