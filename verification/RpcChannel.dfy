/** The client's side of a call, and a whole call seen from the client. */
module RpcChannels {
  import opened Bytes
  import opened Options
  import opened TcpBuffers
  import opened TinyPbCoders
  import opened RpcDispatchers
  import opened M = ConnectionModel
  import opened TcpConnections

  /** The controller, the response object, and whether there is a closure and how often it has run. */
  datatype Call = Call(
    msgId: seq<byte>, errorCode: int, errorInfo: seq<byte>, isFailed: bool, isCanceled: bool, isFinished: bool,
    response: Option<seq<byte>>, hasDone: bool, doneRuns: nat)

  function FailedWith(c: Call, errorCode: int, errorInfo: seq<byte>): Call {
    c.(errorCode := errorCode, errorInfo := errorInfo, isFailed := true, isCanceled := true)
  }

  function Finished(c: Call): Call {
    c.(doneRuns := c.doneRuns + (if c.hasDone then 1 else 0), isFinished := true)
  }

  /** What a response does to the call it answers. */
  function Settled(parses: seq<byte> -> bool, c: Call, resp: Message): Call {
    if resp.errCode != 0 then Finished(FailedWith(c, ToInt32(resp.errCode), resp.errInfo))
    else if !parses(resp.pbData) then
      Finished(FailedWith(c, ERROR_FAILED_SERIALIZE, Text("serialize error")).(response := None))
    else Finished(c.(response := Some(resp.pbData)))
  }

  /** A call fails with the response's own code and text, or because its bytes do not parse, and only
      then; otherwise it holds the response's bytes and its error fields are as they were. In every case the
      closure, if there is one, runs once more. */
  lemma {:induction false} SettledTellsTheResponse(parses: seq<byte> -> bool, c: Call, resp: Message)
    ensures var s := Settled(parses, c, resp);
            && s.isFinished && s.msgId == c.msgId && s.hasDone == c.hasDone
            && s.doneRuns == (if c.hasDone then c.doneRuns + 1 else c.doneRuns)
            && (!c.isFailed ==> (s.isFailed <==> resp.errCode != 0 || !parses(resp.pbData)))
    ensures var s := Settled(parses, c, resp);
            resp.errCode != 0 ==>
              && s.errorCode == (if resp.errCode < 0x8000_0000 then resp.errCode else resp.errCode - 0x1_0000_0000)
              && s.errorInfo == resp.errInfo && s.isFailed && s.isCanceled && s.response == c.response
    ensures var s := Settled(parses, c, resp);
            resp.errCode == 0 && !parses(resp.pbData) ==>
              && s.errorCode == 10000004 && s.errorInfo == Text("serialize error")
              && s.isFailed && s.isCanceled && s.response == None
    ensures var s := Settled(parses, c, resp);
            resp.errCode == 0 && parses(resp.pbData) ==>
              && s.response == Some(resp.pbData) && s.errorCode == c.errorCode && s.errorInfo == c.errorInfo
              && s.isFailed == c.isFailed && s.isCanceled == c.isCanceled
  {
  }

  function Succeeds(parses: seq<byte> -> bool, resp: Message): bool {
    resp.errCode == 0 && parses(resp.pbData)
  }

  /** The loop over the decoded replies: others' replies are passed over, a failure ends the loop. */
  function Handled(parses: seq<byte> -> bool, id: seq<byte>, c: Call, replies: seq<Message>): Call
    decreases |replies|
  {
    if replies == [] then c
    else if replies[0].msgId != id then Handled(parses, id, c, replies[1..])
    else if !Succeeds(parses, replies[0]) then Settled(parses, c, replies[0])
    else Handled(parses, id, Settled(parses, c, replies[0]), replies[1..])
  }

  ghost predicate NoneFor(id: seq<byte>, replies: seq<Message>) {
    forall r <- replies :: r.msgId != id
  }

  lemma {:induction false} OthersAreIgnored(parses: seq<byte> -> bool, id: seq<byte>, c: Call, replies: seq<Message>)
    requires NoneFor(id, replies)
    ensures Handled(parses, id, c, replies) == c
    decreases |replies|
  {
    if replies != [] {
      OthersAreIgnored(parses, id, c, replies[1..]);
    }
  }

  /** With one reply of its own among others', a call is settled by that reply alone: the closure runs
      once more and the call is finished. */
  lemma {:induction false} OwnReplySettles(parses: seq<byte> -> bool, id: seq<byte>, c: Call,
                                           before: seq<Message>, own: Message, behind: seq<Message>)
    requires NoneFor(id, before) && NoneFor(id, behind) && own.msgId == id
    ensures Handled(parses, id, c, before + [own] + behind) == Settled(parses, c, own)
    ensures Settled(parses, c, own).isFinished
    ensures c.hasDone ==> Settled(parses, c, own).doneRuns == c.doneRuns + 1
    decreases |before|
  {
    var replies := before + [own] + behind;
    if before == [] {
      assert replies[1..] == behind;
      OthersAreIgnored(parses, id, Settled(parses, c, own), behind);
    } else {
      assert replies[1..] == before[1..] + [own] + behind;
      OwnReplySettles(parses, id, c, before[1..], own, behind);
    }
  }

  /** The first reply of its own that fails a call ends the matter, whatever stands behind it; a good one
      does not. */
  lemma {:induction false} FirstFailureEnds(parses: seq<byte> -> bool, id: seq<byte>, c: Call,
                                            before: seq<Message>, own: Message, behind: seq<Message>)
    requires NoneFor(id, before) && own.msgId == id
    ensures Handled(parses, id, c, before + [own] + behind)
            == if own.errCode != 0 || !parses(own.pbData) then Settled(parses, c, own)
               else Handled(parses, id, Settled(parses, c, own), behind)
    decreases |before|
  {
    hide Settled;
    var replies := before + [own] + behind;
    if before == [] {
      assert replies[1..] == behind;
    } else {
      assert replies[1..] == before[1..] + [own] + behind;
      FirstFailureEnds(parses, id, c, before[1..], own, behind);
    }
  }

  lemma {:induction false} HandledKeepsId(parses: seq<byte> -> bool, id: seq<byte>, c: Call, replies: seq<Message>)
    ensures Handled(parses, id, c, replies).msgId == c.msgId
    decreases |replies|
  {
    if replies != [] {
      HandledKeepsId(parses, id, if replies[0].msgId == id then Settled(parses, c, replies[0]) else c, replies[1..]);
    }
  }

  // ---------------------------------------------------------------- a whole call

  /** The id of a call: its own, or else a generated one. */
  function IdOf(c: Call, generatedId: seq<byte>): seq<byte> {
    if c.msgId == [] then generatedId else c.msgId
  }

  function RequestOf(c: Call, generatedId: seq<byte>, methodName: seq<byte>, pbData: seq<byte>): Message {
    F.Message(IdOf(c, generatedId), methodName, 0, [], pbData, 0, 0, 0, 0)
  }

  /** The outcome of a call, given what arrives before the client's socket first runs dry. */
  function Called(parses: seq<byte> -> bool, recv: View, c: Call, generatedId: seq<byte>,
                  reqPb: Option<seq<byte>>, arrived: seq<byte>): Call
    requires recv.Ok() && recv.data != [] && Sound(Absorb(recv, arrived))
  {
    var named := c.(msgId := IdOf(c, generatedId));
    if reqPb == None then Finished(FailedWith(named, ERROR_FAILED_SERIALIZE, Text("failed to serialize")))
    else Handled(parses, named.msgId, named, Decoded(Absorb(recv, arrived)).messages)
  }

  lemma {:induction false} StampsKeepIds(ms: seq<Message>, id: seq<byte>)
    requires NoneFor(id, ms)
    ensures NoneFor(id, F.StampAll(ms))
    decreases |ms|
  {
    if ms != [] {
      StampsKeepIds(ms[1..], id);
    }
  }

  /** A call goes out, and ends, with its own id, or with the generated one when it has none; its request
      carries no error. */
  lemma {:induction false} CallsAreNamed(parses: seq<byte> -> bool, recv: View, c: Call, generatedId: seq<byte>,
                                         methodName: seq<byte>, pbData: seq<byte>, arrived: seq<byte>)
    requires recv.Ok() && recv.data != [] && Sound(Absorb(recv, arrived))
    ensures var id := if |c.msgId| == 0 then generatedId else c.msgId;
            && RequestOf(c, generatedId, methodName, pbData) == F.Message(id, methodName, 0, [], pbData, 0, 0, 0, 0)
            && Called(parses, recv, c, generatedId, Some(pbData), arrived).msgId == id
            && Called(parses, recv, c, generatedId, None, arrived).msgId == id
  {
    hide Absorb, Decoded, Handled;
    HandledKeepsId(parses, IdOf(c, generatedId), c.(msgId := IdOf(c, generatedId)),
                   Decoded(Absorb(recv, arrived)).messages);
  }

  /** A request that does not serialize fails the call on the spot. */
  lemma {:induction false} UnserializableFails(parses: seq<byte> -> bool, recv: View, c: Call,
                                               generatedId: seq<byte>, arrived: seq<byte>)
    requires recv.Ok() && recv.data != [] && Sound(Absorb(recv, arrived))
    ensures var s := Called(parses, recv, c, generatedId, None, arrived);
            && s.isFinished && s.isFailed && s.isCanceled
            && s.errorCode == 10000004 && s.errorInfo == Text("failed to serialize")
            && s.doneRuns == (if c.hasDone then c.doneRuns + 1 else c.doneRuns) && s.response == c.response
  {
    hide Absorb, Decoded, Handled;
  }

  lemma {:induction false} SettledIgnoresStamps(parses: seq<byte> -> bool, c: Call, resp: Message)
    ensures Settled(parses, c, F.Stamped(resp)) == Settled(parses, c, resp) && F.Stamped(resp).msgId == resp.msgId
  {
  }

  /** Among replies to other calls, its response settles a call. */
  lemma {:induction false} ReplySettles(parses: seq<byte> -> bool, id: seq<byte>, c: Call, owed: seq<Message>,
                                        resp: Message)
    requires NoneFor(id, owed) && resp.msgId == id
    ensures Handled(parses, id, c, F.StampAll(owed + [resp])) == Settled(parses, c, resp)
  {
    hide F.Stamped, Settled, Handled;
    F.StampAllConcat(owed, [resp]);
    assert F.StampAll([resp]) == [F.Stamped(resp)] + F.StampAll([]) == [F.Stamped(resp)];
    StampsKeepIds(owed, id);
    SettledIgnoresStamps(parses, c, resp);
    OwnReplySettles(parses, id, c, F.StampAll(owed), F.Stamped(resp), []);
    assert F.StampAll(owed) + [F.Stamped(resp)] + [] == F.StampAll(owed) + [F.Stamped(resp)];
  }

  /** A beginning of a stream that splits into frames and a fragment: the frames are the first of the
      stream, and what the fragment goes on with are the others; all of them only at the very end. */
  lemma {:induction false} BeginningSplits(ns: seq<Message>, p: seq<byte>, all: seq<Message>, rest: seq<byte>)
    requires F.AllFit(ns) && F.AllFit(all) && F.IsFragment(p)
    requires F.Frames(ns) + p + rest == F.Frames(all)
    ensures |ns| <= |all| && F.StampAll(ns) == F.StampAll(all[..|ns|]) && p + rest == F.Frames(all[|ns|..])
    ensures |ns| == |all| <==> rest == []
  {
    hide F.Frame, F.IsFragment, F.Stamped, F.StampAll;
    NothingIsAFragment();
    assert F.Frames(ns) + (p + rest) == F.Frames(all) + [];
    F.StreamsPeel(ns, p + rest, all, []);
    assert p + rest == F.Frames(all[|ns|..]);
    if rest == [] {
      assert F.Frames([]) + p == p && F.Frames(all[|ns|..]) + [] == p;
      F.StreamsDecodeUniquely([], p, all[|ns|..], []);
      SameStampsSameLength([], all[|ns|..]);
    }
  }

  lemma {:induction false} SameStampsSameLength(a: seq<Message>, b: seq<Message>)
    requires F.StampAll(a) == F.StampAll(b)
    ensures |a| == |b|
  {
  }

  lemma {:induction false} EarlierRepliesSettleNothing(parses: seq<byte> -> bool, id: seq<byte>, c: Call,
                                                       owed: seq<Message>, n: nat)
    requires NoneFor(id, owed) && n <= |owed|
    ensures Handled(parses, id, c, F.StampAll(owed[..n])) == c
  {
    StampsKeepIds(owed[..n], id);
    OthersAreIgnored(parses, id, c, F.StampAll(owed[..n]));
  }

  /** The client is owed the replies to abandoned calls and then its own. Of these bytes some have come,
      cut anywhere that leaves a waiting fragment: the call is settled by its response if and only if that
      response has arrived in full; until then the call stays as it was. */
  lemma {:induction false} PartOfAReplySettlesNothing(client: View, arrived: seq<byte>, rest: seq<byte>,
                                                      owed: seq<Message>, resp: Message, ns: seq<Message>,
                                                      p: seq<byte>, parses: seq<byte> -> bool, id: seq<byte>, c: Call)
    requires client.Ok() && client.data != [] && Sound(Absorb(client, arrived))
    requires F.AllFit(owed) && F.Fits(resp) && NoneFor(id, owed) && resp.msgId == id
    requires client.Unread() + arrived + rest == F.Frames(owed + [resp])
    requires Splits(Absorb(client, arrived), ns, p)
    ensures var h := Handled(parses, id, c, Decoded(Absorb(client, arrived)).messages);
            && h == (if rest == [] then Settled(parses, c, resp) else c)
            && (!c.isFinished ==> (h.isFinished <==> rest == []))
    ensures var d := Decoded(Absorb(client, arrived));
            && d.stop != Undefined && d.rest.Shape() && |ns| <= |owed| + 1
            && d.rest.Unread() + rest == F.Frames((owed + [resp])[|ns|..])
            && (|ns| == |owed| + 1 <==> rest == [])
  {
    hide Absorb, Decoded, F.Frames, F.StampAll, F.IsFragment, Settled, Handled, ZeroFrom, AfterFrames, Waits;
    var all, recv := owed + [resp], Absorb(client, arrived);
    AbsorbAppends(client, arrived);
    NothingIsAFragment();
    FragmentIsLeft(recv, ns, p);
    BeginningSplits(ns, p, all, rest);
    if rest == [] {
      assert all[..|ns|] == all;
      ReplySettles(parses, id, c, owed, resp);
      SettledIsFinished(parses, c, resp);
    } else {
      assert all[..|ns|] == owed[..|ns|];
      EarlierRepliesSettleNothing(parses, id, c, owed, |ns|);
    }
  }

  lemma {:induction false} SettledIsFinished(parses: seq<byte> -> bool, c: Call, resp: Message)
    ensures Settled(parses, c, resp).isFinished
  {
  }

  lemma {:induction false} ShortHeader(m: Message)
    requires F.FrameLen(m) < 0x100
    ensures F.Frame(m)[..5] == [F.PB_START, 0, 0, 0, F.FrameLen(m)] && F.PB_START !in F.Frame(m)[..5][1..]
  {
    SmallNetBytes(F.FrameLen(m));
    assert F.Frame(m)[..5] == F.Header(m);
  }

  lemma {:induction false} FiveBytesAreAbsorbed(client: View, p: seq<byte>)
    requires client.Ok() && client.data != [] && client.read == 0 && client.Unread() == []
    requires |p| == 5 < |client.data| <= INT_MAX
    ensures var recv := Absorb(client, p);
            Sound(recv) && recv.read == 0 && recv.Unread() == p && |recv.data| == |client.data|
  {
    hide ZeroFrom;
    AbsorbAppends(client, p);
    FillAppends(client, p);
    assert p[..5] == p && p[5..] == [];
    assert Absorb(client, p) == Absorb(Gulped(client, p), []);
  }

  lemma {:induction false} PartIsFragment(p: seq<byte>, m: Message)
    requires F.Fits(m) && F.IsFragmentOf(p, m)
    ensures F.IsFragment(p)
  {
  }

  lemma {:induction false} NothingComesFirst(recv: View, p: seq<byte>)
    requires recv.Shape() && recv.Unread() == p && F.IsFragment(p) && Waits(recv)
    ensures Splits(recv, [], p)
  {
    assert F.Frames([]) + p == p;
  }

  lemma {:induction false} OneFrame(m: Message)
    ensures F.Frames([m]) == F.Frame(m) && F.TotalLen([m]) == F.FrameLen(m)
  {
    assert F.Frames([m]) == F.Frame(m) + F.Frames([]);
  }

  lemma {:induction false} LengthWordWaits(client: View, resp: Message, p: seq<byte>)
    requires client.Ok() && client.data != [] && client.read == 0 && client.Unread() == []
    requires F.FrameLen(resp) <= |client.data| <= INT_MAX && F.FrameLen(resp) < 0x100 && p == F.Frame(resp)[..5]
    ensures Sound(Absorb(client, p)) && Splits(Absorb(client, p), [], p)
  {
    ShortHeader(resp);
    hide F.Frame, Absorb, Waits, HeadEndInside, F.IsFragment, ZeroFrom, Splits;
    FiveBytesAreAbsorbed(client, p);
    var recv := Absorb(client, p);
    PartIsFragment(p, resp);
    WaitingNeedsRoom(recv, p, resp);
    FragmentWaits(recv, p);
    NothingComesFirst(recv, p);
  }

  /** A late reply can end a later call unfinished: when the replies to abandoned calls arrive and nothing
      else, they drain the client's socket, and the call returns as it was. */
  lemma {:induction false} LateRepliesEndTheCall(client: View, arrived: seq<byte>, owed: seq<Message>, resp: Message,
                                                 parses: seq<byte> -> bool, id: seq<byte>, c: Call)
    requires client.Ok() && client.data != [] && Sound(Absorb(client, arrived))
    requires F.AllFit(owed) && F.Fits(resp) && NoneFor(id, owed) && resp.msgId == id
    requires client.Unread() + arrived == F.Frames(owed)
    ensures Handled(parses, id, c, Decoded(Absorb(client, arrived)).messages) == c
    ensures var d := Decoded(Absorb(client, arrived));
            d.stop != Undefined && d.rest.Shape() && d.rest.Unread() == []
  {
    hide Absorb, Decoded, F.Frames, F.StampAll, F.Frame, Settled, Handled, ZeroFrom, AfterFrames;
    var recv := Absorb(client, arrived);
    AbsorbAppends(client, arrived);
    assert recv.Unread() == F.Frames(owed) + [];
    assert Splits(recv, owed, []);
    FramesConcat(owed, [resp]);
    OneFrame(resp);
    PartOfAReplySettlesNothing(client, arrived, F.Frame(resp), owed, resp, owed, [], parses, id, c);
    FragmentIsLeft(recv, owed, []);
  }

  /** A cut that leaves a call unfinished: the first five bytes of a short response. */
  lemma {:induction false} LengthWordAloneSettlesNothing(client: View, resp: Message, parses: seq<byte> -> bool,
                                                         c: Call)
    requires client.Ok() && client.data != [] && client.read == 0 && client.Unread() == []
    requires F.FrameLen(resp) <= |client.data| <= INT_MAX && F.FrameLen(resp) < 0x100
    ensures var arrived := F.Frame(resp)[..5];
            && Sound(Absorb(client, arrived))
            && Handled(parses, resp.msgId, c, Decoded(Absorb(client, arrived)).messages) == c
  {
    hide F.Frame, Absorb, Decoded, Handled, Settled, Splits, ZeroFrom, F.Frames;
    var f := F.Frame(resp);
    var p := f[..5];
    LengthWordWaits(client, resp, p);
    OneFrame(resp);
    assert p + f[5..] == f && [] + [resp] == [resp] && client.Unread() + p == p;
    PartOfAReplySettlesNothing(client, p, f[5..], [], resp, [], p, parses, resp.msgId, c);
  }

  // ---------------------------------------------------------------- calls over one connection

  /** A client and the server at the other end of its connection; `delivered` counts the bytes of the
      server's output that have reached the client's buffer. */
  datatype Link = Link(server: Session, client: View, delivered: nat)

  /** Between calls: the server has no part of a request, and what the client holds unread followed by
      what is still on its way are the replies owed to calls that were given up. */
  ghost predicate Linked(services: Registry, l: Link, owed: seq<Message>) {
    && Live(l.server) && Inv(services, l.server) && l.server.recv.Unread() == []
    && l.client.Ok() && 0 < |l.client.data| <= INT_MAX
    && l.delivered <= |Output(l.server)| && F.AllFit(owed)
    && l.client.Unread() + Output(l.server)[l.delivered..] == F.Frames(owed)
  }

  lemma {:induction false} LinkedIsOk(services: Registry, l: Link, owed: seq<Message>)
    requires Linked(services, l, owed)
    ensures l.server.recv.Ok()
  {
  }

  lemma {:induction false} FreshLink(services: Registry, server: Session, client: View)
    requires JustAccepted(server)
    requires client.Ok() && 0 < |client.data| <= INT_MAX && client.Unread() == []
    ensures Linked(services, Link(server, client, 0), [])
  {
    JustAcceptedIsLive(services, server);
  }

  /** A request that arrives, in any pieces the server can cope with, adds exactly one frame to the
      server's output, its response, however much the server has answered before. */
  lemma {:induction false} ServerRepliesOnce(services: Registry, server: Session, events: seq<Event>, req: Message)
    requires Live(server) && Inv(services, server) && server.recv.Unread() == []
    requires BenignRun(services, server, events) && F.Fits(req) && Arrived(events) == F.Frame(req)
    ensures var t := M.Run(services, server, events);
            && Live(t) && Inv(services, t) && t.recv.Unread() == []
            && Output(t) == Output(server) + F.Frame(Dispatched(services, req))
  {
    hide F.Frame, F.IsFragment, M.Run, BenignRun, Dispatched, ZeroFrom, F.Stamped, Inv;
    NothingIsAFragment();
    OneFrame(req);
    assert server.recv.Unread() + Arrived(events) == F.Frames([req]) + [];
    ServerGoesOnAnswering(services, server, events, [req], []);
    assert Responses(services, [req]) == [Dispatched(services, req)];
    OneFrame(Dispatched(services, req));
  }

  /** What a client is owed once the server has answered one more request. */
  lemma {:induction false} OwedGrows(services: Registry, l: Link, owed: seq<Message>, events: seq<Event>, req: Message)
    requires Linked(services, l, owed) && BenignRun(services, l.server, events)
    requires F.Fits(req) && Arrived(events) == F.Frame(req)
    ensures var t := M.Run(services, l.server, events);
            && Live(t) && Inv(services, t) && t.recv.Unread() == [] && l.delivered <= |Output(t)|
            && l.client.Unread() + Output(t)[l.delivered..] == F.Frames(owed + [Dispatched(services, req)])
  {
    hide F.Frame, F.IsFragment, M.Run, BenignRun, Dispatched, ZeroFrom, F.Stamped, Inv, F.Frames;
    ServerRepliesOnce(services, l.server, events, req);
    var resp, before := Dispatched(services, req), Output(l.server);
    FramesConcat(owed, [resp]);
    OneFrame(resp);
    assert (before + F.Frame(resp))[l.delivered..] == before[l.delivered..] + F.Frame(resp);
  }

  /** One call on a connection, and the events at the server while its request arrives. */
  datatype Exchange = Exchange(
    c: Call, generatedId: seq<byte>, methodName: seq<byte>, pbData: seq<byte>, events: seq<Event>)

  function RequestIn(x: Exchange): Message { RequestOf(x.c, x.generatedId, x.methodName, x.pbData) }

  /** The request arrives in a benign run; of what the server then owes the client, the bytes up to
      `l'.delivered` reach it before its socket runs dry. */
  ghost predicate Exchanged(services: Registry, l: Link, x: Exchange, l': Link) {
    && l.server.recv.Ok() && l.client.Ok() && l.client.data != []
    && F.Fits(RequestIn(x)) && Arrived(x.events) == F.Frame(RequestIn(x)) && F.Fits(Dispatched(services, RequestIn(x)))
    && BenignRun(services, l.server, x.events) && l'.server == M.Run(services, l.server, x.events)
    && l.delivered <= l'.delivered <= |Output(l'.server)|
    && var recv := Absorb(l.client, Output(l'.server)[l.delivered..l'.delivered]);
       Sound(recv) && (exists ns, p :: Splits(recv, ns, p)) && l'.client == Decoded(recv).rest
  }

  /** The outcome of a call whose response has arrived is that of its dispatch; another call is as before. */
  ghost predicate EndsAsDispatched(services: Registry, parses: seq<byte> -> bool, l: Link, x: Exchange, l': Link)
    requires Exchanged(services, l, x, l')
  {
    var named := x.c.(msgId := RequestIn(x).msgId);
    Called(parses, l.client, x.c, x.generatedId, Some(x.pbData), Output(l'.server)[l.delivered..l'.delivered])
    == if l'.delivered == |Output(l'.server)| then Settled(parses, named, Dispatched(services, RequestIn(x))) else named
  }

  /** One more call on a connection, after any calls before it, finished or given up. */
  lemma {:induction false} OneMoreCall(services: Registry, parses: seq<byte> -> bool, l: Link, owed: seq<Message>,
                                       x: Exchange, l': Link) returns (owed': seq<Message>)
    requires Linked(services, l, owed) && Exchanged(services, l, x, l') && NoneFor(RequestIn(x).msgId, owed)
    ensures EndsAsDispatched(services, parses, l, x, l')
    ensures Linked(services, l', owed')
    ensures forall m <- owed' :: m in owed || m.msgId == RequestIn(x).msgId
    ensures l'.delivered == |Output(l'.server)| ==> owed' == []
  {
    hide F.Frame, F.IsFragment, M.Run, BenignRun, Dispatched, ZeroFrom, F.Stamped, Inv, F.Frames, Splits, Decoded,
      Absorb, Handled, Settled, Live;
    var req, out := RequestIn(x), Output(l'.server);
    var resp := Dispatched(services, req);
    ResponseTellsTheCause(services, req);
    OwedGrows(services, l, owed, x.events, req);
    var arrived, rest := out[l.delivered..l'.delivered], out[l'.delivered..];
    assert out[l.delivered..] == arrived + rest;
    var recv := Absorb(l.client, arrived);
    var ns, p :| Splits(recv, ns, p);
    assert l.client.Unread() + arrived + rest == F.Frames(owed + [resp]);
    PartOfAReplySettlesNothing(l.client, arrived, rest, owed, resp, ns, p, parses, req.msgId, x.c.(msgId := req.msgId));
    AbsorbAppends(l.client, arrived);
    RestIsSound(recv);
    owed' := (owed + [resp])[|ns|..];
  }

  lemma {:induction false} RestIsSound(recv: View)
    requires Sound(recv) && recv.data != []
    ensures var rest := Decoded(recv).rest;
            rest.Ok() && 0 < |rest.data| <= INT_MAX
  {
    DecodingConserves(recv);
  }

  ghost predicate Series(services: Registry, links: seq<Link>, xs: seq<Exchange>) {
    && |links| == |xs| + 1
    && forall k :: 0 <= k < |xs| ==> Exchanged(services, links[k], xs[k], links[k + 1])
  }

  ghost predicate DistinctCalls(owed: seq<Message>, xs: seq<Exchange>) {
    && (forall x <- xs :: NoneFor(RequestIn(x).msgId, owed))
    && (forall i, j :: 0 <= i < j < |xs| ==> RequestIn(xs[i]).msgId != RequestIn(xs[j]).msgId)
  }

  /** Any series of calls on one connection, each with an id of its own: every call whose response reaches
      the client in time ends as its dispatch does, every other one is left unfinished, and no call is
      settled by a reply to another, however late that comes. */
  lemma {:induction false} EveryCallIsTransparent(services: Registry, parses: seq<byte> -> bool, links: seq<Link>,
                                                  xs: seq<Exchange>, owed: seq<Message>)
    requires Series(services, links, xs) && Linked(services, links[0], owed) && DistinctCalls(owed, xs)
    ensures forall k :: 0 <= k < |xs| ==> EndsAsDispatched(services, parses, links[k], xs[k], links[k + 1])
    decreases |xs|
  {
    hide Exchanged, EndsAsDispatched, Linked;
    if xs != [] {
      assert xs[0] in xs;
      var owed' := OneMoreCall(services, parses, links[0], owed, xs[0], links[1]);
      forall x <- xs[1..] ensures NoneFor(RequestIn(x).msgId, owed') {
        var j :| 1 <= j < |xs| && xs[j] == x;
        assert x in xs;
      }
      EveryCallIsTransparent(services, parses, links[1..], xs[1..], owed');
      forall k | 0 <= k < |xs| ensures EndsAsDispatched(services, parses, links[k], xs[k], links[k + 1]) {
        if k > 0 {
          assert links[1..][k - 1] == links[k] && xs[1..][k - 1] == xs[k] && links[1..][k] == links[k + 1];
        }
      }
    }
  }

  /** The same from a fresh connection, on which nothing is owed. */
  lemma {:induction false} CallsFromAFreshConnection(services: Registry, parses: seq<byte> -> bool, server: Session,
                                                     client: View, links: seq<Link>, xs: seq<Exchange>)
    requires JustAccepted(server)
    requires client.Ok() && 0 < |client.data| <= INT_MAX && client.Unread() == []
    requires Series(services, links, xs) && links[0] == Link(server, client, 0)
    requires forall i, j :: 0 <= i < j < |xs| ==> RequestIn(xs[i]).msgId != RequestIn(xs[j]).msgId
    ensures forall k :: 0 <= k < |xs| ==> EndsAsDispatched(services, parses, links[k], xs[k], links[k + 1])
  {
    hide Exchanged, EndsAsDispatched, Linked, JustAccepted, RequestIn;
    FreshLink(services, server, client);
    EveryCallIsTransparent(services, parses, links, xs, []);
  }

  /** One behind: with one reply owed, a call during which just that reply arrives is left unfinished, and
      its own reply is then owed, so that the next call is in the same position. */
  lemma {:induction false} OneBehindStaysOneBehind(services: Registry, parses: seq<byte> -> bool, l: Link,
                                                   late: Message, x: Exchange, l': Link)
    requires Linked(services, l, [late]) && Exchanged(services, l, x, l') && RequestIn(x).msgId != late.msgId
    requires l.client.Unread() + Output(l'.server)[l.delivered..l'.delivered] == F.Frame(late)
    ensures Called(parses, l.client, x.c, x.generatedId, Some(x.pbData), Output(l'.server)[l.delivered..l'.delivered])
            == x.c.(msgId := RequestIn(x).msgId)
    ensures Linked(services, l', [Dispatched(services, RequestIn(x))])
  {
    hide F.Frame, F.IsFragment, M.Run, BenignRun, Dispatched, ZeroFrom, F.Stamped, Inv, F.Frames, Splits, Decoded,
      Absorb, Handled, Settled, Live;
    var req, out := RequestIn(x), Output(l'.server);
    var resp := Dispatched(services, req);
    ResponseTellsTheCause(services, req);
    OwedGrows(services, l, [late], x.events, req);
    OneFrame(late);
    OneFrame(resp);
    FramesConcat([late], [resp]);
    var arrived := out[l.delivered..l'.delivered];
    assert out[l.delivered..] == arrived + out[l'.delivered..];
    assert F.Frame(late) + out[l'.delivered..] == F.Frame(late) + F.Frame(resp);
    SameTail(F.Frame(late), out[l'.delivered..], F.Frame(resp));
    LateRepliesEndTheCall(l.client, arrived, [late], resp, parses, req.msgId, x.c.(msgId := req.msgId));
    AbsorbAppends(l.client, arrived);
    RestIsSound(Absorb(l.client, arrived));
  }

  lemma {:induction false} SameTail(head: seq<byte>, a: seq<byte>, b: seq<byte>)
    requires head + a == head + b
    ensures a == b
  {
    assert a == (head + a)[|head|..] && b == (head + b)[|head|..];
  }

  lemma {:induction false} DeliveryIsExchange(services: Registry, l: Link, x: Exchange, t: Session,
                                              ns: seq<Message>, p: seq<byte>)
    requires l.server.recv.Ok() && l.client.Ok() && l.client.data != []
    requires F.Fits(RequestIn(x)) && Arrived(x.events) == F.Frame(RequestIn(x))
    requires F.Fits(Dispatched(services, RequestIn(x)))
    requires BenignRun(services, l.server, x.events) && t == M.Run(services, l.server, x.events)
    requires l.delivered <= |Output(t)| && Sound(Absorb(l.client, Output(t)[l.delivered..]))
    requires Splits(Absorb(l.client, Output(t)[l.delivered..]), ns, p)
    ensures Exchanged(services, l, x,
                      Link(t, Decoded(Absorb(l.client, Output(t)[l.delivered..])).rest, |Output(t)|))
  {
    hide F.Frame, M.Run, BenignRun, Dispatched, Decoded, Absorb, Splits, ZeroFrom;
    assert Output(t)[l.delivered..] == Output(t)[l.delivered..|Output(t)|];
  }

  /** A call over the wire ends as the dispatch of its request does, whatever has gone over the connection
      before. The request reaches the server in any arrivals it can cope with, all the server owes comes
      back before the client's socket runs dry, and replies to calls that were given up may come first:
      then the client's outcome is the one the dispatcher's own response gives, error code and text or
      response bytes, and the connection is ready for the next call. */
  lemma {:induction false} CallIsTransparent(services: Registry, l: Link, owed: seq<Message>, x: Exchange,
                                             parses: seq<byte> -> bool)
    requires Linked(services, l, owed) && NoneFor(RequestIn(x).msgId, owed)
    requires BenignRun(services, l.server, x.events)
    requires F.Fits(RequestIn(x)) && Arrived(x.events) == F.Frame(RequestIn(x))
    requires 4 * (F.TotalLen(owed) + F.FrameLen(Dispatched(services, RequestIn(x)))) <= INT_MAX
    ensures var req, t := RequestIn(x), M.Run(services, l.server, x.events);
            l.delivered <= |Output(t)| &&
            var arrived := Output(t)[l.delivered..];
            var recv := Absorb(l.client, arrived);
            && Sound(recv)
            && Decoded(recv).messages == F.StampAll(owed + [Dispatched(services, req)])
            && Called(parses, l.client, x.c, x.generatedId, Some(x.pbData), arrived)
               == Settled(parses, x.c.(msgId := req.msgId), Dispatched(services, req))
            && Linked(services, Link(t, Decoded(recv).rest, |Output(t)|), [])
            && Exchanged(services, l, x, Link(t, Decoded(recv).rest, |Output(t)|))
  {
    hide F.Frame, F.IsFragment, M.Run, BenignRun, Dispatched, ZeroFrom, F.Stamped, Inv, F.Frames, Decoded, Absorb,
      Handled, Settled, Live, AfterFrames, Exchanged;
    LinkedIsOk(services, l, owed);
    var req, t := RequestIn(x), M.Run(services, l.server, x.events);
    var resp := Dispatched(services, req);
    OwedGrows(services, l, owed, x.events, req);
    ResponseTellsTheCause(services, req);
    var all, arrived := owed + [resp], Output(t)[l.delivered..];
    TotalConcat(owed, [resp]);
    OneFrame(resp);
    F.FramesLength(all);
    AbsorbAppends(l.client, arrived);
    var recv := Absorb(l.client, arrived);
    assert recv.Unread() == F.Frames(all) + [];
    assert Splits(recv, all, []);
    FragmentIsLeft(recv, all, []);
    ReplySettles(parses, req.msgId, x.c.(msgId := req.msgId), owed, resp);
    RestIsSound(recv);
    NothingOwed();
    DeliveryIsExchange(services, l, x, t, all, []);
  }

  lemma {:induction false} TotalConcat(a: seq<Message>, b: seq<Message>)
    ensures F.TotalLen(a + b) == F.TotalLen(a) + F.TotalLen(b)
    decreases |a|
  {
    if a == [] {
      assert a + b == b;
    } else {
      assert (a + b)[1..] == a[1..] + b;
      TotalConcat(a[1..], b);
    }
  }

  lemma {:induction false} NothingOwed()
    ensures F.Frames([]) == []
  {
  }

  // ---------------------------------------------------------------- the objects of a call

  class Closure {
    var runs: nat

    method Run()
      modifies this
      ensures runs == old(runs) + 1
    {
      runs := runs + 1;
    }
  }

  class Response {
    const parses: seq<byte> -> bool
    var parsed: Option<seq<byte>>

    /** A failed parse leaves nothing usable behind. */
    method ParseFromString(data: seq<byte>) returns (ok: bool)
      modifies this
      ensures ok == parses(data)
      ensures parsed == if ok then Some(data) else None
    {
      ok := parses(data);
      parsed := if ok then Some(data) else None;
    }
  }

  class RpcController {
    var errorCode: int
    var errorInfo: seq<byte>
    var msgId: seq<byte>
    var isFailed: bool
    var isCanceled: bool
    var isFinished: bool

    method StartCancel()
      modifies this
      ensures isCanceled && isFailed && isFinished
      ensures unchanged(`errorCode, `errorInfo, `msgId)
    {
      isCanceled := true;
      isFailed := true;
      isFinished := true;
    }

    method SetError(code: int, info: seq<byte>)
      modifies this
      ensures errorCode == code && errorInfo == info && isFailed
      ensures unchanged(`msgId, `isCanceled, `isFinished)
    {
      errorCode := code;
      errorInfo := info;
      isFailed := true;
    }
  }

  ghost function Now(controller: RpcController, response: Response, done: Closure?): Call
    reads controller, response, done
  {
    Call(controller.msgId, controller.errorCode, controller.errorInfo, controller.isFailed, controller.isCanceled,
         controller.isFinished, response.parsed, done != null, if done != null then done.runs else 0)
  }

  method Fail(controller: RpcController, response: Response, done: Closure?, code: int, info: seq<byte>)
    modifies controller, done
    ensures Now(controller, response, done) == Finished(FailedWith(old(Now(controller, response, done)), code, info))
  {
    controller.StartCancel();
    controller.SetError(code, info);
    if done != null {
      done.Run();
    }
    controller.isFinished := true;
  }

  method HandleReplies(controller: RpcController, response: Response, done: Closure?, id: seq<byte>,
                       replies: seq<Message>)
    modifies controller, response, done
    ensures Now(controller, response, done)
            == Handled(response.parses, id, old(Now(controller, response, done)), replies)
  {
    var k := 0;
    ghost var was := Now(controller, response, done);
    assert replies[0..] == replies;
    while k < |replies|
      invariant 0 <= k <= |replies|
      invariant Handled(response.parses, id, Now(controller, response, done), replies[k..])
                == Handled(response.parses, id, was, replies)
    {
      assert replies[k..][1..] == replies[k + 1..];
      var resp := replies[k];
      k := k + 1;
      if resp.msgId != id {
        continue;
      }
      if resp.errCode != 0 {
        Fail(controller, response, done, ToInt32(resp.errCode), resp.errInfo);
        return;
      }
      var ok := response.ParseFromString(resp.pbData);
      if !ok {
        Fail(controller, response, done, ERROR_FAILED_SERIALIZE, Text("serialize error"));
        return;
      }
      if done != null {
        done.Run();
      }
      controller.isFinished := true;
    }
  }

  /** Decodes what has been received and settles the call by it. */
  method TakeReplies(dataToRecv: TcpBuffer, controller: RpcController, response: Response, done: Closure?,
                     id: seq<byte>)
    returns (defined: bool)
    requires dataToRecv.Valid()
    modifies dataToRecv, controller, response, done
    ensures dataToRecv.Valid()
    ensures dataToRecv.buffer == old(dataToRecv.buffer) || fresh(dataToRecv.buffer)
    ensures dataToRecv.State() == Decoded(old(dataToRecv.State())).rest
    ensures defined <==> Decoded(old(dataToRecv.State())).stop != Undefined
    ensures controller.msgId == old(controller.msgId)
    ensures Now(controller, response, done)
            == if !defined then old(Now(controller, response, done))
               else Handled(response.parses, id, old(Now(controller, response, done)),
                            Decoded(old(dataToRecv.State())).messages)
  {
    hide Decoded, Handled, ZeroFrom;
    var replies, stop := Decode(dataToRecv);
    if stop == Undefined {
      return false;
    }
    HandledKeepsId(response.parses, id, Now(controller, response, done), replies);
    HandleReplies(controller, response, done, id, replies);
    defined := true;
  }

  class RpcChannel {
    const conn: TcpConnection

    constructor (conn: TcpConnection)
      ensures this.conn == conn
    {
      this.conn := conn;
    }

    ghost predicate Ready()
      reads conn, conn.eventLoop, conn.recvBuffer, conn.recvBuffer.buffer, conn.sendBuffer, conn.sendBuffer.buffer
    {
      conn.Valid() && conn.kind == ByClient && !conn.faulted && conn.recvBuffer.buffer.Length > 0
    }

    static lemma {:induction false} WritingConserves(s: Session, taken: nat)
      ensures var t := AfterWrite(s, taken);
              && t.sent + t.pending == s.sent + s.pending
              && t.recv == s.recv && t.state == s.state && t.faulted == s.faulted
    {
      var n := Least(taken, |s.pending|);
      assert s.sent + s.pending[..n] + s.pending[n..] == s.sent + s.pending;
    }

    /** The write events that the event loop serves before it reads: bytes move from the connection to the
        kernel, in order and none lost; what has been received is not touched. */
    method ServeWrites(writes: nat)
      requires Ready() && conn.state == Connected
      modifies conn.connEvent, conn.eventLoop`listenFds, conn.eventLoop`interest
      modifies conn.sendBuffer, conn.socket`outbound, conn.socket`refusals
      ensures Ready() && (conn.sendBuffer.buffer == old(conn.sendBuffer.buffer) || fresh(conn.sendBuffer.buffer))
      ensures conn.Now().sent + conn.Now().pending == old(conn.Now().sent + conn.Now().pending)
      ensures conn.Now().recv == old(conn.Now().recv)
    {
      hide ZeroFrom, AfterWrite, View.Ok;
      for k := 0 to writes
        invariant Ready() && (conn.sendBuffer.buffer == old(conn.sendBuffer.buffer) || fresh(conn.sendBuffer.buffer))
        invariant conn.Now().sent + conn.Now().pending == old(conn.Now().sent + conn.Now().pending)
        invariant conn.Now().recv == old(conn.Now().recv)
      {
        ghost var was := conn.Now();
        ghost var taken := conn.OnWrite();
        WritingConserves(was, taken);
      }
    }

    /** The read event that stops the loop. */
    method ServeRead(arrived: seq<byte>)
      requires Ready() && conn.state == Connected
      requires conn.recvBuffer.State().Ok() && Sound(Absorb(conn.recvBuffer.State(), arrived))
      modifies conn, conn.connEvent, conn.eventLoop, conn.socket`inbound, conn.socket`ending
      modifies conn.recvBuffer, conn.recvBuffer.buffer, conn.sendBuffer, conn.sendBuffer.buffer
      ensures Ready() && old(conn.recvBuffer.State()).Ok() && conn.BuffersKept()
      ensures conn.Now() == old(conn.Now()).(recv := Absorb(old(conn.recvBuffer.State()), arrived), looping := false)
    {
      hide Absorb, Decoded, ZeroFrom, Adjusted;
      AbsorbAppends(conn.recvBuffer.State(), arrived);
      conn.socket.inbound, conn.socket.ending := arrived, Again;
      conn.OnRead();
    }

    /** The event loop of a call: some write events, then the read event that stops it, then write events
        that were queued behind that one. */
    method ServeLoop(writes: nat, arrived: seq<byte>, later: nat)
      requires Ready() && conn.state == Connected
      requires conn.recvBuffer.State().Ok() && Sound(Absorb(conn.recvBuffer.State(), arrived))
      modifies conn, conn.connEvent, conn.eventLoop, conn.socket
      modifies conn.recvBuffer, conn.recvBuffer.buffer, conn.sendBuffer, conn.sendBuffer.buffer
      ensures Ready() && conn.state == Connected && old(conn.recvBuffer.State()).Ok()
      ensures !conn.eventLoop.isLooping && conn.BuffersKept()
      ensures conn.Now().recv == Absorb(old(conn.recvBuffer.State()), arrived)
      ensures conn.Now().sent + conn.Now().pending == old(conn.Now().sent + conn.Now().pending)
    {
      hide Absorb, ZeroFrom, Adjusted, View.Ok, View.Unread;
      conn.eventLoop.isLooping := true;
      ServeWrites(writes);
      ServeRead(arrived);
      ServeWrites(later);
    }

    /** Hands the request to a connection that is up and runs the event loop. The connection's own buffer is
        what the caller is to decode; it gets none when the connection is not up. What an earlier request left
        unsent is dropped. */
    method OneCall(sendData: TcpBuffer, writes: nat, arrived: seq<byte>, later: nat) returns (recvData: TcpBuffer?)
      requires Ready() && sendData.Valid()
      requires sendData != conn.recvBuffer && sendData.buffer != conn.recvBuffer.buffer
      requires conn.recvBuffer.State().Ok() && Sound(Absorb(conn.recvBuffer.State(), arrived))
      modifies conn, conn.connEvent, conn.eventLoop, conn.socket, conn.recvBuffer, conn.recvBuffer.buffer
      modifies sendData, sendData.buffer
      ensures conn.Valid() && old(conn.recvBuffer.State()).Ok()
      ensures conn.recvBuffer.buffer == old(conn.recvBuffer.buffer) || fresh(conn.recvBuffer.buffer)
      ensures old(conn.state) != Connected ==>
                recvData == null && conn.Now() == old(conn.Now()) && conn.sendBuffer == old(conn.sendBuffer)
      ensures old(conn.state) == Connected ==>
                && recvData == conn.recvBuffer && conn.sendBuffer == sendData
                && conn.recvBuffer.State() == Absorb(old(conn.recvBuffer.State()), arrived)
                && conn.Now().sent + conn.Now().pending == old(conn.Now().sent) + old(sendData.Unread())
                && !conn.eventLoop.isLooping && conn.state == Connected && !conn.faulted
    {
      hide Absorb, Decoded, ZeroFrom, Adjusted;
      if conn.state != Connected {
        return null;
      }
      conn.sendBuffer := sendData;
      conn.ListenWriteEvent();
      ServeLoop(writes, arrived, later);
      recvData := conn.recvBuffer;
    }

    method SendAndReceive(req: Message, writes: nat, arrived: seq<byte>, later: nat) returns (recvData: TcpBuffer?)
      requires Ready() && F.Fits(req) && Half(F.FrameLen(req)) <= INT_MAX
      requires conn.recvBuffer.State().Ok() && Sound(Absorb(conn.recvBuffer.State(), arrived))
      modifies conn, conn.connEvent, conn.eventLoop, conn.socket, conn.recvBuffer, conn.recvBuffer.buffer
      ensures conn.Valid() && old(conn.recvBuffer.State()).Ok()
      ensures conn.recvBuffer.buffer == old(conn.recvBuffer.buffer) || fresh(conn.recvBuffer.buffer)
      ensures old(conn.state) != Connected ==> recvData == null && conn.Now() == old(conn.Now())
      ensures old(conn.state) == Connected ==>
                && recvData == conn.recvBuffer
                && conn.recvBuffer.State() == Absorb(old(conn.recvBuffer.State()), arrived)
                && conn.Now().sent + conn.Now().pending == old(conn.Now().sent) + F.Frame(req)
                && conn.state == Connected && !conn.faulted
    {
      hide Absorb, ZeroFrom, F.Frame, F.Fits, Half, Adjusted;
      var dataToSend := EncodeRequest(req);
      recvData := OneCall(dataToSend, writes, arrived, later);
    }

    static lemma {:induction false} StaysRoomy(recv: View, arrived: seq<byte>)
      requires recv.Ok() && recv.data != [] && Sound(Absorb(recv, arrived))
      ensures Decoded(Absorb(recv, arrived)).rest.data != []
    {
      AbsorbAppends(recv, arrived);
      RestIsSound(Absorb(recv, arrived));
    }

    /** A whole call without the timeout, after which the channel is ready for the next one. Not `defined`:
        there was no buffer to decode, because the connection was not up, or decoding the replies left the
        vector. */
    method CallMethod(methodName: seq<byte>, controller: RpcController, reqPb: Option<seq<byte>>, response: Response,
                      done: Closure?, generatedId: seq<byte>, writes: nat, arrived: seq<byte>, later: nat)
      returns (defined: bool)
      requires Ready() && conn.recvBuffer.State().Ok() && Sound(Absorb(conn.recvBuffer.State(), arrived))
      requires reqPb.Some? ==>
                 var c := Now(controller, response, done);
                 Half(F.FrameLen(RequestOf(c, generatedId, methodName, reqPb.value))) <= INT_MAX
      modifies controller, response, done
      modifies conn, conn.connEvent, conn.eventLoop, conn.socket, conn.recvBuffer, conn.recvBuffer.buffer
      ensures old(conn.recvBuffer.State()).Ok()
      ensures defined <==>
                || reqPb == None
                || (old(conn.state) == Connected
                    && Decoded(Absorb(old(conn.recvBuffer.State()), arrived)).stop != Undefined)
      ensures defined ==>
                Now(controller, response, done)
                == Called(response.parses, old(conn.recvBuffer.State()), old(Now(controller, response, done)),
                          generatedId, reqPb, arrived)
      ensures Ready() && conn.state == old(conn.state)
      ensures conn.recvBuffer.buffer == old(conn.recvBuffer.buffer) || fresh(conn.recvBuffer.buffer)
      ensures reqPb.Some? && old(conn.state) == Connected ==>
                conn.recvBuffer.State() == Decoded(Absorb(old(conn.recvBuffer.State()), arrived)).rest
      ensures controller.msgId == if |old(controller.msgId)| == 0 then generatedId else old(controller.msgId)
      ensures match reqPb
              case None => conn.Now() == old(conn.Now())
              case Some(pbData) =>
                var id := if |old(controller.msgId)| == 0 then generatedId else old(controller.msgId);
                var req := F.Message(id, methodName, 0, [], pbData, 0, 0, 0, 0);
                if old(conn.state) != Connected then conn.Now() == old(conn.Now())
                else conn.Now().sent + conn.Now().pending == old(conn.Now().sent) + F.Frame(req)
    {
      hide Absorb, Decoded, ZeroFrom, F.Frame, Handled, Text, View.Unread;
      if controller.msgId == [] {
        controller.msgId := generatedId;
      }
      var id := controller.msgId;
      if reqPb == None {
        Fail(controller, response, done, ERROR_FAILED_SERIALIZE, Text("failed to serialize"));
        return true;
      }
      var req := F.Message(id, methodName, 0, [], reqPb.value, 0, 0, 0, 0);
      var dataToRecv := SendAndReceive(req, writes, arrived, later);
      if dataToRecv == null {
        return false;
      }
      StaysRoomy(old(conn.recvBuffer.State()), arrived);
      defined := TakeReplies(dataToRecv, controller, response, done, id);
    }

    method EncodeRequest(req: Message) returns (dataToSend: TcpBuffer)
      requires F.Fits(req) && Half(F.FrameLen(req)) <= INT_MAX
      ensures fresh(dataToSend) && dataToSend.Valid() && fresh(dataToSend.buffer)
      ensures dataToSend.Unread() == F.Frame(req) != []
    {
      hide F.Stamped, ZeroFrom;
      dataToSend := new TcpBuffer(128);
      assert F.Frames([req]) == F.Frame(req);
      var stamped := Encode([req], dataToSend);
      assert [] + F.Frames([req]) == F.Frame(req);
    }
  }
}
