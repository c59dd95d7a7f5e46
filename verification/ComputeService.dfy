/** The example service of the documentation, as it is registered and called. */
module ComputeService {
  import opened Bytes
  import opened Options
  import opened TinyPbFrames
  import opened TcpBuffers
  import opened TinyPbCoders
  import opened RpcDispatchers
  import opened M = ConnectionModel
  import opened RpcChannels
  import opened ComputePb

  /** The sum does not overflow an `int32`; what the source does with other sums is undefined. The caller
      has set the two numbers and nothing else. */
  predicate SumFits(m: Request) {
    -0x8000_0000 <= m.x + m.y < 0x8000_0000 && m.unknown == []
  }

  /** `Add`: parses the request, adds, and answers with the one field of the response. */
  function Add(pbData: seq<byte>, skip: Skip): Invocation {
    match ParseFromString(pbData, skip)
    case None => Rejected
    case Some(m) => Replied(Field(TAG_X, Low32(Wrap32(m.x + m.y))))
  }

  function Compute(skip: Skip): Service {
    Service(Text("Compute"), map[Text("Add") := (pbData: seq<byte>) => Add(pbData, skip)])
  }

  lemma {:induction false} ComputeHasNoDot()
    ensures DOT !in Text("Compute")
  {
    var name := Text("Compute");
    assert name[0] == 67 && name[1] == 111 && name[2] == 109 && name[3] == 112;
    assert name[4] == 117 && name[5] == 116 && name[6] == 101;
  }

  lemma {:induction false} SmallSumOnTheWire(z: int32)
    requires 0 < z < 128
    ensures Field(TAG_X, z) == [8, z]
  {
  }

  lemma {:induction false} AddReplies(m: Request, skip: Skip)
    requires SumFits(m)
    ensures Add(Serialize(m), skip) == Replied(Field(TAG_X, m.x + m.y))
    ensures 0 < m.x + m.y < 128 ==> Field(TAG_X, m.x + m.y) == [8, m.x + m.y]
    ensures MergeStream(DEFAULT, Field(TAG_X, m.x + m.y), skip) == Parse(true, Request(m.x + m.y, 0, []), true)
  {
    hide Serialize, ParseFromString, Field, ReadVarint, WriteVarint;
    RequestRoundTrip(m, skip);
    if 0 < m.x + m.y < 128 {
      SmallSumOnTheWire(m.x + m.y);
    }
    SignSurvives(m.x + m.y);
    FieldMerges(DEFAULT, TAG_X, m.x + m.y, [], skip);
    assert Field(TAG_X, m.x + m.y) + [] == Field(TAG_X, m.x + m.y);
  }

  /** Once registered, a call of Compute.Add with any two numbers is answered with their sum. */
  lemma {:induction false} AddAnswersTheSum(services: Registry, skip: Skip, req: Message, m: Request)
    requires req.methodName == Qualified(Text("Compute"), Text("Add")) && req.pbData == Serialize(m) && SumFits(m)
    ensures var resp := Dispatched(services[Text("Compute") := Compute(skip)], req);
            && resp.errCode == 0 && resp.msgId == req.msgId
            && (0 < m.x + m.y < 128 ==> resp.pbData == [8, m.x + m.y])
            && MergeStream(DEFAULT, resp.pbData, skip) == Parse(true, Request(m.x + m.y, 0, []), true)
  {
    hide Dispatched, Serialize, Field, MergeStream, Add, Text;
    ComputeHasNoDot();
    AddReplies(m, skip);
    RegisteredMethodIsRun(services[Text("Compute") := Compute(skip)], Compute(skip), Text("Add"), req);
  }

  // ---------------------------------------------------------------- the example, end to end

  predicate OnlyWrites(events: seq<Event>) {
    forall e <- events :: e.Writable?
  }

  lemma {:induction false} WritesBringNothing(events: seq<Event>)
    requires OnlyWrites(events)
    ensures Arrived(events) == []
    decreases |events|
  {
    if events != [] {
      assert events[0] in events;
      WritesBringNothing(events[1..]);
    }
  }

  lemma {:induction false} OneReadArrives(before: seq<Event>, input: seq<byte>, behind: seq<Event>)
    requires OnlyWrites(before) && OnlyWrites(behind)
    ensures Arrived(before + [Readable(input, Again)] + behind) == input
    decreases |before|
  {
    var events := before + [Readable(input, Again)] + behind;
    if before == [] {
      assert events[1..] == behind;
      WritesBringNothing(behind);
    } else {
      assert before[0] in before;
      assert events[1..] == before[1..] + [Readable(input, Again)] + behind;
      OneReadArrives(before[1..], input, behind);
    }
  }

  function AddRequest(id: seq<byte>, m: Request): Message {
    Message(id, Qualified(Text("Compute"), Text("Add")), 0, [], Serialize(m), 0, 0, 0, 0)
  }

  lemma {:induction false} AddIsSmall(services: Registry, skip: Skip, id: seq<byte>, m: Request)
    requires SumFits(m)
    ensures FrameLen(AddRequest(id, m)) <= 55 + |id|
    ensures FrameLen(Dispatched(services[Text("Compute") := Compute(skip)], AddRequest(id, m))) <= 44 + |id|
  {
    hide Dispatched, Serialize, Field, MergeStream, Add, Text;
    var req := AddRequest(id, m);
    ByteSizeIsExact(m);
    ComputeHasNoDot();
    AddReplies(m, skip);
    SumIsSmall(m);
    RegisteredMethodIsRun(services[Text("Compute") := Compute(skip)], Compute(skip), Text("Add"), req);
  }

  lemma {:induction false} SumIsSmall(m: Request)
    requires SumFits(m)
    ensures |Field(TAG_X, m.x + m.y)| <= 11
  {
    SizeIsLength(m.x + m.y);
  }

  lemma {:induction false} AddArrivesWhole(services: Registry, req: Message, before: seq<Event>, behind: seq<Event>)
    requires OnlyWrites(before) && OnlyWrites(behind)
    requires 4 * FrameLen(req) <= INT_MAX && Fits(Dispatched(services, req))
    ensures WholeArrivals(services, before + [Readable(Frame(req), Again)] + behind)
  {
    hide Frame, Stamped, Dispatched;
    var ms := [req];
    StampsDoNotMatter(services, ms);
    assert Responses(services, ms) == [Dispatched(services, req)];
    assert Frames(ms) == Frame(req);
    assert TotalLen(ms) == FrameLen(req);
    assert IsWhole(services, Frame(req), ms);
  }

  /** The documentation's example: a client calls Compute.Add over a connection, with write events on the
      server in any number before and after the request comes in, and any calls before it, replies to some
      of which may still be owed. It ends with its closure run once, no error, and the sum as its response. */
  lemma {:induction false} AddOverTheWire(services: Registry, skip: Skip, l: Link, owed: seq<Message>,
                                          before: seq<Event>, behind: seq<Event>, parses: seq<byte> -> bool, c: Call,
                                          generatedId: seq<byte>, m: Request)
    requires SumFits(m) && 4 * (TotalLen(owed) + 55 + |IdOf(c, generatedId)|) <= INT_MAX
    requires Linked(services[Text("Compute") := Compute(skip)], l, owed) && |l.server.recv.data| <= INT_MAX
    requires NoneFor(IdOf(c, generatedId), owed)
    requires OnlyWrites(before) && OnlyWrites(behind)
    requires !c.isFailed && c.hasDone && parses(Field(TAG_X, m.x + m.y))
    ensures l.server.recv.Ok() && l.client.Ok() && l.client.data != []
    ensures var req := AddRequest(IdOf(c, generatedId), m);
            var events := before + [Readable(Frame(req), Again)] + behind;
            var out := Output(M.Run(services[Text("Compute") := Compute(skip)], l.server, events));
            l.delivered <= |out| && Sound(Absorb(l.client, out[l.delivered..])) &&
            var outcome := Called(parses, l.client, c, generatedId, Some(Serialize(m)), out[l.delivered..]);
            && outcome.isFinished && !outcome.isFailed && outcome.errorCode == c.errorCode
            && outcome.doneRuns == c.doneRuns + 1
            && outcome.response.Some?
            && MergeStream(DEFAULT, outcome.response.value, skip) == Parse(true, Request(m.x + m.y, 0, []), true)
  {
    hide Frame, Stamped, Dispatched, Text, Serialize, Field, MergeStream, M.Run, Absorb, ZeroFrom;
    hide Called, WholeArrivals, BenignRun, Arrived, Inv, Linked, Decoded;
    var all := services[Text("Compute") := Compute(skip)];
    var id := IdOf(c, generatedId);
    var req := AddRequest(id, m);
    var events := before + [Readable(Frame(req), Again)] + behind;
    LinkedIsIdle(all, l, owed);
    AddIsSmall(services, skip, id, m);
    OneReadArrives(before, Frame(req), behind);
    AddArrivesWhole(all, req, before, behind);
    WholeArrivalsAreBenign(all, l.server, events);
    var x := Exchange(c, generatedId, req.methodName, req.pbData, events);
    assert RequestIn(x) == req;
    CallIsTransparent(all, l, owed, x, parses);
    AddAnswersTheSum(services, skip, req, m);
    AddReplyIsTheSum(services, skip, req, m);
  }

  lemma {:induction false} LinkedIsIdle(services: Registry, l: Link, owed: seq<Message>)
    requires Linked(services, l, owed) && |l.server.recv.data| <= INT_MAX
    ensures Idle(l.server) && l.server.recv.Ok() && l.client.Ok() && l.client.data != []
  {
  }

  lemma {:induction false} AddReplyIsTheSum(services: Registry, skip: Skip, req: Message, m: Request)
    requires req.methodName == Qualified(Text("Compute"), Text("Add")) && req.pbData == Serialize(m) && SumFits(m)
    ensures Dispatched(services[Text("Compute") := Compute(skip)], req).pbData == Field(TAG_X, m.x + m.y)
  {
    hide Dispatched, Serialize, Field, MergeStream, Add, Text;
    ComputeHasNoDot();
    AddReplies(m, skip);
    RegisteredMethodIsRun(services[Text("Compute") := Compute(skip)], Compute(skip), Text("Add"), req);
  }
}
