/** A connection as a state machine: what one readable or writable event does to it, and what every
    run of events keeps. */
module ConnectionModel {
  import opened Bytes
  import opened Options
  import opened TcpBuffers
  import F = TinyPbFrames
  import opened TinyPbCoders
  import opened RpcDispatchers
  import opened EventLoopFds

  type Message = F.Message

  datatype ConnState = NotConnected | Connected | Closed

  datatype Kind = ByServer | ByClient

  /** How a series of reads ends: the socket is empty for now, the peer has closed, or `read` fails. */
  datatype Ending = Again | Eof | Failed

  /** `pending` is the unread part of the send buffer and `sent` what the kernel has taken; `events` is
      the connection's event mask and `registered` the kernel's entry for its descriptor. `served` logs
      the requests that were dispatched. `faulted`: the source's behaviour is undefined from here on. */
  datatype Session = Session(
    state: ConnState, recv: View, pending: seq<byte>, sent: seq<byte>,
    events: Mask, registered: Option<Mask>, looping: bool, served: seq<Message>, faulted: bool)

  datatype Event = Readable(input: seq<byte>, ending: Ending) | Writable(taken: nat)

  function Responses(services: Registry, requests: seq<Message>): (r: seq<Message>)
    ensures |r| == |requests|
  {
    if requests == [] then [] else [Dispatched(services, requests[0])] + Responses(services, requests[1..])
  }

  /** Requests are dispatched, their responses wait to be sent, and write events are asked for. */
  function Answered(services: Registry, s: Session, requests: seq<Message>): Session {
    s.(served := s.served + requests, pending := s.pending + F.Frames(Responses(services, requests)),
       events := s.events + {OUT, ET}, registered := Some(s.events + {OUT, ET}))
  }

  /** Decode, dispatch and encode, then ask for write events. */
  function Executed(services: Registry, s: Session): Session
    requires Sound(s.recv)
  {
    var d := Decoded(s.recv);
    var replies := Responses(services, d.messages);
    if d.stop == Undefined || !F.AllFit(replies) then s.(recv := d.rest, faulted := true)
    else Answered(services, s.(recv := d.rest), d.messages)
  }

  function ClosedDown(s: Session): Session {
    s.(state := Closed, registered := None)
  }

  /** What follows the reads, according to how they ended. */
  function Concluded(services: Registry, kind: Kind, s: Session, ending: Ending): Session
    requires Sound(s.recv)
  {
    match ending
    case Failed => s
    case Eof => ClosedDown(s)
    case Again =>
      match kind
      case ByClient => s.(looping := false)
      case ByServer => Executed(services, s)
  }

  function AfterRead(services: Registry, kind: Kind, s: Session, input: seq<byte>, ending: Ending): Session
    requires s.recv.Ok()
  {
    if s.faulted || s.state != Connected then s
    else if s.recv.data == [] then ClosedDown(s)     // a read into no space returns 0
    else
      AbsorbAppends(s.recv, input);
      var recv := Absorb(s.recv, input);
      if |recv.data| > INT_MAX then s.(faulted := true) else Concluded(services, kind, s.(recv := recv), ending)
  }

  /** The kernel has taken n of the waiting bytes. */
  function Handed(s: Session, n: nat): Session
    requires n <= |s.pending|
  {
    s.(sent := s.sent + s.pending[..n], pending := s.pending[n..])
  }

  lemma {:induction false} HandedInPortions(s: Session, a: nat, b: nat)
    requires a + b <= |s.pending|
    ensures Handed(s, 0) == s && |Handed(s, a).pending| == |s.pending| - a
    ensures Handed(Handed(s, a), b) == Handed(s, a + b)
  {
    assert s.sent + s.pending[..a] + s.pending[a..][..b] == s.sent + s.pending[..a + b];
    assert s.pending[a..][b..] == s.pending[a + b..];
    assert s.sent + s.pending[..0] == s.sent && s.pending[0..] == s.pending;
  }

  /** The kernel takes as many bytes as given, in any number of portions, and then the buffer is empty
      or the socket is full. */
  function AfterWrite(s: Session, taken: nat): Session {
    if s.faulted || s.state != Connected then s
    else
      var t := Handed(s, Least(taken, |s.pending|));
      if t.pending == [] then t.(events := s.events - {OUT}, registered := Some(s.events - {OUT})) else t
  }

  function Step(services: Registry, s: Session, e: Event): Session
    requires s.recv.Ok()
  {
    match e
    case Readable(input, ending) => AfterRead(services, ByServer, s, input, ending)
    case Writable(taken) => AfterWrite(s, taken)
  }

  // ---------------------------------------------------------------- what a single event does

  /** How a series of reads ends decides everything: at end of stream the connection is closed and watched no
      more, whatever has just been received; a failing read changes nothing else; a client's read stops its
      loop. */
  lemma {:induction false} ReadsEnd(services: Registry, kind: Kind, s: Session, input: seq<byte>)
    requires s.state == Connected && !s.faulted && s.recv.Ok() && s.recv.data != []
    requires |Absorb(s.recv, input).data| <= INT_MAX
    ensures var recv := Absorb(s.recv, input);
            && AfterRead(services, kind, s, input, Eof) == s.(recv := recv, state := Closed, registered := None)
            && AfterRead(services, kind, s, input, Failed) == s.(recv := recv)
            && AfterRead(services, ByClient, s, input, Again) == s.(recv := recv, looping := false)
  {
    hide Absorb, View.Ok;
    AbsorbAppends(s.recv, input);
  }

  /** A buffer of no size at all reads as end of stream. */
  lemma {:induction false} NoBufferCloses(services: Registry, kind: Kind, s: Session, input: seq<byte>, ending: Ending)
    requires s.state == Connected && !s.faulted && s.recv.Ok() && s.recv.data == []
    ensures AfterRead(services, kind, s, input, ending) == s.(state := Closed, registered := None)
  {
  }

  /** A connection that is not up takes no notice of events, however many. */
  lemma {:induction false} DownStaysDown(services: Registry, s: Session, events: seq<Event>)
    requires s.recv.Ok() && s.state != Connected
    ensures Run(services, s, events) == s
    decreases |events|
  {
    hide View.Ok;
    if events != [] {
      DownStaysDown(services, s, events[1..]);
    }
  }

  /** A writable event hands over the bytes the kernel takes, first to last, and gives up write interest, in
      the mask and in the kernel, exactly when none are left. */
  lemma {:induction false} WritingHandsOver(s: Session, taken: nat)
    requires s.state == Connected && !s.faulted
    ensures var t := AfterWrite(s, taken);
            && t.sent + t.pending == s.sent + s.pending
            && (taken <= |s.pending| ==> |t.sent| == |s.sent| + taken)
            && (taken >= |s.pending| ==> t.pending == [])
            && (if t.pending == [] then t.events == s.events - {OUT} && t.registered == Some(s.events - {OUT})
                else t.events == s.events && t.registered == s.registered)
            && t == s.(sent := t.sent, pending := t.pending, events := t.events, registered := t.registered)
  {
    var n := Least(taken, |s.pending|);
    assert s.sent + s.pending[..n] + s.pending[n..] == s.sent + s.pending;
  }

  /** A server's read from which everything decodes: the requests are logged, their responses wait behind those
      before, and write interest is asked for, in the mask and in the kernel; nothing else happens. */
  lemma {:induction false} ExecutingAnswers(services: Registry, s: Session)
    requires Sound(s.recv) && Decoded(s.recv).stop != Undefined
    requires F.AllFit(Responses(services, Decoded(s.recv).messages))
    ensures var t, requests := Executed(services, s), Decoded(s.recv).messages;
            && |Responses(services, requests)| == |requests|
            && (forall k :: 0 <= k < |requests| ==>
                  Responses(services, requests)[k] == Dispatched(services, requests[k]))
            && t == s.(recv := Decoded(s.recv).rest, served := s.served + requests,
                       pending := s.pending + F.Frames(Responses(services, requests)),
                       events := s.events + {OUT, ET}, registered := Some(s.events + {OUT, ET}))
  {
    hide Decoded, F.Frames, F.AllFit, View.Ok;
    ResponsesOneByOne(services, Decoded(s.recv).messages);
  }

  lemma {:induction false} ResponsesOneByOne(services: Registry, requests: seq<Message>)
    ensures forall k :: 0 <= k < |requests| ==> Responses(services, requests)[k] == Dispatched(services, requests[k])
    decreases |requests|
  {
    hide Dispatched;
    if requests != [] {
      ResponsesOneByOne(services, requests[1..]);
    }
  }

  // ---------------------------------------------------------------- what every step keeps

  /** The bytes handed to the kernel and those still waiting are the encoded responses to the requests
      served so far, in order. */
  ghost predicate SendsResponses(services: Registry, s: Session) {
    s.sent + s.pending == F.Frames(Responses(services, s.served))
  }

  /** While there is something to send, the kernel watches the connection for write events. */
  ghost predicate WatchesWrites(s: Session) {
    s.state == Connected ==>
      s.registered == Some(s.events) && IN in s.events && (s.pending != [] ==> OUT in s.events)
  }

  ghost predicate Inv(services: Registry, s: Session) {
    s.recv.Ok() && SendsResponses(services, s) && WatchesWrites(s)
  }

  lemma {:induction false} ResponsesConcat(services: Registry, a: seq<Message>, b: seq<Message>)
    ensures Responses(services, a + b) == Responses(services, a) + Responses(services, b)
    decreases |a|
  {
    if a == [] {
      assert a + b == b;
    } else {
      assert (a + b)[1..] == a[1..] + b;
      ResponsesConcat(services, a[1..], b);
    }
  }

  lemma {:induction false} FramesConcat(a: seq<Message>, b: seq<Message>)
    ensures F.Frames(a + b) == F.Frames(a) + F.Frames(b)
    decreases |a|
  {
    hide F.Frame;
    if a == [] {
      assert a + b == b;
    } else {
      assert (a + b)[1..] == a[1..] + b;
      FramesConcat(a[1..], b);
    }
  }

  lemma {:induction false} ExecuteKeepsInv(services: Registry, s: Session)
    requires Inv(services, s) && Sound(s.recv) && s.state == Connected
    ensures Inv(services, Executed(services, s))
  {
    hide Decoded, Responses, F.Frames, F.AllFit, F.Stamped, Occurs, View.Ok, View.Unread, F.TotalLen;
    DecodingConserves(s.recv);
    var d := Decoded(s.recv);
    var replies := F.Frames(Responses(services, d.messages));
    assert F.Frames(Responses(services, s.served + d.messages)) == s.sent + (s.pending + replies) by {
      ResponsesConcat(services, s.served, d.messages);
      FramesConcat(Responses(services, s.served), Responses(services, d.messages));
      assert s.sent + s.pending + replies == s.sent + (s.pending + replies);
    }
  }

  lemma {:induction false} StepKeepsInv(services: Registry, s: Session, e: Event)
    requires Inv(services, s)
    ensures Inv(services, Step(services, s, e))
  {
    hide Decoded, Responses, F.Frames, View.Ok, Executed, Absorb;
    match e
    case Writable(taken) =>
      var n := Least(taken, |s.pending|);
      assert s.sent + s.pending[..n] + s.pending[n..] == s.sent + s.pending;
    case Readable(input, ending) =>
      if !s.faulted && s.state == Connected && s.recv.data != [] {
        AbsorbAppends(s.recv, input);
        var recv := Absorb(s.recv, input);
        if |recv.data| <= INT_MAX && ending == Again {
          ExecuteKeepsInv(services, s.(recv := recv));
        }
      }
  }

  /** Write interest is given up only when every encoded byte has been handed to the kernel. */
  lemma {:induction false} InterestEndsWithTheLastByte(services: Registry, s: Session, e: Event)
    requires Inv(services, s) && OUT in s.events && OUT !in Step(services, s, e).events
    ensures Step(services, s, e).pending == []
    ensures Step(services, s, e).sent == F.Frames(Responses(services, s.served))
  {
    hide Decoded, Responses, F.Frames, View.Ok, Absorb;
    StepKeepsInv(services, s, e);
    assert Step(services, s, e).served == s.served;
    assert Step(services, s, e).sent + [] == Step(services, s, e).sent;
  }

  // ---------------------------------------------------------------- whole runs

  lemma {:induction false} StepKeepsBuffer(services: Registry, s: Session, e: Event)
    requires s.recv.Ok()
    ensures Step(services, s, e).recv.Ok()
  {
    hide Decoded, View.Ok, Absorb;
    if e.Readable? && s.recv.data != [] {
      AbsorbAppends(s.recv, e.input);
      var recv := Absorb(s.recv, e.input);
      if |recv.data| <= INT_MAX {
        DecodingConserves(recv);
      }
    }
  }

  ghost function Run(services: Registry, s: Session, events: seq<Event>): Session
    requires s.recv.Ok()
    decreases |events|
  {
    if events == [] then s else
      StepKeepsBuffer(services, s, events[0]);
      Run(services, Step(services, s, events[0]), events[1..])
  }

  function Arrived(events: seq<Event>): seq<byte> {
    if events == [] then []
    else (if events[0].Readable? then events[0].input else []) + Arrived(events[1..])
  }

  /** In every run, whatever arrives and however it is cut: responses go out complete and in order, and
      the kernel watches for write events whenever some are waiting. */
  lemma {:induction false} RunKeepsInv(services: Registry, s: Session, events: seq<Event>)
    requires Inv(services, s)
    ensures Inv(services, Run(services, s, events))
    decreases |events|
  {
    hide Step, SendsResponses, WatchesWrites;
    if events != [] {
      StepKeepsBuffer(services, s, events[0]);
      StepKeepsInv(services, s, events[0]);
      RunKeepsInv(services, Step(services, s, events[0]), events[1..]);
    }
  }

  /** The connection is up and what it holds unread is the beginning of one frame at most. */
  ghost predicate Live(s: Session) {
    && s.state == Connected && !s.faulted
    && s.recv.Ok() && s.recv.data != []
    && F.IsFragment(s.recv.Unread())
  }

  /** An event that decoding can cope with: a readable event leaves the socket empty, what is unread then
      is whole frames and at most a fragment that can wait, and sizes stay within `int`. */
  ghost predicate Benign(services: Registry, s: Session, e: Event)
    requires s.recv.Ok()
  {
    e.Readable? && s.recv.data != [] ==>
      var recv := Absorb(s.recv, e.input);
      && e.ending == Again && recv.Shape() && |recv.data| <= INT_MAX
      && exists ms, p :: Splits(recv, ms, p) && F.AllFit(Responses(services, F.StampAll(ms)))
  }

  ghost predicate BenignRun(services: Registry, s: Session, events: seq<Event>)
    requires s.recv.Ok()
    decreases |events|
  {
    events != [] ==>
      && Benign(services, s, events[0])
      && (StepKeepsBuffer(services, s, events[0]); BenignRun(services, Step(services, s, events[0]), events[1..]))
  }

  lemma {:induction false} NothingIsAFragment()
    ensures F.IsFragment([])
  {
    var m := Plain([]);
    assert F.Fits(m) && F.IsFragmentOf([], m);
  }

  /** A benign read serves exactly the messages whose frames are complete. */
  lemma {:induction false} BenignReadServes(services: Registry, s: Session,
                                            input: seq<byte>) returns (ms: seq<Message>, p: seq<byte>)
    requires Live(s) && Benign(services, s, Readable(input, Again))
    ensures F.AllFit(ms) && F.IsFragment(p) && s.recv.Unread() + input == F.Frames(ms) + p
    ensures var t := Step(services, s, Readable(input, Again));
            Live(t) && t.recv.Unread() == p && t.served == s.served + F.StampAll(ms)
  {
    hide Absorb, Decoded, AfterFrames, F.Frames, Responses, View.Ok, F.IsFragment;
    AbsorbAppends(s.recv, input);
    var recv := Absorb(s.recv, input);
    ms, p :| Splits(recv, ms, p) && F.AllFit(Responses(services, F.StampAll(ms)));
    NothingIsAFragment();
    FragmentIsLeft(recv, ms, p);
    WholeFramesDecode(recv, ms, p);
  }

  /** Which reads the server survives, whatever follows the complete frames: it serves exactly the
      messages that are complete, and goes on, if and only if nothing follows them or what follows waits.
      A fragment without a second start marker waits exactly when the end it declares lies inside the
      receive buffer; if it does not, the server's behaviour is undefined. */
  lemma {:induction false} FragmentDecidesTheRead(services: Registry, s: Session, input: seq<byte>, ms: seq<Message>,
                                                  p: seq<byte>)
    requires Live(s) && Sound(Absorb(s.recv, input))
    requires F.AllFit(ms) && Absorb(s.recv, input).Unread() == F.Frames(ms) + p
    requires F.AllFit(Responses(services, F.StampAll(ms)))
    ensures var t, w := Step(services, s, Readable(input, Again)), AfterFrames(Absorb(s.recv, input), ms);
            && (!t.faulted && t.served == s.served + F.StampAll(ms) <==> p == [] || Waits(w))
            && (F.IsFragment(p) && p != [] && F.PB_START !in p[1..] ==> (t.faulted <==> !HeadEndInside(w)))
  {
    hide Absorb, AfterFrames, F.Frames, Responses, ZeroFrom, F.IsFragment, HeadEndInside, Waits, DecodeTurn, Decoded;
    var recv := Absorb(s.recv, input);
    var w, d := AfterFrames(recv, ms), Decoded(recv);
    FragmentDecides(recv, ms, p);
    ServedCancels(s.served, d.messages, F.StampAll(ms));
    if F.IsFragment(p) && p != [] && F.PB_START !in p[1..] {
      WholeFramesDecode(recv, ms, p);
      FragmentWaits(w, p);
      if !HeadEndInside(w) {
        DecodedEnds(w, Undefined);
      }
    }
  }

  lemma {:induction false} ServedCancels(served: seq<Message>, a: seq<Message>, b: seq<Message>)
    ensures served + a == served + b <==> a == b
  {
    if served + a == served + b {
      assert a == (served + a)[|served|..] && b == (served + b)[|served|..];
    }
  }

  /** Arrivals of whole frames are always benign, sizes permitting. */
  lemma {:induction false} WholeFramesAreBenign(services: Registry, s: Session, ms: seq<Message>)
    requires Live(s) && s.recv.Unread() == [] && |s.recv.data| <= INT_MAX && 4 * F.TotalLen(ms) <= INT_MAX
    requires F.AllFit(Responses(services, F.StampAll(ms)))
    ensures Benign(services, s, Readable(F.Frames(ms), Again))
  {
    hide Absorb, AfterFrames, F.Frames, Responses, F.IsFragment;
    F.FramesLength(ms);
    F.SmallTotalFits(ms);
    AbsorbAppends(s.recv, F.Frames(ms));
    assert [] + F.Frames(ms) == F.Frames(ms) + [];
    assert Splits(Absorb(s.recv, F.Frames(ms)), ms, []);
  }

  lemma {:induction false} WriteKeepsReceived(services: Registry, s: Session, taken: nat)
    ensures var t := AfterWrite(s, taken);
            t.recv == s.recv && t.served == s.served && t.state == s.state && t.faulted == s.faulted
  {
  }

  /** Over a whole benign run of arrivals, cut anywhere, and partial writes, the requests served are
      exactly the messages of the stream that arrived, and what is left unread is its last fragment. */
  lemma {:induction false} RunServes(services: Registry, s: Session, events: seq<Event>, all: seq<Message>,
                                     p: seq<byte>)
    requires Live(s) && BenignRun(services, s, events)
    requires F.AllFit(all) && F.IsFragment(p)
    requires s.recv.Unread() + Arrived(events) == F.Frames(all) + p
    ensures var t := Run(services, s, events);
            Live(t) && t.served == s.served + F.StampAll(all) && t.recv.Unread() == p
    decreases |events|
  {
    hide AfterRead, AfterWrite, F.Frames, F.IsFragment, ZeroFrom, F.StampAll, Splits, Absorb;
    if events == [] {
      assert F.Frames([]) == [] && F.StampAll([]) == [] by { EmptyStream(); }
      assert F.Frames([]) + s.recv.Unread() == F.Frames(all) + p;
      F.StreamsDecodeUniquely([], s.recv.Unread(), all, p);
      assert s.served + [] == s.served;
    } else {
      var e := events[0];
      StepKeepsBuffer(services, s, e);
      var t := Step(services, s, e);
      if e.Writable? {
        WriteKeepsReceived(services, s, e.taken);
        assert Arrived(events) == Arrived(events[1..]);
        RunServes(services, t, events[1..], all, p);
      } else {
        var ms, q := BenignReadServes(services, s, e.input);
        var rest := Arrived(events[1..]);
        assert Arrived(events) == e.input + rest;
        assert F.Frames(ms) + (q + rest) == (F.Frames(ms) + q) + rest == (s.recv.Unread() + e.input) + rest
            == s.recv.Unread() + (e.input + rest);
        F.StreamsPeel(ms, q + rest, all, p);
        var k := |ms|;
        RunServes(services, t, events[1..], all[k..], p);
        assert all == all[..k] + all[k..];
        F.StampAllConcat(all[..k], all[k..]);
        assert s.served + F.StampAll(all) == s.served + F.StampAll(ms) + F.StampAll(all[k..]);
      }
    }
  }

  lemma {:induction false} EmptyStream()
    ensures F.Frames([]) == [] && F.StampAll([]) == []
  {
  }

  lemma {:induction false} StampsDoNotMatter(services: Registry, ms: seq<Message>)
    ensures Responses(services, F.StampAll(ms)) == Responses(services, ms)
    decreases |ms|
  {
    if ms != [] {
      assert F.StampAll(ms)[1..] == F.StampAll(ms[1..]);
      StampsDoNotMatter(services, ms[1..]);
    }
  }

  /** What the server has been made to send over the connection: bytes the kernel has taken, then those
      that wait. */
  function Output(s: Session): seq<byte> { s.sent + s.pending }

  /** The server as a whole: from any live state, over a benign run, its output grows by exactly the
      encoded responses to the requests that have become complete, one each and in their order. */
  lemma {:induction false} ServerGoesOnAnswering(services: Registry, s: Session, events: seq<Event>,
                                                 all: seq<Message>, p: seq<byte>)
    requires Live(s) && Inv(services, s) && BenignRun(services, s, events)
    requires F.AllFit(all) && F.IsFragment(p) && s.recv.Unread() + Arrived(events) == F.Frames(all) + p
    ensures var t := Run(services, s, events);
            && Live(t) && Inv(services, t) && t.recv.Unread() == p
            && Output(t) == Output(s) + F.Frames(Responses(services, all))
            && t.served == s.served + F.StampAll(all)
  {
    hide Step, Dispatched, F.Frame, F.IsFragment, ZeroFrom, F.Stamped, BenignRun, WatchesWrites;
    RunServes(services, s, events, all, p);
    RunKeepsInv(services, s, events);
    StampsDoNotMatter(services, all);
    ResponsesConcat(services, s.served, F.StampAll(all));
    FramesConcat(Responses(services, s.served), Responses(services, all));
  }

  /** An accepted connection that nothing has happened to. */
  ghost predicate JustAccepted(s: Session) {
    && s.state == Connected && !s.faulted
    && s.recv.Ok() && s.recv.data != [] && s.recv.Unread() == []
    && s.served == [] && s.sent == [] && s.pending == []
    && IN in s.events && s.registered == Some(s.events)
  }

  lemma {:induction false} JustAcceptedIsLive(services: Registry, s: Session)
    requires JustAccepted(s)
    ensures Live(s) && Inv(services, s)
  {
    NothingIsAFragment();
  }

  /** From a fresh connection, at every point of a benign run, what the kernel has been given followed by
      what still waits is the concatenation of the encoded responses to the requests that have arrived in
      full, and the kernel watches for write events while some wait. */
  lemma {:induction false} ServerAnswersTheStream(services: Registry, s: Session, events: seq<Event>,
                                                  all: seq<Message>, p: seq<byte>)
    requires JustAccepted(s) && BenignRun(services, s, events)
    requires F.AllFit(all) && F.IsFragment(p) && Arrived(events) == F.Frames(all) + p
    ensures var t := Run(services, s, events);
            && t.sent + t.pending == F.Frames(Responses(services, all))
            && t.served == F.StampAll(all) && t.recv.Shape() && t.recv.Unread() == p
            && (t.pending != [] ==> OUT in t.events && t.registered == Some(t.events))
  {
    hide Step, Dispatched, F.Frame, F.IsFragment, ZeroFrom, F.Stamped, BenignRun, F.Frames, F.StampAll, Responses;
    JustAcceptedIsLive(services, s);
    assert s.recv.Unread() + Arrived(events) == Arrived(events);
    ServerGoesOnAnswering(services, s, events, all, p);
    assert Output(s) == [] && s.served + F.StampAll(all) == F.StampAll(all);
  }

  // ---------------------------------------------------------------- arrivals of whole frames

  /** Every read drains a socket that holds whole frames, of requests and responses of a size that an
      `int` can hold. */
  ghost predicate WholeArrivals(services: Registry, events: seq<Event>) {
    forall e <- events :: e.Readable? ==> e.ending == Again && exists ms :: IsWhole(services, e.input, ms)
  }

  ghost predicate IsWhole(services: Registry, input: seq<byte>, ms: seq<Message>) {
    input == F.Frames(ms) && 4 * F.TotalLen(ms) <= INT_MAX && F.AllFit(Responses(services, F.StampAll(ms)))
  }

  /** The connection is up, holds nothing unread, and its buffer has an `int` size. */
  ghost predicate Idle(s: Session) {
    Live(s) && s.recv.Unread() == [] && |s.recv.data| <= INT_MAX
  }

  lemma {:induction false} WholeReadStaysIdle(services: Registry, s: Session, ms: seq<Message>)
    requires Idle(s) && IsWhole(services, F.Frames(ms), ms)
    ensures Benign(services, s, Readable(F.Frames(ms), Again))
    ensures Idle(Step(services, s, Readable(F.Frames(ms), Again)))
  {
    hide Absorb, Decoded, F.Frames, Responses, F.IsFragment, F.StampAll, ZeroFrom, F.TotalLen;
    var input := F.Frames(ms);
    WholeFramesAreBenign(services, s, ms);
    var ns, p := BenignReadServes(services, s, input);
    F.SmallTotalFits(ms);
    assert F.Frames(ms) + [] == s.recv.Unread() + input;
    NothingIsAFragment();
    F.StreamsDecodeUniquely(ms, [], ns, p);
    AbsorbAppends(s.recv, input);
    F.FramesLength(ms);
    DecodingConserves(Absorb(s.recv, input));
  }

  /** Runs of whole arrivals and partial writes need no other condition to be benign. */
  lemma {:induction false} WholeArrivalsAreBenign(services: Registry, s: Session, events: seq<Event>)
    requires Idle(s) && WholeArrivals(services, events)
    ensures BenignRun(services, s, events)
    decreases |events|
  {
    hide Absorb, Decoded, F.Frames, Responses, F.IsFragment, IsWhole, ZeroFrom, AfterRead;
    if events != [] {
      var e := events[0];
      assert e in events && forall f <- events[1..] :: f in events;
      if e.Readable? {
        var ms :| IsWhole(services, e.input, ms);
        assert e.input == F.Frames(ms) by { WholeIsFrames(services, e.input, ms); }
        WholeReadStaysIdle(services, s, ms);
      } else {
        WriteKeepsReceived(services, s, e.taken);
      }
      StepKeepsBuffer(services, s, e);
      WholeArrivalsAreBenign(services, Step(services, s, e), events[1..]);
    }
  }

  lemma {:induction false} WholeIsFrames(services: Registry, input: seq<byte>, ms: seq<Message>)
    requires IsWhole(services, input, ms)
    ensures input == F.Frames(ms)
  {
  }

  /** So a server whose clients' requests arrive whole answers all of them, without further assumption. */
  lemma {:induction false} WholeRequestsAreAnswered(services: Registry, s: Session, events: seq<Event>,
                                                    all: seq<Message>)
    requires JustAccepted(s) && |s.recv.data| <= INT_MAX && WholeArrivals(services, events)
    requires F.AllFit(all) && Arrived(events) == F.Frames(all)
    ensures s.recv.Ok()
    ensures var t := Run(services, s, events);
            && t.sent + t.pending == F.Frames(Responses(services, all))
            && t.served == F.StampAll(all) && t.recv.Shape() && t.recv.Unread() == []
  {
    hide Step, Dispatched, F.Frame, F.IsFragment, ZeroFrom, F.Stamped, WholeArrivals, Responses, Run, F.StampAll,
      BenignRun;
    NothingIsAFragment();
    WholeArrivalsAreBenign(services, s, events);
    assert Arrived(events) == F.Frames(all) + [];
    ServerAnswersTheStream(services, s, events, all, []);
  }
}
