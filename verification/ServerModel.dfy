/** The server's connection set and descriptor map beside the interest sets of its IO loops, as
    interleaved steps of the main thread and the IO threads. */
module ServerModel {
  import L = EventLoopFds

  type ConnId = nat

  datatype Conn = Conn(fd: int, loop: nat, closed: bool)

  /** An IO loop: its own record of watched descriptors, the kernel's, and the registrations that the
      main thread has queued for it. */
  datatype IoLoop = IoLoop(listenFds: set<int>, interest: set<int>, queue: seq<ConnId>)

  /** `open` are the client descriptors open in the kernel; `sound` is lost by an `epoll_ctl` that fails,
      on which the program exits, or by closing a descriptor that is not open. */
  datatype Server = Server(
    conns: map<ConnId, Conn>, fdEvents: set<int>, loops: seq<IoLoop>, open: set<int>, sound: bool)

  datatype Step =
    | Accept(id: ConnId, fd: int, loop: nat)
    | Register(loop: nat)
    | Relisten(id: ConnId)
    | PeerClosed(id: ConnId)
    | ErrorEvent(loop: nat, fd: int)
    | Clean(id: ConnId)

  /** Whether adding or changing a registration succeeds: ADD wants an open descriptor that is not watched,
      MOD a watched one. */
  predicate CtlSucceeds(l: IoLoop, fd: int, open: set<int>) {
    if fd in l.listenFds then fd in l.interest else fd in open && fd !in l.interest
  }

  function Watch(s: Server, k: nat, fd: int): Server
    requires k < |s.loops|
  {
    var l := s.loops[k];
    if CtlSucceeds(l, fd, s.open)
    then s.(loops := s.loops[k := l.(listenFds := l.listenFds + {fd}, interest := l.interest + {fd})])
    else s.(sound := false)
  }

  function Unwatch(s: Server, k: nat, fd: int): Server
    requires k < |s.loops|
  {
    var l := s.loops[k];
    if fd !in l.listenFds then s
    else if fd !in l.interest then s.(sound := false)
    else s.(loops := s.loops[k := l.(listenFds := l.listenFds - {fd}, interest := l.interest - {fd})])
  }

  /** The loops here are those of the event loop's own methods, the masks left out: for an open descriptor,
      watching is what the loop's registration does, and it is legal exactly when that one succeeds. */
  lemma {:induction false} WatchIsRegistering(s: Server, k: nat, fd: int, masks: map<int, L.Mask>, events: L.Mask)
    requires k < |s.loops| && masks.Keys == s.loops[k].interest && fd in s.open && s.sound
    ensures var n, registered := Watch(s, k, fd), L.Registered(s.loops[k].listenFds, masks, fd, events);
            && (n.sound <==> registered.Some?)
            && (n.sound ==> |n.loops| == |s.loops| && n.loops[k].interest == registered.value.Keys
                            && n.loops[k].listenFds == s.loops[k].listenFds + {fd})
  {
  }

  lemma {:induction false} UnwatchIsDeregistering(s: Server, k: nat, fd: int, masks: map<int, L.Mask>)
    requires k < |s.loops| && masks.Keys == s.loops[k].interest && s.sound
    ensures var n, deregistered := Unwatch(s, k, fd), L.Deregistered(s.loops[k].listenFds, masks, fd);
            && (n.sound <==> deregistered.Some?)
            && (n.sound ==> |n.loops| == |s.loops| && n.loops[k].interest == deregistered.value.Keys
                            && n.loops[k].listenFds == s.loops[k].listenFds - {fd})
  {
    assert fd !in s.loops[k].listenFds ==> s.loops[k].listenFds - {fd} == s.loops[k].listenFds;
  }

  predicate Queued(s: Server, id: ConnId) {
    exists k :: 0 <= k < |s.loops| && id in s.loops[k].queue
  }

  /** An accept returns a descriptor that is not open. A connection that waits to be registered gets no
      events; the callbacks of any other may run, also after its descriptor has been unwatched. */
  predicate Enabled(s: Server, step: Step) {
    match step
    case Accept(id, fd, loop) => id !in s.conns && 0 <= fd && fd !in s.open && loop < |s.loops|
    case Register(loop) => loop < |s.loops| && s.loops[loop].queue != [] && s.loops[loop].queue[0] in s.conns
    case Relisten(id) => id in s.conns && !s.conns[id].closed && s.conns[id].loop < |s.loops| && !Queued(s, id)
    case PeerClosed(id) => id in s.conns && s.conns[id].loop < |s.loops| && !Queued(s, id)
    case ErrorEvent(loop, fd) => loop < |s.loops| && fd in s.loops[loop].interest
    case Clean(id) => id in s.conns && s.conns[id].closed
  }

  /** The kernel drops a descriptor that is closed from every interest set. */
  function Forgotten(loops: seq<IoLoop>, fd: int): (r: seq<IoLoop>)
    ensures |r| == |loops|
    ensures forall k :: 0 <= k < |loops| ==> r[k] == loops[k].(interest := loops[k].interest - {fd})
  {
    seq(|loops|, k requires 0 <= k < |loops| => loops[k].(interest := loops[k].interest - {fd}))
  }

  function CloseFd(s: Server, fd: int): Server {
    s.(open := s.open - {fd}, sound := s.sound && fd in s.open, loops := Forgotten(s.loops, fd))
  }

  function Next(s: Server, step: Step): Server
    requires Enabled(s, step)
  {
    match step
    case Accept(id, fd, loop) =>
      s.(conns := s.conns[id := Conn(fd, loop, false)], fdEvents := s.fdEvents + {fd}, open := s.open + {fd},
         loops := s.loops[loop := s.loops[loop].(queue := s.loops[loop].queue + [id])])
    case Register(loop) =>
      var l := s.loops[loop];
      Watch(s.(loops := s.loops[loop := l.(queue := l.queue[1..])]), loop, s.conns[l.queue[0]].fd)
    case Relisten(id) => Watch(s, s.conns[id].loop, s.conns[id].fd)
    case PeerClosed(id) =>
      var c := s.conns[id];
      if c.closed then s else
        var u := Unwatch(s, c.loop, c.fd);
        u.(conns := u.conns[id := c.(closed := true)])
    case ErrorEvent(loop, fd) => Unwatch(s, loop, fd)
    case Clean(id) =>
      var fd := s.conns[id].fd;
      CloseFd(s, fd).(fdEvents := s.fdEvents - {fd}, conns := s.conns - {id})
  }

  // ---------------------------------------------------------------- invariant

  function FdsOf(conns: map<ConnId, Conn>): set<int> {
    set id <- conns :: conns[id].fd
  }

  ghost predicate OneFdEach(conns: map<ConnId, Conn>) {
    forall i, j :: i in conns && j in conns && conns[i].fd == conns[j].fd ==> i == j
  }

  /** The loop's record is the kernel's, and both hold only live connections of this loop. */
  ghost predicate LoopOk(s: Server, k: nat)
    requires k < |s.loops|
  {
    var l := s.loops[k];
    && l.listenFds == l.interest
    && (forall fd <- l.interest :: exists id :: id in s.conns && IsLive(s, id, fd, k))
    && (forall id <- l.queue :: id in s.conns && IsLive(s, id, s.conns[id].fd, k) && s.conns[id].fd !in l.interest)
    && (forall i, j :: 0 <= i < j < |l.queue| ==> l.queue[i] != l.queue[j])
  }

  predicate IsLive(s: Server, id: ConnId, fd: int, k: nat)
    requires id in s.conns
  {
    s.conns[id] == Conn(fd, k, false)
  }

  ghost predicate Inv(s: Server) {
    && s.sound
    && OneFdEach(s.conns) && s.fdEvents == FdsOf(s.conns) && s.open == FdsOf(s.conns)
    && (forall id :: id in s.conns ==> s.conns[id].loop < |s.loops|)
    && (forall k :: 0 <= k < |s.loops| ==> LoopOk(s, k))
  }

  /** A closed connection's descriptor is watched by no loop. */
  lemma {:induction false} ClosedIsUnwatched(s: Server, id: ConnId, k: nat)
    requires Inv(s) && id in s.conns && s.conns[id].closed && k < |s.loops|
    ensures s.conns[id].fd !in s.loops[k].interest && s.conns[id].fd !in s.loops[k].listenFds
    ensures !Queued(s, id)
  {
    assert LoopOk(s, k);
    forall j | 0 <= j < |s.loops| ensures id !in s.loops[j].queue {
      assert LoopOk(s, j);
    }
  }

  lemma {:induction false} AcceptKeepsInv(s: Server, id: ConnId, fd: int, loop: nat)
    requires Inv(s) && Enabled(s, Accept(id, fd, loop))
    ensures Inv(Next(s, Accept(id, fd, loop)))
  {
    var n := Next(s, Accept(id, fd, loop));
    assert FdsOf(n.conns) == FdsOf(s.conns) + {fd} by {
      assert n.conns[id].fd == fd;
      forall i | i in s.conns ensures n.conns[i] == s.conns[i] {}
    }
    forall i | i in s.conns ensures s.conns[i].fd != fd {
      assert s.conns[i].fd in FdsOf(s.conns);
    }
    forall k | 0 <= k < |n.loops| ensures LoopOk(n, k) {
      assert LoopOk(s, k);
      forall f <- n.loops[k].interest ensures exists i :: i in n.conns && IsLive(n, i, f, k) {
        var i :| i in s.conns && IsLive(s, i, f, k);
        assert i in n.conns && IsLive(n, i, f, k);
      }
    }
  }

  /** Registering a live connection that is not waiting to be registered succeeds, as ADD or as MOD. */
  lemma {:induction false} WatchKeepsInv(s: Server, id: ConnId, k: nat)
    requires Inv(s) && id in s.conns && k < |s.loops| && IsLive(s, id, s.conns[id].fd, k)
    requires id !in s.loops[k].queue
    ensures CtlSucceeds(s.loops[k], s.conns[id].fd, s.open) && Inv(Watch(s, k, s.conns[id].fd))
  {
    var fd := s.conns[id].fd;
    assert LoopOk(s, k);
    assert fd in FdsOf(s.conns);
    var n := Watch(s, k, fd);
    forall j | 0 <= j < |n.loops| ensures LoopOk(n, j) {
      assert LoopOk(s, j);
      forall f <- n.loops[j].interest ensures exists i :: i in n.conns && IsLive(n, i, f, j) {
        if f == fd && j == k {
          assert IsLive(n, id, f, j);
        } else {
          var i :| i in s.conns && IsLive(s, i, f, j);
          assert IsLive(n, i, f, j);
        }
      }
      forall i <- n.loops[j].queue ensures IsLive(n, i, n.conns[i].fd, j) && n.conns[i].fd !in n.loops[j].interest {
        assert IsLive(s, i, s.conns[i].fd, j);
      }
    }
  }

  lemma {:induction false} PopKeepsInv(s: Server, k: nat)
    requires Inv(s) && k < |s.loops| && s.loops[k].queue != []
    ensures var l := s.loops[k];
            && Inv(s.(loops := s.loops[k := l.(queue := l.queue[1..])]))
            && l.queue[0] in s.conns && IsLive(s, l.queue[0], s.conns[l.queue[0]].fd, k)
            && l.queue[0] !in l.queue[1..]
  {
    var l := s.loops[k];
    var n := s.(loops := s.loops[k := l.(queue := l.queue[1..])]);
    forall j | 0 <= j < |n.loops| ensures LoopOk(n, j) {
      assert LoopOk(s, j);
      forall f <- n.loops[j].interest ensures exists i :: i in n.conns && IsLive(n, i, f, j) {
        var i :| i in s.conns && IsLive(s, i, f, j);
        assert IsLive(n, i, f, j);
      }
      forall i <- n.loops[j].queue ensures IsLive(n, i, n.conns[i].fd, j) {
        assert i in s.loops[j].queue;
        assert IsLive(s, i, s.conns[i].fd, j);
      }
    }
    assert LoopOk(s, k) && l.queue[0] in l.queue;
  }

  lemma {:induction false} UnwatchKeepsInv(s: Server, k: nat, fd: int)
    requires Inv(s) && k < |s.loops|
    ensures Inv(Unwatch(s, k, fd)) && fd !in Unwatch(s, k, fd).loops[k].interest
    ensures Unwatch(s, k, fd).conns == s.conns && |Unwatch(s, k, fd).loops| == |s.loops|
    ensures forall j :: 0 <= j < |s.loops| ==> Unwatch(s, k, fd).loops[j].queue == s.loops[j].queue
    ensures forall j :: 0 <= j < |s.loops| && j != k ==> Unwatch(s, k, fd).loops[j] == s.loops[j]
  {
    var n := Unwatch(s, k, fd);
    assert LoopOk(s, k);
    forall j | 0 <= j < |n.loops| ensures LoopOk(n, j) {
      assert LoopOk(s, j);
      forall f <- n.loops[j].interest ensures exists i :: i in n.conns && IsLive(n, i, f, j) {
        var i :| i in s.conns && IsLive(s, i, f, j);
        assert IsLive(n, i, f, j);
      }
      forall i <- n.loops[j].queue ensures IsLive(n, i, n.conns[i].fd, j) {
        assert IsLive(s, i, s.conns[i].fd, j);
      }
    }
  }

  /** A connection that no loop watches and none is to register may be marked closed. */
  lemma {:induction false} MarkClosedKeepsInv(s: Server, id: ConnId)
    requires Inv(s) && id in s.conns && !Queued(s, id)
    requires forall k :: 0 <= k < |s.loops| ==> s.conns[id].fd !in s.loops[k].interest
    ensures Inv(s.(conns := s.conns[id := s.conns[id].(closed := true)]))
  {
    var n := s.(conns := s.conns[id := s.conns[id].(closed := true)]);
    assert FdsOf(n.conns) == FdsOf(s.conns) by {
      forall i | i in s.conns ensures i in n.conns && n.conns[i].fd == s.conns[i].fd {}
    }
    forall k | 0 <= k < |n.loops| ensures LoopOk(n, k) {
      assert LoopOk(s, k);
      forall f <- n.loops[k].interest ensures exists i :: i in n.conns && IsLive(n, i, f, k) {
        var i :| i in s.conns && IsLive(s, i, f, k);
        assert i != id;
        assert IsLive(n, i, f, k);
      }
      forall i <- n.loops[k].queue ensures i in n.conns && IsLive(n, i, n.conns[i].fd, k) {
        assert i != id;
        assert IsLive(s, i, s.conns[i].fd, k);
      }
    }
  }

  lemma {:induction false} PeerClosedKeepsInv(s: Server, id: ConnId)
    requires Inv(s) && Enabled(s, PeerClosed(id))
    ensures Inv(Next(s, PeerClosed(id)))
  {
    var c := s.conns[id];
    if !c.closed {
      var u := Unwatch(s, c.loop, c.fd);
      UnwatchKeepsInv(s, c.loop, c.fd);
      forall k | 0 <= k < |u.loops| ensures id !in u.loops[k].queue && c.fd !in u.loops[k].interest {
        assert u.loops[k].queue == s.loops[k].queue;
        if k != c.loop {
          assert LoopOk(s, k);
          forall f <- s.loops[k].interest ensures f != c.fd {
            var i :| i in s.conns && IsLive(s, i, f, k);
            assert i != id;
          }
        }
      }
      MarkClosedKeepsInv(u, id);
    }
  }

  /** Closing the descriptor of a closed connection: it was open, and the kernel drops it from no interest
      set because it is in none. */
  lemma {:induction false} CleanKeepsInv(s: Server, id: ConnId)
    requires Inv(s) && Enabled(s, Clean(id))
    ensures Inv(Next(s, Clean(id)))
    ensures s.conns[id].fd in s.open && Next(s, Clean(id)).loops == s.loops
  {
    var fd := s.conns[id].fd;
    var n := Next(s, Clean(id));
    assert fd in FdsOf(s.conns);
    forall k | 0 <= k < |s.loops| ensures n.loops[k] == s.loops[k] && id !in s.loops[k].queue {
      ClosedIsUnwatched(s, id, k);
      assert s.loops[k].interest - {fd} == s.loops[k].interest;
    }
    assert n.loops == s.loops;
    assert FdsOf(n.conns) == FdsOf(s.conns) - {fd} by {
      forall f | f in FdsOf(s.conns) && f != fd ensures f in FdsOf(n.conns) {
        var i :| i in s.conns && s.conns[i].fd == f;
        assert i in n.conns && n.conns[i].fd == f;
      }
      forall i | i in n.conns ensures n.conns[i].fd != fd {}
    }
    forall k | 0 <= k < |n.loops| ensures LoopOk(n, k) {
      assert LoopOk(s, k);
      forall f <- n.loops[k].interest ensures exists i :: i in n.conns && IsLive(n, i, f, k) {
        var i :| i in s.conns && IsLive(s, i, f, k);
        assert i != id;
        assert IsLive(n, i, f, k);
      }
      forall i <- n.loops[k].queue ensures i in n.conns && IsLive(n, i, n.conns[i].fd, k) {
        assert i != id;
        assert IsLive(s, i, s.conns[i].fd, k);
      }
    }
  }

  lemma {:induction false} NextKeepsInv(s: Server, step: Step)
    requires Inv(s) && Enabled(s, step)
    ensures Inv(Next(s, step))
  {
    match step
    case Accept(id, fd, loop) => AcceptKeepsInv(s, id, fd, loop);
    case Register(k) =>
      PopKeepsInv(s, k);
      var l := s.loops[k];
      WatchKeepsInv(s.(loops := s.loops[k := l.(queue := l.queue[1..])]), l.queue[0], k);
    case Relisten(id) =>
      assert id !in s.loops[s.conns[id].loop].queue;
      WatchKeepsInv(s, id, s.conns[id].loop);
    case PeerClosed(id) => PeerClosedKeepsInv(s, id);
    case ErrorEvent(k, fd) => UnwatchKeepsInv(s, k, fd);
    case Clean(id) => CleanKeepsInv(s, id);
  }

  ghost predicate Legal(s: Server, steps: seq<Step>)
    decreases |steps|
  {
    steps != [] ==> Enabled(s, steps[0]) && Legal(Next(s, steps[0]), steps[1..])
  }

  ghost function Run(s: Server, steps: seq<Step>): Server
    requires Legal(s, steps)
    decreases |steps|
  {
    if steps == [] then s else Run(Next(s, steps[0]), steps[1..])
  }

  function Started(loops: nat): Server {
    Server(map[], {}, seq(loops, _ => IoLoop({}, {}, [])), {}, true)
  }

  lemma {:induction false} StartedIsOk(loops: nat)
    ensures Inv(Started(loops)) && Started(loops).open == {}
  {
    var s := Started(loops);
    assert FdsOf(s.conns) == {};
    forall k | 0 <= k < |s.loops| ensures LoopOk(s, k) {}
  }

  lemma {:induction false} RunKeepsInv(s: Server, steps: seq<Step>)
    requires Inv(s) && Legal(s, steps)
    ensures Inv(Run(s, steps))
    decreases |steps|
  {
    hide Next, Inv, Enabled;
    if steps != [] {
      NextKeepsInv(s, steps[0]);
      RunKeepsInv(Next(s, steps[0]), steps[1..]);
    }
  }

  /** In every interleaving of accepts, registrations, closings, error events and clean-ups: no `epoll_ctl`
      fails and no descriptor is closed twice; each loop's record equals the kernel's interest set; closed
      connections are watched by nobody; and the descriptors in the map, those of the connection set and
      those open in the kernel are the same. */
  lemma {:induction false} DescriptorsStayInStep(loops: nat, steps: seq<Step>)
    requires Legal(Started(loops), steps)
    ensures var s := Run(Started(loops), steps);
            && s.sound && s.fdEvents == FdsOf(s.conns) == s.open && OneFdEach(s.conns)
            && (forall k :: 0 <= k < |s.loops| ==> s.loops[k].listenFds == s.loops[k].interest)
            && (forall k, id :: 0 <= k < |s.loops| && id in s.conns && s.conns[id].closed ==>
                                  s.conns[id].fd !in s.loops[k].interest)
  {
    var s0 := Started(loops);
    StartedIsOk(loops);
    RunKeepsInv(s0, steps);
    var s := Run(s0, steps);
    forall k | 0 <= k < |s.loops| ensures s.loops[k].listenFds == s.loops[k].interest {
      assert LoopOk(s, k);
    }
    forall k, id | 0 <= k < |s.loops| && id in s.conns && s.conns[id].closed
      ensures s.conns[id].fd !in s.loops[k].interest
    {
      ClosedIsUnwatched(s, id, k);
    }
  }

  // ---------------------------------------------------------------- the life of a connection

  ghost predicate OthersSame(before: map<ConnId, Conn>, after: map<ConnId, Conn>, id: ConnId) {
    forall other: ConnId :: other != id ==>
      (other in after <==> other in before) && (other in before ==> other in after && after[other] == before[other])
  }

  /** An accepted connection is open, on record, and last in line to be registered in its loop. */
  lemma {:induction false} AcceptTakesIn(s: Server, id: ConnId, fd: int, loop: nat)
    requires Enabled(s, Accept(id, fd, loop))
    ensures var n := Next(s, Accept(id, fd, loop));
            && id in n.conns && n.conns[id] == Conn(fd, loop, false) && OthersSame(s.conns, n.conns, id)
            && n.open == s.open + {fd} && n.fdEvents == s.fdEvents + {fd}
            && |n.loops| == |s.loops| && n.loops[loop].queue == s.loops[loop].queue + [id]
            && n.loops[loop].interest == s.loops[loop].interest
            && forall k :: 0 <= k < |s.loops| && k != loop ==> n.loops[k] == s.loops[k]
  {
  }

  /** The first in line is registered: its descriptor is watched, and nothing else changes but the line. */
  lemma {:induction false} RegisterWatches(s: Server, k: nat)
    requires Inv(s) && Enabled(s, Register(k))
    ensures var n, fd := Next(s, Register(k)), s.conns[s.loops[k].queue[0]].fd;
            && n.sound && n.conns == s.conns && n.open == s.open && |n.loops| == |s.loops|
            && n.loops[k] == IoLoop(s.loops[k].interest + {fd}, s.loops[k].interest + {fd}, s.loops[k].queue[1..])
            && forall j :: 0 <= j < |s.loops| && j != k ==> n.loops[j] == s.loops[j]
  {
    NextKeepsInv(s, Register(k));
    assert LoopOk(s, k);
  }

  /** Asking again for events, as for write events, always succeeds and leaves the descriptor watched. */
  lemma {:induction false} RelistenWatches(s: Server, id: ConnId)
    requires Inv(s) && Enabled(s, Relisten(id))
    ensures var n, k, fd := Next(s, Relisten(id)), s.conns[id].loop, s.conns[id].fd;
            && n.sound && n.conns == s.conns && n.open == s.open && |n.loops| == |s.loops|
            && n.loops[k] == IoLoop(s.loops[k].interest + {fd}, s.loops[k].interest + {fd}, s.loops[k].queue)
            && forall j :: 0 <= j < |s.loops| && j != k ==> n.loops[j] == s.loops[j]
  {
    NextKeepsInv(s, Relisten(id));
    assert LoopOk(s, s.conns[id].loop);
  }

  /** Once the peer has closed, the connection is closed and can be cleaned up, no loop watches its
      descriptor, and every other connection is as before. */
  lemma {:induction false} PeerClosedCloses(s: Server, id: ConnId)
    requires Inv(s) && Enabled(s, PeerClosed(id))
    ensures var n := Next(s, PeerClosed(id));
            && Inv(n) && id in n.conns && n.conns[id] == Conn(s.conns[id].fd, s.conns[id].loop, true)
            && OthersSame(s.conns, n.conns, id) && Enabled(n, Clean(id))
            && n.open == s.open && n.fdEvents == s.fdEvents && |n.loops| == |s.loops|
            && forall k :: 0 <= k < |n.loops| ==>
                 && s.conns[id].fd !in n.loops[k].interest && s.conns[id].fd !in n.loops[k].listenFds
                 && n.loops[k].interest == s.loops[k].interest - {s.conns[id].fd}
  {
    var c := s.conns[id];
    var n := Next(s, PeerClosed(id));
    PeerClosedKeepsInv(s, id);
    assert n.conns[id].closed;
    forall k | 0 <= k < |n.loops|
      ensures c.fd !in n.loops[k].interest && c.fd !in n.loops[k].listenFds
      ensures n.loops[k].interest == s.loops[k].interest - {c.fd}
    {
      ClosedIsUnwatched(n, id, k);
      assert LoopOk(s, k);
    }
  }

  lemma {:induction false} StepKeepsClosed(s: Server, id: ConnId, step: Step)
    requires Enabled(s, step) && id in s.conns && s.conns[id].closed && step != Clean(id)
    ensures id in Next(s, step).conns && Next(s, step).conns[id] == s.conns[id]
  {
  }

  /** A closed connection stays as it is, in every run, until it is cleaned up. */
  lemma {:induction false} ClosedUntilCleaned(s: Server, id: ConnId, steps: seq<Step>)
    requires Legal(s, steps) && id in s.conns && s.conns[id].closed && Clean(id) !in steps
    ensures id in Run(s, steps).conns && Run(s, steps).conns[id] == s.conns[id]
    ensures Enabled(Run(s, steps), Clean(id))
    decreases |steps|
  {
    if steps != [] {
      assert steps[0] in steps && forall step <- steps[1..] :: step in steps;
      StepKeepsClosed(s, id, steps[0]);
      ClosedUntilCleaned(Next(s, steps[0]), id, steps[1..]);
    }
  }

  /** Cleaning up takes exactly this connection off the record, and its descriptor is neither open nor in the
      map any more. */
  lemma {:induction false} CleanRemoves(s: Server, id: ConnId)
    requires Inv(s) && Enabled(s, Clean(id))
    ensures var n, fd := Next(s, Clean(id)), s.conns[id].fd;
            && n.sound && id !in n.conns && OthersSame(s.conns, n.conns, id) && n.loops == s.loops
            && fd in s.open && n.open == s.open - {fd} && n.fdEvents == s.fdEvents - {fd}
  {
    CleanKeepsInv(s, id);
  }

  // ---------------------------------------------------------------- a connection with an error

  /** A connection that is not closed although no loop watches its descriptor or is about to. */
  ghost predicate Forsaken(s: Server, id: ConnId) {
    && id in s.conns && !s.conns[id].closed && !Queued(s, id)
    && forall k :: 0 <= k < |s.loops| ==> s.conns[id].fd !in s.loops[k].interest
  }

  /** An error event unregisters the descriptor and does no more. */
  lemma {:induction false} ErrorForsakes(s: Server, id: ConnId)
    requires Inv(s) && id in s.conns && !s.conns[id].closed && !Queued(s, id)
    requires s.conns[id].fd in s.loops[s.conns[id].loop].interest
    ensures Enabled(s, ErrorEvent(s.conns[id].loop, s.conns[id].fd))
    ensures Forsaken(Next(s, ErrorEvent(s.conns[id].loop, s.conns[id].fd)), id)
  {
    var c := s.conns[id];
    var n := Next(s, ErrorEvent(c.loop, c.fd));
    UnwatchKeepsInv(s, c.loop, c.fd);
    forall k | 0 <= k < |n.loops| ensures c.fd !in n.loops[k].interest && id !in n.loops[k].queue {
      assert n.loops[k].queue == s.loops[k].queue;
      if k != c.loop {
        assert LoopOk(s, k);
        forall f <- s.loops[k].interest ensures f != c.fd {
          var i :| i in s.conns && IsLive(s, i, f, k);
          assert i != id;
        }
      }
    }
  }

  lemma {:induction false} WatchLeavesForsaken(s: Server, id: ConnId, k: nat, fd: int)
    requires Forsaken(s, id) && k < |s.loops| && fd != s.conns[id].fd
    ensures Forsaken(Watch(s, k, fd), id) && Watch(s, k, fd).conns == s.conns
  {
    var n := Watch(s, k, fd);
    forall j | 0 <= j < |n.loops|
      ensures n.loops[j].queue == s.loops[j].queue && s.conns[id].fd !in n.loops[j].interest
    {
    }
  }

  lemma {:induction false} UnwatchLeavesForsaken(s: Server, id: ConnId, k: nat, fd: int)
    requires Forsaken(s, id) && k < |s.loops|
    ensures Forsaken(Unwatch(s, k, fd), id) && Unwatch(s, k, fd).conns == s.conns
  {
    var n := Unwatch(s, k, fd);
    forall j | 0 <= j < |n.loops|
      ensures n.loops[j].queue == s.loops[j].queue && s.conns[id].fd !in n.loops[j].interest
    {
    }
  }

  lemma {:induction false} RegisterLeavesForsaken(s: Server, id: ConnId, k: nat)
    requires Inv(s) && Forsaken(s, id) && Enabled(s, Register(k))
    ensures Forsaken(Next(s, Register(k)), id) && Next(s, Register(k)).conns == s.conns
  {
    var l := s.loops[k];
    var popped := s.(loops := s.loops[k := l.(queue := l.queue[1..])]);
    assert l.queue[0] in l.queue && id !in l.queue;
    forall j | 0 <= j < |popped.loops| ensures id !in popped.loops[j].queue {
      assert id !in s.loops[j].queue;
    }
    WatchLeavesForsaken(popped, id, k, s.conns[l.queue[0]].fd);
  }

  lemma {:induction false} AcceptLeavesForsaken(s: Server, id: ConnId, other: ConnId, fd: int, loop: nat)
    requires Forsaken(s, id) && Enabled(s, Accept(other, fd, loop))
    ensures var n := Next(s, Accept(other, fd, loop));
            Forsaken(n, id) && n.conns[id] == s.conns[id]
  {
    var n := Next(s, Accept(other, fd, loop));
    forall j | 0 <= j < |n.loops| ensures id !in n.loops[j].queue {
      assert id !in s.loops[j].queue;
    }
  }

  lemma {:induction false} StepLeavesForsaken(s: Server, id: ConnId, step: Step)
    requires Inv(s) && Forsaken(s, id) && Enabled(s, step) && step != PeerClosed(id) && step != Relisten(id)
    ensures var n := Next(s, step);
            Forsaken(n, id) && n.conns[id] == s.conns[id]
  {
    match step
    case Accept(other, fd, loop) => AcceptLeavesForsaken(s, id, other, fd, loop);
    case Register(k) => RegisterLeavesForsaken(s, id, k);
    case Relisten(other) => WatchLeavesForsaken(s, id, s.conns[other].loop, s.conns[other].fd);
    case PeerClosed(other) =>
      if !s.conns[other].closed {
        UnwatchLeavesForsaken(s, id, s.conns[other].loop, s.conns[other].fd);
      }
    case ErrorEvent(k, fd) => UnwatchLeavesForsaken(s, id, k, fd);
    case Clean(other) =>
      forall j | 0 <= j < |s.loops| ensures id !in Next(s, step).loops[j].queue {
        assert id !in s.loops[j].queue;
      }
  }

  /** A connection with an error is never cleaned up. No event is reported for it any more; and for as long as
      none of its own callbacks runs that was queued before, whatever else happens, it stays in the set, not
      closed, its descriptor open and watched by nobody. */
  lemma {:induction false} ForsakenForGood(s: Server, id: ConnId, steps: seq<Step>)
    requires Inv(s) && Forsaken(s, id) && Legal(s, steps)
    requires PeerClosed(id) !in steps && Relisten(id) !in steps
    ensures var n := Run(s, steps);
            && Forsaken(n, id) && n.conns[id] == s.conns[id] && s.conns[id].fd in n.open
            && forall k :: 0 <= k < |n.loops| ==> !Enabled(n, ErrorEvent(k, s.conns[id].fd))
    decreases |steps|
  {
    hide Next, Inv, Queued;
    if steps == [] {
      LiveIsOpen(s, id);
    } else {
      assert steps[0] in steps && forall step <- steps[1..] :: step in steps;
      StepLeavesForsaken(s, id, steps[0]);
      NextKeepsInv(s, steps[0]);
      ForsakenForGood(Next(s, steps[0]), id, steps[1..]);
    }
  }

  lemma {:induction false} LiveIsOpen(s: Server, id: ConnId)
    requires Inv(s) && id in s.conns
    ensures s.conns[id].fd in s.open
  {
    assert s.conns[id].fd in FdsOf(s.conns);
  }

  /** Only the callback for a closed peer gets a connection out of the set. */
  lemma {:induction false} OnlyClosingRemoves(s: Server, id: ConnId, steps: seq<Step>)
    requires Legal(s, steps) && id in s.conns && !s.conns[id].closed && PeerClosed(id) !in steps
    ensures id in Run(s, steps).conns && !Run(s, steps).conns[id].closed
    decreases |steps|
  {
    if steps != [] {
      assert steps[0] in steps && forall step <- steps[1..] :: step in steps;
      OnlyClosingRemoves(Next(s, steps[0]), id, steps[1..]);
    }
  }

  // ---------------------------------------------------------------- a failed accept

  /** A server that has also taken a failed accept for a connection, with descriptor -1; its registration is
      the k-th that waits in the queue of the loop. */
  function WithFailed(s: Server, id: ConnId, loop: nat, k: nat): Server
    requires loop < |s.loops| && k <= |s.loops[loop].queue|
  {
    var queue := s.loops[loop].queue;
    s.(conns := s.conns[id := Conn(-1, loop, false)], fdEvents := s.fdEvents + {-1},
       loops := s.loops[loop := s.loops[loop].(queue := queue[..k] + [id] + queue[k..])])
  }

  /** What every reachable state keeps besides the invariant. */
  ghost predicate OpenAreValid(s: Server) {
    forall fd <- s.open :: 0 <= fd
  }

  lemma {:induction false} NextKeepsValid(s: Server, step: Step)
    requires OpenAreValid(s) && Enabled(s, step)
    ensures OpenAreValid(Next(s, step))
  {
  }

  lemma {:induction false} RunKeepsValid(s: Server, steps: seq<Step>)
    requires OpenAreValid(s) && Legal(s, steps)
    ensures OpenAreValid(Run(s, steps))
    decreases |steps|
  {
    hide Next, OpenAreValid, Enabled;
    if steps != [] {
      NextKeepsValid(s, steps[0]);
      RunKeepsValid(Next(s, steps[0]), steps[1..]);
    }
  }

  lemma {:induction false} WatchedAreValid(s: Server, loop: nat, fd: int)
    requires Inv(s) && OpenAreValid(s) && loop < |s.loops| && fd in s.loops[loop].interest
    ensures 0 <= fd
  {
    assert LoopOk(s, loop);
    var i :| i in s.conns && IsLive(s, i, fd, loop);
    assert fd in FdsOf(s.conns);
  }

  /** The step is legal without the failed connection, and does what it would do without it. */
  ghost predicate Passive(s: Server, id: ConnId, loop: nat, k: nat, step: Step)
    requires loop < |s.loops| && k <= |s.loops[loop].queue|
    requires Enabled(WithFailed(s, id, loop, k), step) && !(step == Register(loop) && k == 0)
  {
    && Enabled(s, step)
    && var n, k' := Next(s, step), if step == Register(loop) then k - 1 else k;
       && id !in n.conns && |n.loops| == |s.loops| && k' <= |n.loops[loop].queue|
       && Next(WithFailed(s, id, loop, k), step) == WithFailed(n, id, loop, k')
  }

  lemma {:induction false} AcceptIsPassive(s: Server, id: ConnId, loop: nat, k: nat, other: ConnId, fd: int, j: nat)
    requires loop < |s.loops| && k <= |s.loops[loop].queue| && id !in s.conns
    requires Enabled(WithFailed(s, id, loop, k), Accept(other, fd, j))
    ensures Passive(s, id, loop, k, Accept(other, fd, j))
  {
    var queue := s.loops[loop].queue;
    assert queue[..k] + [id] + queue[k..] + [other] == (queue + [other])[..k] + [id] + (queue + [other])[k..];
  }

  lemma {:induction false} RegisterIsPassive(s: Server, id: ConnId, loop: nat, k: nat, j: nat)
    requires Inv(s) && loop < |s.loops| && k <= |s.loops[loop].queue| && id !in s.conns
    requires Enabled(WithFailed(s, id, loop, k), Register(j)) && !(j == loop && k == 0)
    ensures Passive(s, id, loop, k, Register(j))
  {
    assert LoopOk(s, j);
    if j == loop {
      var queue := s.loops[loop].queue;
      assert (queue[..k] + [id] + queue[k..])[1..] == queue[1..][..k - 1] + [id] + queue[1..][k - 1..];
    }
  }

  lemma {:induction false} UnqueuedIsOther(s: Server, id: ConnId, loop: nat, k: nat, other: ConnId)
    requires loop < |s.loops| && k <= |s.loops[loop].queue|
    requires !Queued(WithFailed(s, id, loop, k), other)
    ensures other != id && !Queued(s, other)
  {
    var f, queue := WithFailed(s, id, loop, k), s.loops[loop].queue;
    assert f.loops[loop].queue[k] == id && id in f.loops[loop].queue;
    forall j | 0 <= j < |s.loops| ensures other !in s.loops[j].queue {
      assert other !in f.loops[j].queue;
      if j == loop {
        assert queue == queue[..k] + queue[k..];
      }
    }
  }

  lemma {:induction false} RelistenIsPassive(s: Server, id: ConnId, loop: nat, k: nat, other: ConnId)
    requires loop < |s.loops| && k <= |s.loops[loop].queue| && id !in s.conns
    requires Enabled(WithFailed(s, id, loop, k), Relisten(other))
    ensures Passive(s, id, loop, k, Relisten(other))
  {
    UnqueuedIsOther(s, id, loop, k, other);
    hide Queued;
  }

  lemma {:induction false} UnwatchCommutes(s: Server, id: ConnId, loop: nat, k: nat, j: nat, fd: int)
    requires loop < |s.loops| && k <= |s.loops[loop].queue| && j < |s.loops|
    ensures var u := Unwatch(s, j, fd);
            && u.conns == s.conns && |u.loops| == |s.loops| && u.loops[loop].queue == s.loops[loop].queue
            && Unwatch(WithFailed(s, id, loop, k), j, fd) == WithFailed(u, id, loop, k)
  {
  }

  lemma {:induction false} PeerClosedIsPassive(s: Server, id: ConnId, loop: nat, k: nat, other: ConnId)
    requires loop < |s.loops| && k <= |s.loops[loop].queue| && id !in s.conns
    requires Enabled(WithFailed(s, id, loop, k), PeerClosed(other))
    ensures Passive(s, id, loop, k, PeerClosed(other))
  {
    UnqueuedIsOther(s, id, loop, k, other);
    hide Queued, Unwatch;
    var c := s.conns[other];
    UnwatchCommutes(s, id, loop, k, c.loop, c.fd);
    var closed, failed := c.(closed := true), Conn(-1, loop, false);
    assert s.conns[id := failed][other := closed] == s.conns[other := closed][id := failed];
  }

  lemma {:induction false} ErrorEventIsPassive(s: Server, id: ConnId, loop: nat, k: nat, j: nat, fd: int)
    requires loop < |s.loops| && k <= |s.loops[loop].queue| && id !in s.conns
    requires Enabled(WithFailed(s, id, loop, k), ErrorEvent(j, fd))
    ensures Passive(s, id, loop, k, ErrorEvent(j, fd))
  {
    hide Unwatch;
    UnwatchCommutes(s, id, loop, k, j, fd);
  }

  lemma {:induction false} CleanIsPassive(s: Server, id: ConnId, loop: nat, k: nat, other: ConnId)
    requires Inv(s) && OpenAreValid(s) && loop < |s.loops| && k <= |s.loops[loop].queue| && id !in s.conns
    requires Enabled(WithFailed(s, id, loop, k), Clean(other))
    ensures Passive(s, id, loop, k, Clean(other))
  {
    assert s.conns[other].fd in FdsOf(s.conns);
    assert s.fdEvents + {-1} - {s.conns[other].fd} == s.fdEvents - {s.conns[other].fd} + {-1};
    var f := WithFailed(s, id, loop, k);
    assert f.conns - {other} == (s.conns - {other})[id := Conn(-1, loop, false)];
    assert Next(f, Clean(other)).loops == WithFailed(Next(s, Clean(other)), id, loop, k).loops;
  }

  /** The failed connection is in nobody's way, as long as it is not registered. */
  lemma {:induction false} FailedIsPassive(s: Server, id: ConnId, loop: nat, k: nat, step: Step)
    requires Inv(s) && OpenAreValid(s) && id !in s.conns && loop < |s.loops| && k <= |s.loops[loop].queue|
    requires Enabled(WithFailed(s, id, loop, k), step) && !(step == Register(loop) && k == 0)
    ensures Passive(s, id, loop, k, step)
  {
    hide *;
    match step
    case Accept(other, fd, j) => AcceptIsPassive(s, id, loop, k, other, fd, j);
    case Register(j) => RegisterIsPassive(s, id, loop, k, j);
    case Relisten(other) => RelistenIsPassive(s, id, loop, k, other);
    case PeerClosed(other) => PeerClosedIsPassive(s, id, loop, k, other);
    case ErrorEvent(j, fd) => ErrorEventIsPassive(s, id, loop, k, j, fd);
    case Clean(other) => CleanIsPassive(s, id, loop, k, other);
  }

  /** Registering descriptor -1 fails, whatever else is watched. */
  lemma {:induction false} FailedCannotRegister(s: Server, id: ConnId, loop: nat)
    requires Inv(s) && OpenAreValid(s) && id !in s.conns && loop < |s.loops|
    ensures Enabled(WithFailed(s, id, loop, 0), Register(loop))
    ensures !Next(WithFailed(s, id, loop, 0), Register(loop)).sound
  {
    var f, queue := WithFailed(s, id, loop, 0), s.loops[loop].queue;
    assert queue[..0] + [id] + queue[0..] == [id] + queue;
    assert LoopOk(s, loop);
    if -1 in s.loops[loop].interest {
      WatchedAreValid(s, loop, -1);
    }
  }

  lemma {:induction false} UnsoundStays(s: Server, steps: seq<Step>)
    requires !s.sound && Legal(s, steps)
    ensures !Run(s, steps).sound
    decreases |steps|
  {
    if steps != [] {
      UnsoundStays(Next(s, steps[0]), steps[1..]);
    }
  }

  /** How many registrations the loop performs. */
  function Registrations(loop: nat, steps: seq<Step>): nat {
    if steps == [] then 0 else (if steps[0] == Register(loop) then 1 else 0) + Registrations(loop, steps[1..])
  }

  lemma {:induction false} FailedRegistrationFails(s: Server, id: ConnId, loop: nat, k: nat, steps: seq<Step>)
    requires Inv(s) && OpenAreValid(s) && id !in s.conns && loop < |s.loops| && k <= |s.loops[loop].queue|
    requires Legal(WithFailed(s, id, loop, k), steps) && k < Registrations(loop, steps)
    ensures !Run(WithFailed(s, id, loop, k), steps).sound
    decreases |steps|
  {
    hide Next, Enabled, Inv, OpenAreValid, WithFailed;
    var step := steps[0];
    if step == Register(loop) && k == 0 {
      FailedCannotRegister(s, id, loop);
      UnsoundStays(Next(WithFailed(s, id, loop, k), step), steps[1..]);
    } else {
      FailedIsPassive(s, id, loop, k, step);
      NextKeepsInv(s, step);
      NextKeepsValid(s, step);
      FailedRegistrationFails(Next(s, step), id, loop, if step == Register(loop) then k - 1 else k, steps[1..]);
    }
  }

  /** An accept that fails is not noticed: its descriptor -1 is queued for registration like any other. From
      any state that the server can reach, every run in which the loop performs the registrations queued before
      and one more ends with a failed `epoll_ctl`, on which the program exits. */
  lemma {:induction false} FailedAcceptEndsTheServer(loops: nat, before: seq<Step>, id: ConnId, loop: nat,
                                                     steps: seq<Step>)
    requires Legal(Started(loops), before) && loop < |Run(Started(loops), before).loops|
    requires var s := Run(Started(loops), before);
             var k := |s.loops[loop].queue|;
             && id !in s.conns && Legal(WithFailed(s, id, loop, k), steps) && k < Registrations(loop, steps)
    ensures var s := Run(Started(loops), before);
            !Run(WithFailed(s, id, loop, |s.loops[loop].queue|), steps).sound
  {
    hide Inv, Next, Enabled, WithFailed;
    StartedIsOk(loops);
    var s := Run(Started(loops), before);
    RunKeepsInv(Started(loops), before);
    RunKeepsValid(Started(loops), before);
    FailedRegistrationFails(s, id, loop, |s.loops[loop].queue|, steps);
  }

  function Registers(loop: nat, n: nat): seq<Step> {
    if n == 0 then [] else [Register(loop)] + Registers(loop, n - 1)
  }

  /** There is such a run: the loop can perform just these registrations. */
  lemma {:induction false} FailedAcceptIsRegistered(s: Server, id: ConnId, loop: nat, k: nat)
    requires Inv(s) && OpenAreValid(s) && id !in s.conns && loop < |s.loops| && k <= |s.loops[loop].queue|
    ensures var steps := Registers(loop, k + 1);
            Legal(WithFailed(s, id, loop, k), steps) && !Run(WithFailed(s, id, loop, k), steps).sound
    decreases k
  {
    assert Registers(loop, k + 1)[1..] == Registers(loop, k);
    if k == 0 {
      FailedCannotRegister(s, id, loop);
    } else {
      var f, queue := WithFailed(s, id, loop, k), s.loops[loop].queue;
      assert LoopOk(s, loop) && f.loops[loop].queue[0] == queue[0] && queue[0] in queue;
      assert Enabled(f, Register(loop));
      FailedIsPassive(s, id, loop, k, Register(loop));
      NextKeepsInv(s, Register(loop));
      NextKeepsValid(s, Register(loop));
      FailedAcceptIsRegistered(Next(s, Register(loop)), id, loop, k - 1);
    }
  }
}
