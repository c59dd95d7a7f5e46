/** Event masks, the epoll interest set of the kernel and the loop's own mirror of it. */
module EventLoopFds {
  import opened Options

  /** The epoll bits that the program sets and clears. */
  datatype Flag = IN | OUT | ET

  type Mask = set<Flag>

  datatype Op = ADD | MOD | DEL

  /** The kernel's side of `epoll_ctl`; None is the error return, on which the program exits. */
  function EpollCtl(interest: map<int, Mask>, op: Op, fd: int, events: Mask): Option<map<int, Mask>> {
    match op
    case ADD => if fd in interest then None else Some(interest[fd := events])
    case MOD => if fd in interest then Some(interest[fd := events]) else None
    case DEL => if fd in interest then Some(interest - {fd}) else None
  }

  /** What a loop does to register a descriptor, given its own record and the kernel's set: ADD, or MOD when
      it is on record; None where the program exits. */
  function Registered(listenFds: set<int>, interest: map<int, Mask>, fd: int, events: Mask): Option<map<int, Mask>> {
    EpollCtl(interest, if fd in listenFds then MOD else ADD, fd, events)
  }

  /** And to delete a registration: nothing when the descriptor is not on record. */
  function Deregistered(listenFds: set<int>, interest: map<int, Mask>, fd: int): Option<map<int, Mask>> {
    if fd in listenFds then EpollCtl(interest, DEL, fd, {}) else Some(interest)
  }

  class FdEvent {
    const fd: int
    var events: Mask

    constructor (fd: int)
      ensures this.fd == fd && events == {}
    {
      this.fd := fd;
      events := {};
    }

    method SetFdEvent(event: Flag)
      requires event != ET
      modifies this
      ensures events == old(events) + {event}
    {
      if event == IN {
        events := events + {IN};
      } else {
        events := events + {OUT};
      }
    }

    method SetEpollET()
      modifies this
      ensures events == old(events) + {ET}
    {
      if ET in events {
        return;
      }
      events := events + {ET};
    }

    method CancelFdEvent(event: Flag)
      requires event != ET
      modifies this
      ensures events == old(events) - {event}
    {
      if event == IN {
        events := events - {IN};
      } else {
        events := events - {OUT};
      }
    }

    method CancelEpollET()
      modifies this
      ensures events == old(events) - {ET}
    {
      if ET in events {
        events := events - {ET};
      }
    }
  }

  class EventLoop {
    var listenFds: set<int>
    var interest: map<int, Mask>   // the kernel's set
    var isLooping: bool

    /** The loop knows exactly the descriptors the kernel watches. */
    ghost predicate Mirrors()
      reads this
    {
      listenFds == interest.Keys
    }

    constructor ()
      ensures Mirrors() && interest == map[] && !isLooping
    {
      listenFds, interest, isLooping := {}, map[], false;
    }

    method Stop()
      modifies this`isLooping
      ensures !isLooping
    {
      if !isLooping {
        return;
      }
      isLooping := false;
    }

    /** Returns false where the program exits. */
    method AddFdEventToEpoll(fdEvent: FdEvent) returns (ok: bool)
      modifies this`listenFds, this`interest
      ensures old(Mirrors()) ==> ok && Mirrors()
      ensures ok <==> Registered(old(listenFds), old(interest), fdEvent.fd, fdEvent.events).Some?
      ensures ok ==> Some(interest) == Registered(old(listenFds), old(interest), fdEvent.fd, fdEvent.events)
      ensures ok ==> interest == old(interest)[fdEvent.fd := fdEvent.events]
      ensures ok ==> listenFds == old(listenFds) + {fdEvent.fd}
      ensures !ok ==> interest == old(interest) && listenFds == old(listenFds)
    {
      var op := ADD;
      if fdEvent.fd in listenFds {
        op := MOD;
      }
      var rt := EpollCtl(interest, op, fdEvent.fd, fdEvent.events);
      if rt == None {
        return false;
      }
      interest := rt.value;
      listenFds := listenFds + {fdEvent.fd};
      ok := true;
    }

    method DeleteFdEventFromEpoll(fdEvent: FdEvent) returns (ok: bool)
      modifies this`listenFds, this`interest
      ensures old(Mirrors()) ==> ok && Mirrors()
      ensures ok <==> Deregistered(old(listenFds), old(interest), fdEvent.fd).Some?
      ensures ok ==> Some(interest) == Deregistered(old(listenFds), old(interest), fdEvent.fd)
      ensures ok && old(Mirrors()) ==> interest == old(interest) - {fdEvent.fd}
      ensures ok ==> listenFds == old(listenFds) - {fdEvent.fd}
      ensures !ok ==> interest == old(interest) && listenFds == old(listenFds)
    {
      if fdEvent.fd !in listenFds {
        assert interest.Keys - {fdEvent.fd} == interest.Keys || fdEvent.fd in interest;
        return true;
      }
      var rt := EpollCtl(interest, DEL, fdEvent.fd, {});
      if rt == None {
        return false;
      }
      interest := rt.value;
      listenFds := listenFds - {fdEvent.fd};
      ok := true;
    }
  }
}
