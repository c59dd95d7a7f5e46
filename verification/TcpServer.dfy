/** The server object: its two callbacks on the connection set and the descriptor map. */
module TcpServers {
  import opened ServerModel

  class TcpServer {
    var connClients: map<ConnId, Conn>
    var clientFdEvents: set<int>
    var loops: seq<IoLoop>       // the IO threads' loops
    var open: set<int>           // the kernel's open client descriptors
    ghost var sound: bool

    ghost function Now(): Server
      reads this
    {
      Server(connClients, clientFdEvents, loops, open, sound)
    }

    constructor (ioThreads: nat)
      ensures Now() == Started(ioThreads)
    {
      connClients, clientFdEvents, open, sound := map[], {}, {}, true;
      loops := seq(ioThreads, _ => IoLoop({}, {}, []));
    }

    /** A connection accepted by the kernel as `fd` is handed to the loop that is next in turn. */
    method OnAccept(id: ConnId, fd: int, loop: nat)
      requires Enabled(Now(), Accept(id, fd, loop))
      modifies this
      ensures Now() == Next(old(Now()), Accept(id, fd, loop))
    {
      open := open + {fd};
      loops := loops[loop := loops[loop].(queue := loops[loop].queue + [id])];
      connClients := connClients[id := Conn(fd, loop, false)];
      clientFdEvents := clientFdEvents + {fd};
    }

    method CloseClient(id: ConnId)
      requires Enabled(Now(), Clean(id))
      modifies this
      ensures Now() == Next(old(Now()), Clean(id))
    {
      var fd := connClients[id].fd;
      sound := sound && fd in open;
      open := open - {fd};
      loops := Forgotten(loops, fd);
      clientFdEvents := clientFdEvents - {fd};
      connClients := connClients - {id};
    }

    /** Removes exactly the closed connections; each one's descriptor is closed once, while it is open. */
    method OnClearClientTimerFunc() returns (ghost steps: seq<Step>)
      requires Inv(Now())
      modifies this
      ensures Inv(Now()) && Legal(old(Now()), steps) && Now() == Run(old(Now()), steps)
      ensures forall id :: id in connClients <==> id in old(connClients) && !old(connClients)[id].closed
      ensures forall id :: id in connClients ==> connClients[id] == old(connClients)[id]
      ensures loops == old(loops)
    {
      hide Inv, FdsOf, LoopOk;
      var rest := connClients.Keys;
      steps := [];
      while rest != {}
        invariant Inv(Now()) && Legal(old(Now()), steps) && Now() == Run(old(Now()), steps)
        invariant rest <= connClients.Keys <= old(connClients).Keys && loops == old(loops)
        invariant forall id :: id in connClients ==> connClients[id] == old(connClients)[id]
        invariant forall id :: id in old(connClients) && (id in rest || !old(connClients)[id].closed) ==>
                                 id in connClients
        invariant forall id :: id in connClients && id !in rest ==> !connClients[id].closed
        decreases |rest|
      {
        var id :| id in rest;
        rest := rest - {id};
        if connClients[id].closed {
          CleanKeepsInv(Now(), id);
          RunSnoc(old(Now()), steps, Clean(id));
          CloseClient(id);
          steps := steps + [Clean(id)];
        }
      }
    }

    static lemma {:induction false} RunSnoc(s: Server, steps: seq<Step>, step: Step)
      requires Legal(s, steps) && Enabled(Run(s, steps), step)
      ensures Legal(s, steps + [step]) && Run(s, steps + [step]) == Next(Run(s, steps), step)
      decreases |steps|
    {
      if steps == [] {
        assert steps + [step] == [step] && [step][1..] == [];
      } else {
        assert (steps + [step])[1..] == steps[1..] + [step];
        RunSnoc(Next(s, steps[0]), steps[1..], step);
      }
    }
  }
}
